/** The client's settings context: the settings record (avatar, signed-in flag, theme), its
  * one-key updates, loading it from the server or from local storage, saving it, and the effect
  * that keeps the page's `theme-*` class in step with the theme. Local storage and the document's
  * class list are fields; the server's answers are parameters. */
module SettingsStore {
  import opened Grid
  import opened Forms

  /** The settings record. `theme` is None when a stored record had no theme (JavaScript's
    * `undefined`). */
  datatype Settings = Settings(avatar: Option<string>, isLoggedIn: bool, theme: Option<string>)

  /** The settings used when nothing else is known. */
  function Defaults(): Settings
  {
    Settings(None, false, Some("DEFAULT"))
  }

  datatype Key = AvatarKey | LoggedInKey | ThemeKey

  /** A value for one key of the record. */
  datatype Setting = AvatarSetting(avatar: Option<string>) | LoggedInSetting(on: bool) | ThemeSetting(theme: Option<string>)

  function KeyOf(v: Setting): Key
  {
    match v
    case AvatarSetting(_) => AvatarKey
    case LoggedInSetting(_) => LoggedInKey
    case ThemeSetting(_) => ThemeKey
  }

  function Get(s: Settings, k: Key): Setting
  {
    match k
    case AvatarKey => AvatarSetting(s.avatar)
    case LoggedInKey => LoggedInSetting(s.isLoggedIn)
    case ThemeKey => ThemeSetting(s.theme)
  }

  /** `updateSetting(key, value)`: `{...prev, [key]: value}`. */
  function UpdateSetting(s: Settings, v: Setting): (r: Settings)
    ensures Get(r, KeyOf(v)) == v
    ensures forall k :: k != KeyOf(v) ==> Get(r, k) == Get(s, k)
  {
    match v
    case AvatarSetting(a) => s.(avatar := a)
    case LoggedInSetting(b) => s.(isLoggedIn := b)
    case ThemeSetting(t) => s.(theme := t)
  }

  /** A record is determined by its three keys. */
  lemma SettingsByKeys(s: Settings, t: Settings)
    requires forall k :: Get(s, k) == Get(t, k)
    ensures s == t
  {
    assert Get(s, AvatarKey) == Get(t, AvatarKey);
    assert Get(s, LoggedInKey) == Get(t, LoggedInKey);
    assert Get(s, ThemeKey) == Get(t, ThemeKey);
  }

  /** Setting a key to the value it has changes nothing, and of two updates of one key the later
    * wins. */
  lemma UpdateSettingLaws(s: Settings, v: Setting, w: Setting)
    ensures UpdateSetting(s, Get(s, KeyOf(v))) == s
    ensures KeyOf(v) == KeyOf(w) ==> UpdateSetting(UpdateSetting(s, v), w) == UpdateSetting(s, w)
  {
    SettingsByKeys(UpdateSetting(s, Get(s, KeyOf(v))), s);
    if KeyOf(v) == KeyOf(w) {
      SettingsByKeys(UpdateSetting(UpdateSetting(s, v), w), UpdateSetting(s, w));
    }
  }

  /** What parsing the stored settings text yields: each field present or not. Only the avatar
    * and the theme matter, since the signed-in flag is overridden. */
  datatype StoredSettings = StoredSettings(avatar: Option<Option<string>>, theme: Option<Option<string>>)

  /** The fallback of `initializeSettings`: `{avatar: undefined, ...stored, isLoggedIn: false}`
    * when something is stored, else the defaults. */
  function Fallback(stored: Option<StoredSettings>): (s: Settings)
    ensures !s.isLoggedIn
    ensures stored.None? ==> s == Defaults()
    ensures stored.Some? ==> s.avatar == (if stored.value.avatar.Some? then stored.value.avatar.value else None)
    ensures stored.Some? ==> s.theme == (if stored.value.theme.Some? then stored.value.theme.value else None)
  {
    if stored.None? then Defaults()
    else
      var base := Settings(None, false, None);
      var withAvatar := if stored.value.avatar.Some? then base.(avatar := stored.value.avatar.value) else base;
      var withTheme := if stored.value.theme.Some? then withAvatar.(theme := stored.value.theme.value) else withAvatar;
      withTheme.(isLoggedIn := false)
  }

  /** How the request of `fetchSettings` ends, when a token is stored: an exception, a non-OK
    * answer, or the account's avatar and theme. */
  datatype FetchAnswer = FetchThrew | Rejected | Account(avatar: Option<string>, theme: Option<string>)

  /** `if (token)`: a stored token counts only when it is not the empty text. */
  predicate HasToken(token: Option<string>)
  {
    token.Some? && token.value != ""
  }

  predicate StartsWith(s: string, prefix: string)
  {
    |prefix| <= |s| && s[..|prefix|] == prefix
  }

  predicate IsThemeClass(c: string)
  {
    StartsWith(c, "theme-")
  }

  /** The class the effect adds: `theme-${theme}`, with JavaScript's text for a missing one. */
  function ThemeClass(theme: Option<string>): string
  {
    "theme-" + (if theme.Some? then theme.value else "undefined")
  }

  /** A class list holds each token once. */
  predicate DistinctTokens(s: seq<string>)
  {
    forall i, j :: 0 <= i < j < |s| ==> s[i] != s[j]
  }

  /** `classList.add(t)`: appended unless already there. */
  function AddToken(s: seq<string>, t: string): (r: seq<string>)
    ensures DistinctTokens(s) ==> DistinctTokens(r)
    ensures forall x :: x in r <==> x in s || x == t
  {
    if t in s then s else s + [t]
  }

  /** The class list without any `theme-*` class, others kept in order. */
  function DropThemes(s: seq<string>): seq<string>
  {
    if s == [] then []
    else (if IsThemeClass(s[0]) then [] else [s[0]]) + DropThemes(s[1..])
  }

  /** The class list after the effect: no `theme-*` class but the current theme's, and that one
    * only when the theme is not DEFAULT. */
  function Themed(s: seq<string>, theme: Option<string>): seq<string>
  {
    if theme == Some("DEFAULT") then DropThemes(s) else AddToken(DropThemes(s), ThemeClass(theme))
  }

  /** What the effect achieves: every other class stays, and the only theme class left is the
    * current theme's, present exactly when the theme is not DEFAULT. */
  lemma ThemedClasses(s: seq<string>, theme: Option<string>)
    ensures forall x :: !IsThemeClass(x) ==> (x in Themed(s, theme) <==> x in s)
    ensures forall x :: x in Themed(s, theme) && IsThemeClass(x) ==> x == ThemeClass(theme) && theme != Some("DEFAULT")
    ensures theme != Some("DEFAULT") ==> ThemeClass(theme) in Themed(s, theme)
  {
    DropThemesMembers(s);
  }

  /** Dropping keeps exactly the tokens that are not theme classes. */
  lemma {:induction false} DropThemesMembers(s: seq<string>)
    ensures forall x :: x in DropThemes(s) <==> x in s && !IsThemeClass(x)
  {
    if s != [] {
      DropThemesMembers(s[1..]);
      assert s == [s[0]] + s[1..];
    }
  }

  /** `Array.prototype.forEach` over the live class list, removing each `theme-*` class as it is
    * met: removing the token at position k moves the next one into k, and the walk goes on at
    * k + 1, so the token after a removed one is never looked at. */
  function SkipRemove(s: seq<string>): seq<string>
  {
    if s == [] then []
    else if !IsThemeClass(s[0]) then [s[0]] + SkipRemove(s[1..])
    else if |s| == 1 then []
    else [s[1]] + SkipRemove(s[2..])
  }

  /** The list as the walk will leave it, from its state at position k. */
  function Pending(s: seq<string>, k: nat): seq<string>
  {
    if k <= |s| then s[..k] + SkipRemove(s[k..]) else s
  }

  /** No two positions of the list hold theme classes. */
  predicate AtMostOneTheme(s: seq<string>)
  {
    forall i, j :: 0 <= i < j < |s| && IsThemeClass(s[i]) ==> !IsThemeClass(s[j])
  }

  /** Two adjacent theme classes: the second survives the walk. */
  lemma SkipRemoveKeepsATheme()
    ensures SkipRemove(["theme-DARK", "theme-MANGO"]) == ["theme-MANGO"]
    ensures DropThemes(["theme-DARK", "theme-MANGO"]) == []
  {
    assert IsThemeClass("theme-DARK");
    assert IsThemeClass("theme-MANGO");
  }

  /** With at most one theme class, as the client itself ever leaves the list, the walk removes
    * everything it should. */
  lemma {:induction false} SkipRemoveWithOneTheme(s: seq<string>)
    requires AtMostOneTheme(s)
    ensures SkipRemove(s) == DropThemes(s)
  {
    if s != [] {
      if !IsThemeClass(s[0]) {
        SkipRemoveWithOneTheme(s[1..]);
      } else if |s| > 1 {
        var t := s[2..];
        assert forall i :: 0 <= i < |t| ==> !IsThemeClass(t[i]) by {
          forall i | 0 <= i < |t|
            ensures !IsThemeClass(t[i])
          {
            assert t[i] == s[i + 2];
          }
        }
        assert !IsThemeClass(s[1]);
        NoThemes(t);
        NoThemes(s[1..]);
        assert s[1..] == [s[1]] + t;
      }
    }
  }

  /** Both walks leave a list without theme classes as it is. */
  lemma {:induction false} NoThemes(s: seq<string>)
    requires forall i :: 0 <= i < |s| ==> !IsThemeClass(s[i])
    ensures SkipRemove(s) == s && DropThemes(s) == s
  {
    if s != [] {
      NoThemes(s[1..]);
      assert s == [s[0]] + s[1..];
    }
  }

  /** The context's state: the settings, whether loading is still under way, the stored token,
    * user id and settings of local storage, and the document's class list. */
  class SettingsContext {
    var settings: Settings
    var isLoading: bool
    var token: Option<string>
    var userId: Option<string>
    var storedSettings: Option<Settings>
    var classes: seq<string>

    predicate Valid()
      reads this
    {
      DistinctTokens(classes)
    }

    /** The provider starts from the defaults, loading. */
    constructor(token: Option<string>, userId: Option<string>, stored: Option<Settings>, classes: seq<string>)
      requires DistinctTokens(classes)
      ensures Valid()
      ensures settings == Defaults() && isLoading
      ensures this.token == token && this.userId == userId && storedSettings == stored && this.classes == classes
    {
      settings := Defaults();
      isLoading := true;
      this.token := token;
      this.userId := userId;
      storedSettings := stored;
      this.classes := classes;
    }

    method SetSetting(v: Setting)
      modifies this
      ensures settings == UpdateSetting(old(settings), v)
      ensures isLoading == old(isLoading) && token == old(token) && userId == old(userId)
      ensures storedSettings == old(storedSettings) && classes == old(classes)
    {
      settings := UpdateSetting(settings, v);
    }

    /** `fetchSettings`: without a token, or when the request throws, nothing changes and the
      * answer is false; an account answer signs in with its avatar and theme; a rejected token is
      * dropped from storage and signs out. The answer is true only for an account. */
    method FetchSettings(answer: FetchAnswer) returns (found: bool)
      modifies this
      ensures found <==> HasToken(old(token)) && answer.Account?
      ensures !HasToken(old(token)) || answer == FetchThrew ==> settings == old(settings) && token == old(token) && userId == old(userId)
      ensures HasToken(old(token)) && answer.Account? ==>
        settings == Settings(answer.avatar, true, answer.theme) && token == old(token) && userId == old(userId)
      ensures HasToken(old(token)) && answer == Rejected ==>
        settings == old(settings).(avatar := None, isLoggedIn := false) && token.None? && userId.None?
      ensures isLoading == old(isLoading) && storedSettings == old(storedSettings) && classes == old(classes)
    {
      if !HasToken(token) {
        return false;
      }
      match answer {
        case FetchThrew =>
          return false;
        case Rejected =>
          token := None;
          userId := None;
          SetSetting(AvatarSetting(None));
          SetSetting(LoggedInSetting(false));
          return false;
        case Account(avatar, theme) =>
          settings := settings.(avatar := avatar, isLoggedIn := true, theme := theme);
          return true;
      }
    }

    /** `initializeSettings`: the server's account if there is one, otherwise the stored settings
      * signed out, otherwise the defaults; loading ends either way. `parsed` is the result of
      * `JSON.parse` on the text `storedSettings` holds; it is read only when that text is present. */
    method InitializeSettings(answer: FetchAnswer, parsed: StoredSettings)
      modifies this
      ensures !isLoading
      ensures HasToken(old(token)) && answer.Account? ==> settings == Settings(answer.avatar, true, answer.theme)
      ensures !(HasToken(old(token)) && answer.Account?) ==>
        settings == Fallback(if old(storedSettings).Some? then Some(parsed) else None)
      ensures token == (if HasToken(old(token)) && answer == Rejected then None else old(token))
      ensures userId == (if HasToken(old(token)) && answer == Rejected then None else old(userId))
      ensures storedSettings == old(storedSettings) && classes == old(classes)
    {
      isLoading := true;
      var found := FetchSettings(answer);
      if !found {
        if storedSettings.Some? {
          settings := Fallback(Some(parsed));
        } else {
          settings := Fallback(None);
        }
      }
      isLoading := false;
    }

    /** `saveSettings`: the settings always go to local storage; they go to the server only when
      * signed in (the answer `sent`). */
    method SaveSettings(newSettings: Settings) returns (sent: Option<Settings>)
      modifies this
      ensures storedSettings == Some(newSettings)
      ensures sent.Some? <==> old(settings).isLoggedIn
      ensures sent.Some? ==> sent.value == newSettings
      ensures settings == old(settings) && classes == old(classes) && token == old(token) && userId == old(userId)
      ensures isLoading == old(isLoading)
    {
      storedSettings := Some(newSettings);
      if !settings.isLoggedIn {
        return None;
      }
      return Some(newSettings);
    }

    /** The avatar dialog's submit: the address is stored when it has an accepted suffix, and
      * the avatar is cleared otherwise. */
    method SubmitAvatar(value: string)
      modifies this
      ensures settings == old(settings).(avatar := AvatarChoice(value))
      ensures isLoading == old(isLoading) && token == old(token) && userId == old(userId)
      ensures storedSettings == old(storedSettings) && classes == old(classes)
    {
      var choice := AvatarChoice(value);
      if choice.Some? {
        SetSetting(AvatarSetting(Some(value)));
      } else {
        SetSetting(AvatarSetting(None));
      }
    }

    /** The theme effect as the source has it: the removing walk over the live list, then the
      * current theme's class unless it is DEFAULT. */
    method ApplyThemeAsWritten()
      modifies this
      ensures classes == (if settings.theme == Some("DEFAULT") then SkipRemove(old(classes))
                          else AddToken(SkipRemove(old(classes)), ThemeClass(settings.theme)))
      ensures AtMostOneTheme(old(classes)) ==> classes == Themed(old(classes), settings.theme)
      ensures settings == old(settings) && storedSettings == old(storedSettings) && isLoading == old(isLoading)
      ensures token == old(token) && userId == old(userId)
    {
      if AtMostOneTheme(classes) {
        SkipRemoveWithOneTheme(classes);
      }
      var walked := RemoveThemesLive(classes);
      if settings.theme != Some("DEFAULT") {
        walked := AddToken(walked, ThemeClass(settings.theme));
      }
      classes := walked;
    }

    /** The theme effect as intended: every `theme-*` class goes, then the current theme's class
      * is added unless it is DEFAULT. */
    method ApplyTheme()
      requires Valid()
      modifies this
      ensures Valid()
      ensures classes == Themed(old(classes), settings.theme)
      ensures settings == old(settings) && storedSettings == old(storedSettings) && isLoading == old(isLoading)
      ensures token == old(token) && userId == old(userId)
    {
      var kept := RemoveThemes(classes);
      DropThemesKeepsDistinct(classes);
      if settings.theme != Some("DEFAULT") {
        kept := AddToken(kept, ThemeClass(settings.theme));
      }
      classes := kept;
    }

    /** The effect, run once loading is over: the theme's class, then saving the settings. It
      * removes the old theme classes by the corrected walk; `ApplyThemeAsWritten` shows that the
      * live-list walk gives the same list whenever at most one theme class is present. */
    method ThemeEffect() returns (sent: Option<Settings>)
      requires Valid()
      modifies this
      ensures Valid()
      ensures old(isLoading) ==> classes == old(classes) && sent.None? && storedSettings == old(storedSettings)
      ensures !old(isLoading) ==> classes == Themed(old(classes), settings.theme) && storedSettings == Some(settings)
      ensures !old(isLoading) ==> (sent.Some? <==> settings.isLoggedIn) && (sent.Some? ==> sent.value == settings)
      ensures settings == old(settings) && isLoading == old(isLoading) && token == old(token) && userId == old(userId)
    {
      if isLoading {
        return None;
      }
      ApplyTheme();
      sent := SaveSettings(settings);
    }
  }

  /** `classList.forEach(c => { if (c.startsWith("theme-")) classList.remove(c) })`: the length
    * is read once, each position is looked at only if the shrinking list still reaches it, and a
    * removal shifts the rest down by one. (On a list of distinct tokens, removing the token met
    * at position k removes exactly that position.) */
  method RemoveThemesLive(list: seq<string>) returns (s: seq<string>)
    ensures s == SkipRemove(list)
  {
    s := list;
    var len := |s|;
    var k := 0;
    while k < len
      invariant |s| <= len
      invariant Pending(s, k) == SkipRemove(list)
      decreases len - k
    {
      if k < |s| {
        if IsThemeClass(s[k]) {
          WalkRemoveStep(s, k);
          s := s[..k] + s[k + 1..];
        } else {
          WalkKeepStep(s, k);
        }
      }
      k := k + 1;
    }
    assert k >= |s| ==> Pending(s, k) == s by {
      if k == |s| {
        assert s[k..] == [];
      }
    }
  }

  /** The corrected walk: it reads a copy of the list, so removals cannot disturb it. */
  method RemoveThemes(list: seq<string>) returns (kept: seq<string>)
    ensures kept == DropThemes(list)
  {
    kept := [];
    var k := 0;
    assert list[0..] == list;
    while k < |list|
      invariant 0 <= k <= |list|
      invariant kept + DropThemes(list[k..]) == DropThemes(list)
    {
      DropThemesStep(list, k);
      if !IsThemeClass(list[k]) {
        assert kept + ([list[k]] + DropThemes(list[k + 1..])) == (kept + [list[k]]) + DropThemes(list[k + 1..]);
        kept := kept + [list[k]];
      }
      k := k + 1;
    }
  }

  lemma DropThemesStep(list: seq<string>, k: nat)
    requires k < |list|
    ensures DropThemes(list[k..]) == (if IsThemeClass(list[k]) then [] else [list[k]]) + DropThemes(list[k + 1..])
  {
    var rest := list[k..];
    assert rest[0] == list[k] && rest[1..] == list[k + 1..];
  }

  /** One step of the walk at a `theme-*` token: removing it keeps what the walk will produce. */
  lemma WalkRemoveStep(s: seq<string>, k: nat)
    requires k < |s| && IsThemeClass(s[k])
    ensures Pending(s[..k] + s[k + 1..], k + 1) == Pending(s, k)
  {
    var t := s[..k] + s[k + 1..];
    assert s[k..] == [s[k]] + s[k + 1..];
    if k + 1 <= |t| {
      assert t[..k + 1] == s[..k] + [s[k + 1]];
      assert t[k + 1..] == s[k + 2..];
      assert s[k + 1..] == [s[k + 1]] + s[k + 2..];
    } else {
      assert t == s[..k];
    }
  }

  /** One step of the walk at another token: it is kept. */
  lemma WalkKeepStep(s: seq<string>, k: nat)
    requires k < |s| && !IsThemeClass(s[k])
    ensures Pending(s, k + 1) == Pending(s, k)
  {
    assert s[k..] == [s[k]] + s[k + 1..];
    assert s[..k + 1] == s[..k] + [s[k]];
  }

  lemma {:induction false} DropThemesKeepsDistinct(s: seq<string>)
    requires DistinctTokens(s)
    ensures DistinctTokens(DropThemes(s))
  {
    if s != [] {
      DropThemesKeepsDistinct(s[1..]);
      DropThemesMembers(s[1..]);
      assert s[0] !in s[1..] by {
        forall i | 0 <= i < |s[1..]|
          ensures s[1..][i] != s[0]
        {
          assert s[1..][i] == s[i + 1];
        }
      }
    }
  }
}
