/** The account entity of the server (`User`): its fields and their defaults, the username and
  * password rules, the temporary password, the password check and the two views of an account
  * that responses carry. BCrypt is modelled by a free term: a digest records the text it hashes
  * and the salt `gensalt` supplied. */
module Accounts {
  import opened Grid
  import opened Text

  /** The colour themes an account can choose. */
  datatype Theme = DEFAULT | DARK | RASPBERRY | MANGO | LAKE

  /** `Theme.name()`. */
  function ThemeName(t: Theme): string
  {
    match t
    case DEFAULT => "DEFAULT"
    case DARK => "DARK"
    case RASPBERRY => "RASPBERRY"
    case MANGO => "MANGO"
    case LAKE => "LAKE"
  }

  /** The theme a request value names, if it names one: the value must equal a constant's name
    * exactly; a missing value names none. */
  function ParseTheme(value: Option<string>): (t: Option<Theme>)
    ensures t.Some? ==> value == Some(ThemeName(t.value))
    ensures t.None? ==> forall th :: value != Some(ThemeName(th))
  {
    if value == Some("DEFAULT") then Some(DEFAULT)
    else if value == Some("DARK") then Some(DARK)
    else if value == Some("RASPBERRY") then Some(RASPBERRY)
    else if value == Some("MANGO") then Some(MANGO)
    else if value == Some("LAKE") then Some(LAKE)
    else None
  }

  /** `BCrypt.hashpw(plain, salt)`. */
  datatype Digest = Digest(plain: string, salt: int)

  /** `BCrypt.checkpw(input, digest)`. */
  predicate Matches(input: string, d: Digest)
  {
    d.plain == input
  }

  /** `isValidUsername`: present, not blank in Java's sense, and 3 to 20 UTF-16 units long. */
  predicate IsValidUsername(username: Option<string>)
  {
    username.Some? && !IsBlank(username.value) && 3 <= Utf16Length(username.value) <= 20
  }

  /** `isValidPassword`: present and 8 to 64 UTF-16 units long; any characters are allowed. */
  predicate IsValidPassword(password: Option<string>)
  {
    password.Some? && 8 <= Utf16Length(password.value) <= 64
  }

  /** A valid username holds a character that is not Java whitespace, whatever its length. */
  lemma ValidUsernameNotBlank(s: string)
    requires IsValidUsername(Some(s))
    ensures exists i :: 0 <= i < |s| && !IsJavaSpace(s[i])
  {
  }

  /** Whitespace-only names are refused even at an allowed length. */
  lemma BlankUsernameRefused(s: string)
    requires forall i :: 0 <= i < |s| ==> IsJavaSpace(s[i])
    ensures !IsValidUsername(Some(s))
  {
  }

  /** A password of eight spaces is accepted: the rule looks at the length only. */
  lemma SpacesMakeAPassword()
    ensures IsValidPassword(Some("        "))
  {
    assert Utf16Length("        ") == 8 by {
      assert "        " == [' '] + "       ";
    }
  }

  /** A JSON value of a response field. */
  datatype Value =
    | Num(n: int)
    | Id(id: Option<int>)
    | Str(s: Option<string>)
    | Day(d: int)
    | ThemeValue(t: Theme)
    | Flag(b: bool)
    | Ids(ids: seq<int>)

  /** A response object: field name to value. */
  type Dto = map<string, Value>

  /** The public fields of an account. */
  function PublicKeys(): set<string>
  {
    {"id", "username", "createdAt", "avatar"}
  }

  /** The fields only the owner or an administrator sees. */
  function PrivateKeys(): set<string>
  {
    {"email", "theme", "isAdmin", "likedPuzzleIds", "favoritedPuzzleIds", "completedPuzzleIds"}
  }

  /** No field is both public and private. */
  lemma KeysApart()
    ensures PublicKeys() !! PrivateKeys()
  {
  }

  /** The fields the update loop may change: a snapshot of what `updateUser` writes. */
  datatype Profile = Profile(username: Option<string>, password: Digest, email: Option<string>,
                             theme: Theme, avatar: Option<string>)

  /** The fields no setter and no profile update writes. */
  datatype Standing = Standing(id: Option<int>, createdAt: int, isAdmin: bool, liked: seq<int>,
                               favorited: seq<int>, completed: seq<int>)

  /** An account. `id` is absent until the database assigns it when the account is first
    * persisted; `createdAt` is the day number of creation. */
  class User {
    var id: Option<int>
    var createdAt: int
    var username: Option<string>
    var password: Digest
    var email: Option<string>
    var theme: Theme
    var avatar: Option<string>
    var isAdmin: bool
    var tempPassword: Option<Digest>
    var likedPuzzleIds: seq<int>
    var favoritedPuzzleIds: seq<int>
    var completedPuzzleIds: seq<int>

    /** `new User(username, password, email)`: the password is stored hashed, and every other
      * field takes its default (no avatar, DEFAULT theme, not an administrator, no temporary
      * password, no liked, favourite or completed puzzles). */
    constructor(username: Option<string>, password: string, email: Option<string>, salt: int, today: int)
      ensures this.username == username && this.password == Digest(password, salt) && this.email == email
      ensures id == None && createdAt == today
      ensures theme == DEFAULT && avatar == None && !isAdmin && tempPassword == None
      ensures likedPuzzleIds == [] && favoritedPuzzleIds == [] && completedPuzzleIds == []
    {
      id := None;
      createdAt := today;
      this.username := username;
      this.password := Digest(password, salt);
      this.email := email;
      theme := DEFAULT;
      avatar := None;
      isAdmin := false;
      tempPassword := None;
      likedPuzzleIds := [];
      favoritedPuzzleIds := [];
      completedPuzzleIds := [];
    }

    /** `persist()` of a new account: the database numbers it; nothing else changes. */
    method Persist(newId: int)
      modifies this
      ensures id == (if old(id).None? then Some(newId) else old(id))
      ensures Snapshot() == old(Snapshot()) && tempPassword == old(tempPassword)
      ensures createdAt == old(createdAt) && isAdmin == old(isAdmin)
      ensures likedPuzzleIds == old(likedPuzzleIds) && favoritedPuzzleIds == old(favoritedPuzzleIds)
      ensures completedPuzzleIds == old(completedPuzzleIds)
    {
      if id.None? {
        id := Some(newId);
      }
    }

    ghost function Snapshot(): Profile
      reads this
    {
      Profile(username, password, email, theme, avatar)
    }

    ghost function Rest(): Standing
      reads this
    {
      Standing(id, createdAt, isAdmin, likedPuzzleIds, favoritedPuzzleIds, completedPuzzleIds)
    }

    /** `getPublicDTO`: id, username, creation date and avatar. */
    function PublicDto(): (d: Dto)
      reads this
      ensures d.Keys == PublicKeys()
      ensures d["username"] == Str(username) && d["avatar"] == Str(avatar) && d["id"] == Id(id)
      ensures d["createdAt"] == Day(createdAt)
    {
      map["id" := Id(id), "username" := Str(username), "createdAt" := Day(createdAt), "avatar" := Str(avatar)]
    }

    /** `getFullDTO`: the public view plus email, theme, the administrator flag and the three
      * lists of puzzle ids. */
    function FullDto(): (d: Dto)
      reads this
      ensures d.Keys == PublicKeys() + PrivateKeys()
      ensures forall k :: k in PublicKeys() ==> d[k] == PublicDto()[k]
      ensures d["email"] == Str(email) && d["theme"] == ThemeValue(theme) && d["isAdmin"] == Flag(isAdmin)
      ensures d["likedPuzzleIds"] == Ids(likedPuzzleIds) && d["favoritedPuzzleIds"] == Ids(favoritedPuzzleIds)
      ensures d["completedPuzzleIds"] == Ids(completedPuzzleIds)
    {
      KeysApart();
      PublicDto()["email" := Str(email)]["theme" := ThemeValue(theme)]["isAdmin" := Flag(isAdmin)]
        ["likedPuzzleIds" := Ids(likedPuzzleIds)]["favoritedPuzzleIds" := Ids(favoritedPuzzleIds)]
        ["completedPuzzleIds" := Ids(completedPuzzleIds)]
    }

    /** `verifyPassword`: the main password, or else the temporary one when there is one. */
    function VerifyPassword(input: string): (ok: bool)
      reads this
      ensures ok <==> Matches(input, password) || (tempPassword.Some? && Matches(input, tempPassword.value))
    {
      if Matches(input, password) then true
      else tempPassword.Some? && Matches(input, tempPassword.value)
    }

    method SetUsername(username: Option<string>)
      modifies this
      ensures Snapshot() == old(Snapshot()).(username := username)
      ensures tempPassword == old(tempPassword) && Rest() == old(Rest())
    {
      this.username := username;
    }

    /** `setPassword`: the new password is stored hashed with a fresh salt. */
    method SetPassword(password: string, salt: int)
      modifies this
      ensures Snapshot() == old(Snapshot()).(password := Digest(password, salt))
      ensures tempPassword == old(tempPassword) && Rest() == old(Rest())
    {
      this.password := Digest(password, salt);
    }

    method SetEmail(email: Option<string>)
      modifies this
      ensures Snapshot() == old(Snapshot()).(email := email)
      ensures tempPassword == old(tempPassword) && Rest() == old(Rest())
    {
      this.email := email;
    }

    method SetTheme(theme: Theme)
      modifies this
      ensures Snapshot() == old(Snapshot()).(theme := theme)
      ensures tempPassword == old(tempPassword) && Rest() == old(Rest())
    {
      this.theme := theme;
    }

    method SetAvatar(avatar: Option<string>)
      modifies this
      ensures Snapshot() == old(Snapshot()).(avatar := avatar)
      ensures tempPassword == old(tempPassword) && Rest() == old(Rest())
    {
      this.avatar := avatar;
    }

    /** `setTempPassword`: a given password is stored hashed; a missing one changes nothing. */
    method SetTempPassword(temp: Option<string>, salt: int)
      modifies this
      ensures temp.None? ==> tempPassword == old(tempPassword)
      ensures temp.Some? ==> tempPassword == Some(Digest(temp.value, salt)) && VerifyPassword(temp.value)
      ensures forall input :: Matches(input, password) ==> VerifyPassword(input)
      ensures Snapshot() == old(Snapshot()) && Rest() == old(Rest())
    {
      if temp.Some? {
        tempPassword := Some(Digest(temp.value, salt));
      }
    }

    /** `clearTempPassword`: afterwards only the main password is accepted. */
    method ClearTempPassword()
      modifies this
      ensures tempPassword == None
      ensures forall input :: VerifyPassword(input) <==> Matches(input, password)
      ensures Snapshot() == old(Snapshot()) && Rest() == old(Rest())
    {
      tempPassword := None;
    }
  }
}
