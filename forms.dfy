/** The client's form checks: the sign-up dialog's field validators, the reset-password and
  * forgot-password pages and the avatar dialog. A validator's outcome is the text it hands to
  * `setCustomValidity`: a message, or "" when the field is accepted. */
module Forms {
  import opened Grid
  import opened Text
  import opened Accounts

  const USERNAME_REQUIRED := "A username is required"
  const USERNAME_LENGTH := "A username must be 3-20 characters"
  const USERNAME_TAKEN := "This username is already taken"
  const EMAIL_REQUIRED := "An email is required"
  const EMAIL_FORMAT := "Your email must be properly formatted. Example: puzzlelab@gmail.com"
  const PASSWORD_REQUIRED := "A password is required"
  const PASSWORD_LENGTH := "Password must be 8-64 characters"
  const CONFIRM_REQUIRED := "Please re-write your password to confirm you typed it correctly"
  const CONFIRM_MISMATCH := "This password does not match"

  /** How the username-availability request ended: a non-OK status, an exception (network or
    * JSON), or an answer. */
  datatype Availability = NotOk | Threw | Answered(available: bool)

  /** `validateUsername`: empty first, then the length, and only then the server's answer. A
    * non-OK status leaves the field's validity as it was (None); an exception accepts the name. */
  function ValidateUsername(value: string, answer: Availability): (v: Option<string>)
    ensures value == "" ==> v == Some(USERNAME_REQUIRED)
    ensures value != "" && !(3 <= Utf16Length(value) <= 20) ==> v == Some(USERNAME_LENGTH)
    ensures v == Some("") <==> value != "" && 3 <= Utf16Length(value) <= 20 && answer in {Threw, Answered(true)}
    ensures v.None? <==> value != "" && 3 <= Utf16Length(value) <= 20 && answer == NotOk
  {
    if value == "" then Some(USERNAME_REQUIRED)
    else if Utf16Length(value) < 3 || Utf16Length(value) > 20 then Some(USERNAME_LENGTH)
    else match answer
      case NotOk => None
      case Answered(available) => if !available then Some(USERNAME_TAKEN) else Some("")
      case Threw => Some("")
  }

  /** Every name the server accepts passes the client's check, but not the other way round: the
    * client does not refuse a name of three spaces, which the server calls blank. */
  lemma UsernameClientLooserThanServer(value: string)
    ensures IsValidUsername(Some(value)) ==> ValidateUsername(value, Answered(true)) == Some("")
    ensures ValidateUsername("   ", Answered(true)) == Some("") && !IsValidUsername(Some("   "))
  {
    assert Utf16Length("   ") == 3 by {
      assert "   "[1..] == "  " && "  "[1..] == " " && " "[1..] == "";
    }
    assert IsBlank("   ");
  }

  predicate NoSpace(s: string)
  {
    forall k :: 0 <= k < |s| ==> s[k] != ' '
  }

  /** `/^[^ ]+@[^ ]+\.[^ ]+$/.test(s)`: no space anywhere, and an '@' after at least one
    * character, followed after at least one more by a '.' that at least one character follows. */
  predicate MatchesEmailPattern(s: string)
  {
    NoSpace(s) && exists i, j :: 1 <= i && i + 2 <= j && j + 2 <= |s| && s[i] == '@' && s[j] == '.'
  }

  /** An address read as the pattern's three parts. */
  lemma EmailFromParts(local: string, domain: string, tld: string)
    requires local != [] && domain != [] && tld != []
    requires NoSpace(local) && NoSpace(domain) && NoSpace(tld)
    ensures MatchesEmailPattern(local + "@" + domain + "." + tld)
  {
    var s := local + "@" + domain + "." + tld;
    var i, j := |local|, |local| + 1 + |domain|;
    assert s[i] == '@' && s[j] == '.';
    forall k | 0 <= k < |s|
      ensures s[k] != ' '
    {
      if k < i {
        assert s[k] == local[k];
      } else if i < k < j {
        assert s[k] == domain[k - i - 1];
      } else if j < k {
        assert s[k] == tld[k - j - 1];
      }
    }
  }

  /** Every matching address splits into the pattern's three non-empty, space-free parts. */
  lemma EmailSplits(s: string) returns (local: string, domain: string, tld: string)
    requires MatchesEmailPattern(s)
    ensures s == local + "@" + domain + "." + tld
    ensures local != [] && domain != [] && tld != []
    ensures NoSpace(local) && NoSpace(domain) && NoSpace(tld)
  {
    var i, j :| 1 <= i && i + 2 <= j && j + 2 <= |s| && s[i] == '@' && s[j] == '.';
    local, domain, tld := s[..i], s[i + 1..j], s[j + 1..];
    assert s == s[..i] + [s[i]] + s[i + 1..j] + [s[j]] + s[j + 1..];
  }

  /** `validateEmail` (the sign-up dialog and the forgot-password page use the same one). */
  function ValidateEmail(value: string): (m: string)
    ensures value == "" ==> m == EMAIL_REQUIRED
    ensures m == "" <==> value != "" && MatchesEmailPattern(value)
  {
    if value == "" then EMAIL_REQUIRED
    else if !MatchesEmailPattern(value) then EMAIL_FORMAT
    else ""
  }

  /** `validatePassword`: required, then 8 to 64 UTF-16 units. */
  function ValidatePassword(value: string): (m: string)
    ensures value == "" ==> m == PASSWORD_REQUIRED
    ensures m == "" <==> 8 <= Utf16Length(value) <= 64
  {
    if value == "" then PASSWORD_REQUIRED
    else if Utf16Length(value) < 8 || Utf16Length(value) > 64 then PASSWORD_LENGTH
    else ""
  }

  /** The client and the server agree on passwords. */
  lemma PasswordRulesAgree(value: string)
    ensures ValidatePassword(value) == "" <==> IsValidPassword(Some(value))
  {
  }

  /** `validateConfirmPassword`: required, then equal to the password typed. */
  function ValidateConfirmPassword(value: string, password: string): (m: string)
    ensures value == "" ==> m == CONFIRM_REQUIRED
    ensures m == "" <==> value != "" && value == password
  {
    if value == "" then CONFIRM_REQUIRED
    else if value != password then CONFIRM_MISMATCH
    else ""
  }

  const RESET_LENGTH := "New password must be between 8 and 64 characters long."
  const RESET_MISMATCH := "New passwords do not match"
  const RESET_FAILED := "Password reset failed"

  /** How the reset request ended: OK, a non-OK status, or an exception with its message. */
  datatype Outcome = Ok | Failed | Thrown(message: string)

  /** What a reset submit leaves behind: the error shown, and the password sent, if any. */
  datatype ResetResult = ResetResult(error: Option<string>, sent: Option<string>)

  /** `handleResetPassword`: the error is cleared, then the length check, then the match check;
    * only when both pass is the new password sent, and a failed request shows its error. The
    * error shown before the submit plays no part. */
  function HandleResetPassword(newPassword: string, confirm: string, outcome: Outcome): (r: ResetResult)
    ensures r.sent.Some? <==> IsValidPassword(Some(newPassword)) && newPassword == confirm
    ensures r.sent.Some? ==> r.sent.value == newPassword
    ensures !IsValidPassword(Some(newPassword)) ==> r.error == Some(RESET_LENGTH)
    ensures IsValidPassword(Some(newPassword)) && newPassword != confirm ==> r.error == Some(RESET_MISMATCH)
    ensures r.sent.Some? ==> (r.error.None? <==> outcome == Ok)
  {
    if Utf16Length(newPassword) < 8 || Utf16Length(newPassword) > 64 then ResetResult(Some(RESET_LENGTH), None)
    else if newPassword != confirm then ResetResult(Some(RESET_MISMATCH), None)
    else
      match outcome
      case Ok => ResetResult(None, Some(newPassword))
      case Failed => ResetResult(Some(RESET_FAILED), Some(newPassword))
      case Thrown(message) => ResetResult(Some(message), Some(newPassword))
  }

  const FORGOT_SUCCESS := "Check your email for a temporary password. You can change your password after you log in!"
  const FORGOT_FAILED := "Password reset request failed"

  /** The two messages of the forgot-password page. */
  datatype ForgotMessages = ForgotMessages(error: Option<string>, success: Option<string>)

  /** `handleForgotPassword`: both messages are cleared at the start; the success message is set
    * only after an OK answer, and a failure shows its error instead. The messages shown before
    * the submit play no part. */
  function HandleForgotPassword(outcome: Outcome): (m: ForgotMessages)
    ensures m.success.Some? <==> outcome == Ok
    ensures m.success.Some? ==> m.success.value == FORGOT_SUCCESS
    ensures m.error.Some? <==> outcome != Ok
    ensures outcome == Failed ==> m.error == Some(FORGOT_FAILED)
  {
    match outcome
    case Ok => ForgotMessages(None, Some(FORGOT_SUCCESS))
    case Failed => ForgotMessages(Some(FORGOT_FAILED), None)
    case Thrown(message) => ForgotMessages(Some(message), None)
  }

  /** The suffixes the avatar dialog accepts. */
  function AvatarExtensions(): seq<string>
  {
    [".jpg", ".jpeg", ".png", ".gif", ".webp", ".avif"]
  }

  /** `extensions.some(ext => value.endsWith(ext))`. */
  function EndsWithAny(value: string, extensions: seq<string>): (b: bool)
    ensures b <==> exists k :: 0 <= k < |extensions| && EndsWith(value, extensions[k])
  {
    if extensions == [] then false
    else EndsWith(value, extensions[0]) || EndsWithAny(value, extensions[1..])
  }

  /** The avatar the dialog stores: the address itself when it ends with an accepted suffix,
    * otherwise none. */
  function AvatarChoice(value: string): (a: Option<string>)
    ensures a.Some? <==> exists k :: 0 <= k < |AvatarExtensions()| && EndsWith(value, AvatarExtensions()[k])
    ensures a.Some? ==> a.value == value
  {
    if EndsWithAny(value, AvatarExtensions()) then Some(value) else None
  }

  /** The suffix test is case-sensitive: an upper-case ".PNG" is refused, a lower-case ".png"
    * taken. */
  lemma AvatarSuffixCaseSensitive(name: string)
    ensures AvatarChoice(name + ".png") == Some(name + ".png")
    ensures AvatarChoice("avatar.PNG") == None
  {
    var s := name + ".png";
    assert s[|s| - 4..] == ".png";
    assert EndsWith(s, AvatarExtensions()[2]);
    var t := "avatar.PNG";
    forall k | 0 <= k < |AvatarExtensions()|
      ensures !EndsWith(t, AvatarExtensions()[k])
    {
      var e := AvatarExtensions()[k];
      assert t[|t| - 1] == 'G';
      assert |e| >= 1 && e[|e| - 1] != 'G';
    }
  }
}
