/** The account routes of the server (`UserResource`): who may see or change an account, how the
  * paging of an account's puzzle list is clamped, and the field-by-field profile update. The
  * database lookups the update consults are parameters. */
module UserRoutes {
  import opened Grid
  import opened Text
  import opened Accounts

  /** The caller as the security context presents it: the principal's name (the account id the
    * token was issued for), if any, and whether it holds the ADMIN role. */
  datatype Caller = Caller(principal: Option<string>, inAdminRole: bool)

  /** `hasFullAccess`: no principal, no access; otherwise the account's owner or an
    * administrator. */
  function HasFullAccess(id: int, caller: Caller): (ok: bool)
    ensures caller.principal.None? ==> !ok
    ensures ok <==> caller.principal.Some? && (caller.principal.value == IntToString(id) || caller.inAdminRole)
  {
    if caller.principal.None? then false
    else if caller.principal.value == IntToString(id) then true
    else caller.inAdminRole
  }

  /** The owner of one account is refused on any other unless it is an administrator. */
  lemma OnlyOwnAccount(own: int, other: int, caller: Caller)
    requires caller.principal == Some(IntToString(own)) && !caller.inAdminRole
    ensures HasFullAccess(other, caller) <==> other == own
  {
    if HasFullAccess(other, caller) {
      IntToStringInjective(own, other);
    }
  }

  /** The `limit` query parameter: 12 when missing, otherwise clamped into [0, 100]. */
  function ClampLimit(limit: Option<int>): (l: int)
    ensures 0 <= l <= 100
    ensures limit.None? ==> l == 12
    ensures limit.Some? && 0 <= limit.value <= 100 ==> l == limit.value
    ensures limit.Some? && limit.value > 100 ==> l == 100
    ensures limit.Some? && limit.value < 0 ==> l == 0
  {
    if limit.None? then 12
    else if limit.value > 100 then 100
    else if limit.value < 0 then 0
    else limit.value
  }

  /** The `page` query parameter: 0 when missing, otherwise never below 0. */
  function ClampPage(page: Option<int>): (p: int)
    ensures p >= 0
    ensures page.None? ==> p == 0
    ensures page.Some? ==> p == if page.value < 0 then 0 else page.value
  {
    if page.None? then 0 else if page.value < 0 then 0 else page.value
  }

  /** Clamping a clamped value changes nothing. */
  lemma ClampingSettles(limit: Option<int>, page: Option<int>)
    ensures ClampLimit(Some(ClampLimit(limit))) == ClampLimit(limit)
    ensures ClampPage(Some(ClampPage(page))) == ClampPage(page)
  {
  }

  /** The database query `getUsersPuzzles` runs: which page of how many puzzles, and whether
    * only PUBLIC ones are listed. */
  datatype PuzzleQuery = PuzzleQuery(page: int, limit: int, publicOnly: bool)

  datatype ListResponse = ListNotFound(message: string) | Listing(query: PuzzleQuery)

  /** `getUsersPuzzles` up to the query: a missing account first, then the clamped paging; only
    * the owner or an administrator sees puzzles that are not public. */
  function UsersPuzzles(found: bool, id: int, caller: Caller, limit: Option<int>, page: Option<int>): (r: ListResponse)
    ensures !found <==> r == ListNotFound("Couldn't find a user with that ID.")
    ensures r.Listing? ==> 0 <= r.query.page && 0 <= r.query.limit <= 100
    ensures r.Listing? ==> r.query.page == ClampPage(page) && r.query.limit == ClampLimit(limit)
    ensures r.Listing? ==> (r.query.publicOnly <==> !HasFullAccess(id, caller))
  {
    if !found then ListNotFound("Couldn't find a user with that ID.")
    else Listing(PuzzleQuery(ClampPage(page), ClampLimit(limit), !HasFullAccess(id, caller)))
  }

  /** The keys the update knows. */
  function UpdateKeys(): set<string>
  {
    {"username", "password", "email", "theme", "avatar"}
  }

  /** The two database questions the update asks; answers are taken as given. */
  datatype Lookups = Lookups(usernameAvailable: Option<string> -> bool, emailAvailable: Option<string> -> bool)

  /** Whether one body entry is applied: a username must be free and valid, a password valid, an
    * email free, a theme must name a constant; an avatar is always taken (its check looks at the
    * key, which is never empty there); any other key is refused. */
  predicate Accepts(key: string, value: Option<string>, db: Lookups)
  {
    match key
    case "username" => db.usernameAvailable(value) && IsValidUsername(value)
    case "password" => IsValidPassword(value)
    case "email" => db.emailAvailable(value)
    case "theme" => ParseTheme(value).Some?
    case "avatar" => true
    case _ => false
  }

  /** What an accepted entry writes. */
  function Apply(p: Profile, key: string, value: Option<string>, db: Lookups, salt: int): Profile
    requires Accepts(key, value, db)
  {
    match key
    case "username" => p.(username := value)
    case "password" => p.(password := Digest(value.value, salt))
    case "email" => p.(email := value)
    case "theme" => p.(theme := ParseTheme(value).value)
    case _ => p.(avatar := value)
  }

  type Body = seq<(string, Option<string>)>

  /** A request body is a map: no key twice. */
  predicate DistinctKeys(body: Body)
  {
    forall i, j :: 0 <= i < j < |body| ==> body[i].0 != body[j].0
  }

  /** The keys refused, in the order visited. */
  function Refused(body: Body, db: Lookups): seq<string>
  {
    if body == [] then []
    else
      var e := body[|body| - 1];
      Refused(body[..|body| - 1], db) + (if Accepts(e.0, e.1, db) then [] else [e.0])
  }

  /** The keys applied, in the order visited. */
  function Applied(body: Body, db: Lookups): seq<string>
  {
    if body == [] then []
    else
      var e := body[|body| - 1];
      Applied(body[..|body| - 1], db) + (if Accepts(e.0, e.1, db) then [e.0] else [])
  }

  /** The profile after the accepted entries are written in order. */
  function Updated(p: Profile, body: Body, db: Lookups, salt: int): Profile
  {
    if body == [] then p
    else
      var e := body[|body| - 1];
      var q := Updated(p, body[..|body| - 1], db, salt);
      if Accepts(e.0, e.1, db) then Apply(q, e.0, e.1, db, salt) else q
  }

  /** Every key is either applied or refused, so the reported count is the number applied. */
  lemma {:induction false} EveryKeyCounted(body: Body, db: Lookups)
    ensures |Refused(body, db)| + |Applied(body, db)| == |body|
    ensures forall i :: 0 <= i < |body| ==> (body[i].0 in Refused(body, db) || body[i].0 in Applied(body, db))
  {
    if body != [] {
      var init := body[..|body| - 1];
      EveryKeyCounted(init, db);
      forall i | 0 <= i < |body|
        ensures body[i].0 in Refused(body, db) || body[i].0 in Applied(body, db)
      {
        if i < |body| - 1 {
          assert body[i] == init[i];
        }
      }
    }
  }

  /** An unknown key is always refused, and so is a username that is taken or invalid, a
    * password that is invalid and a theme that names no constant; an avatar never is. */
  lemma {:induction false} RefusalRules(body: Body, db: Lookups)
    ensures forall i :: 0 <= i < |body| && body[i].0 !in UpdateKeys() ==> body[i].0 in Refused(body, db)
    ensures forall i :: 0 <= i < |body| && body[i].0 == "theme" && ParseTheme(body[i].1).None? ==> "theme" in Refused(body, db)
    ensures forall i :: 0 <= i < |body| && body[i].0 == "password" && !IsValidPassword(body[i].1) ==> "password" in Refused(body, db)
    ensures forall i :: 0 <= i < |body| && body[i].0 == "username" && !(db.usernameAvailable(body[i].1) && IsValidUsername(body[i].1)) ==>
      "username" in Refused(body, db)
    ensures "avatar" !in Refused(body, db)
  {
    if body != [] {
      var init := body[..|body| - 1];
      RefusalRules(init, db);
      forall i | 0 <= i < |body| - 1
        ensures body[i] == init[i]
      {
      }
    }
  }

  /** In a body without repeated keys, a key is listed as invalid exactly when its entry is not
    * accepted; in particular an email is refused only when it is taken. */
  lemma {:induction false} RefusedExactly(body: Body, db: Lookups)
    requires DistinctKeys(body)
    ensures forall i :: 0 <= i < |body| ==> (body[i].0 in Refused(body, db) <==> !Accepts(body[i].0, body[i].1, db))
  {
    if body != [] {
      var init := body[..|body| - 1];
      var e := body[|body| - 1];
      RefusedExactly(init, db);
      forall i | 0 <= i < |body|
        ensures body[i].0 in Refused(body, db) <==> !Accepts(body[i].0, body[i].1, db)
      {
        if i < |body| - 1 {
          assert body[i] == init[i];
          assert e.0 != body[i].0;
          assert forall k :: 0 <= k < |init| ==> init[k].0 != e.0;
          NotListed(init, db, e.0);
        } else {
          assert forall k :: 0 <= k < |init| ==> init[k].0 != e.0;
          NotListed(init, db, e.0);
        }
      }
    }
  }

  /** A key absent from the body is not listed as invalid. */
  lemma {:induction false} NotListed(body: Body, db: Lookups, key: string)
    requires forall k :: 0 <= k < |body| ==> body[k].0 != key
    ensures key !in Refused(body, db)
  {
    if body != [] {
      NotListed(body[..|body| - 1], db, key);
    }
  }

  /** A body in which nothing is accepted leaves the profile as it was. */
  lemma {:induction false} NothingAcceptedNothingChanged(p: Profile, body: Body, db: Lookups, salt: int)
    requires forall i :: 0 <= i < |body| ==> !Accepts(body[i].0, body[i].1, db)
    ensures Updated(p, body, db, salt) == p
    ensures Applied(body, db) == []
  {
    if body != [] {
      var init := body[..|body| - 1];
      assert forall i :: 0 <= i < |init| ==> init[i] == body[i];
      NothingAcceptedNothingChanged(p, init, db, salt);
    }
  }

  datatype UpdateResponse =
    | UpdateNotFound(message: string)
    | Forbidden(message: string)
    | Done(message: string, invalidFields: seq<string>)

  /** The message of a completed update. */
  function CountMessage(n: int): string
  {
    IntToString(n) + " fields were updated."
  }

  /** `updateUser`: a missing account first, then the access rule, and neither changes the
    * account; otherwise each entry is applied or its key listed as invalid, and the message
    * counts the keys minus the invalid ones. Each `setPassword` draws a fresh salt; as no key
    * repeats, one salt parameter stands for it. */
  method UpdateUser(target: User?, id: int, body: Body, caller: Caller, db: Lookups, salt: int)
    returns (r: UpdateResponse)
    requires DistinctKeys(body)
    requires target != null ==> target.id == Some(id)
    modifies target
    ensures target == null ==> r == UpdateNotFound("Couldn't find a user with that ID.")
    ensures target != null && !HasFullAccess(id, caller) ==>
      r == Forbidden("You do not have access to update this user.") && target.Snapshot() == old(target.Snapshot())
    ensures target != null && HasFullAccess(id, caller) ==>
      r == Done(CountMessage(|body| - |Refused(body, db)|), Refused(body, db)) &&
      target.Snapshot() == Updated(old(target.Snapshot()), body, db, salt)
    ensures target != null ==> target.tempPassword == old(target.tempPassword) && target.Rest() == old(target.Rest())
  {
    if target == null {
      return UpdateNotFound("Couldn't find a user with that ID.");
    }
    if !HasFullAccess(id, caller) {
      return Forbidden("You do not have access to update this user.");
    }
    var invalid: seq<string> := [];
    var i := 0;
    while i < |body|
      invariant 0 <= i <= |body|
      invariant invalid == Refused(body[..i], db)
      invariant target.Snapshot() == Updated(old(target.Snapshot()), body[..i], db, salt)
      invariant target.tempPassword == old(target.tempPassword) && target.Rest() == old(target.Rest())
    {
      var (key, value) := body[i];
      assert body[..i + 1][..i] == body[..i];
      match key {
      case "username" =>
        if !db.usernameAvailable(value) || !IsValidUsername(value) {
          invalid := invalid + [key];
        } else {
          target.SetUsername(value);
        }
      case "password" =>
        if !IsValidPassword(value) {
          invalid := invalid + [key];
        } else {
          target.SetPassword(value.value, salt);
        }
      case "email" =>
        if !db.emailAvailable(value) {
          invalid := invalid + [key];
        } else {
          target.SetEmail(value);
        }
      case "theme" =>
        var theme := ParseTheme(value);
        if theme.None? {
          invalid := invalid + [key];
        } else {
          target.SetTheme(theme.value);
        }
      case "avatar" =>
        target.SetAvatar(value);
      case _ =>
        invalid := invalid + [key];
      }
      i := i + 1;
    }
    assert body[..i] == body;
    return Done(CountMessage(|body| - |invalid|), invalid);
  }
}
