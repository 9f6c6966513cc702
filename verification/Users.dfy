/**
 The tables of user-service: profiles, and the four kinds of one-time token rows.

 Every request runs in one transaction that is committed when it succeeds and rolled back when it
 fails. Token rows are identified by purpose and token hash, which is unique in each table.
 */
module Users {
  import opened Prelude

  datatype User = User(tenant: string, email: string, username: string, verified: bool)

  datatype Purpose = Verification | PasswordReset | Deletion | EmailChange

  datatype TokenKey = TokenKey(purpose: Purpose, hash: string)

  datatype TokenRow = TokenRow(user: string, pendingEmail: string, used: bool, expiresAt: int)

  datatype Database = Database(users: map<string, User>, tokens: map<TokenKey, TokenRow>)

  /** The string operations the service relies on; `validEmail` and `validUsername` are the schema's checks. */
  datatype Text = Text(lower: string -> string, strip: string -> string,
                       validEmail: string -> bool, validUsername: string -> bool)

  function Normal(x: Text, email: string): string { x.strip(x.lower(email)) }

  /** Stripping and normalising are idempotent, and the empty string is no e-mail address or user name. */
  ghost predicate Lawful(x: Text) {
    && (forall s :: x.strip(x.strip(s)) == x.strip(s))
    && (forall s :: Normal(x, Normal(x, s)) == Normal(x, s))
    && !x.validEmail("") && !x.validUsername("")
  }

  const HOUR: int := 3600 * SECOND

  function Lifetime(p: Purpose): int { if p.PasswordReset? then HOUR else 24 * HOUR }

  // ----- lookups -----

  function ByEmail(x: Text, users: map<string, User>, email: string, tenant: Option<string>): set<string> {
    set i | i in users && users[i].email == Normal(x, email) && (tenant.Some? ==> users[i].tenant == tenant.value)
  }

  function ByUsername(x: Text, users: map<string, User>, name: string): set<string> {
    set i | i in users && users[i].username == x.strip(name)
  }

  // ----- requests -----

  /** The fields a PATCH may carry; None leaves a field alone. The verified flag needs no token here. */
  datatype Change = Change(email: Option<string>, username: Option<string>, verified: Option<bool>)

  datatype Request =
    | Create(id: string, tenant: string, email: string, username: string)
    | Update(id: string, change: Change)
    | Delete(id: string)
    | Store(purpose: Purpose, user: string, hash: string, pendingEmail: string, now: int)
    | Confirm(purpose: Purpose, user: string, hash: string)

  /** The status of a lookup that must find nothing: several matches raise, one is a conflict. */
  function Vacant(found: set<string>): int { if |found| > 1 then 500 else if found != {} then 409 else 200 }

  function CreateStatus(x: Text, db: Database, tenant: string, email: string, username: string): int {
    if !x.validEmail(email) || !x.validUsername(x.strip(username)) then 422
    else if Vacant(ByEmail(x, db.users, email, Some(tenant))) != 200
        then Vacant(ByEmail(x, db.users, email, Some(tenant)))
    else if Vacant(ByUsername(x, db.users, username)) != 200 then Vacant(ByUsername(x, db.users, username))
    else 201
  }

  predicate UpdateValid(x: Text, ch: Change) {
    && (ch.email.Some? || ch.username.Some? || ch.verified.Some?)
    && (ch.email.Some? ==> x.validEmail(ch.email.value))
    && (ch.username.Some? ==> x.validUsername(x.strip(ch.username.value)))
  }

  function UpdateStatus(x: Text, db: Database, id: string, ch: Change): int {
    if !UpdateValid(x, ch) then 422
    else if id !in db.users then 404
    else
      var existing := db.users[id];
      var email := if ch.email.Some? && x.lower(ch.email.value) != existing.email
                   then Vacant(ByEmail(x, db.users, ch.email.value, Some(existing.tenant))) else 200;
      var name := if ch.username.Some? && x.strip(ch.username.value) != existing.username
                  then Vacant(ByUsername(x, db.users, ch.username.value)) else 200;
      if email != 200 then email else name
  }

  function UpdatedUser(x: Text, u: User, ch: Change): User {
    User(u.tenant,
         if ch.email.Some? then Normal(x, ch.email.value) else u.email,
         if ch.username.Some? then x.strip(ch.username.value) else u.username,
         if ch.verified.Some? then ch.verified.value else u.verified)
  }

  /** A confirmation looks at nothing but the existence of the row and the user, and the pending address. */
  function ConfirmStatus(x: Text, db: Database, key: TokenKey, user: string): int {
    if key !in db.tokens then 400
    else if user !in db.users then 404
    else if key.purpose.EmailChange? then
      var pending := db.tokens[key].pendingEmail;
      var free := Vacant(ByEmail(x, db.users, pending, Some(db.users[user].tenant)));
      if free != 200 then free else if !x.validEmail(pending) then 500 else 200
    else 200
  }

  function ConfirmedUsers(
      x: Text, users: map<string, User>, key: TokenKey, row: TokenRow, user: string): map<string, User>
    requires user in users
  {
    match key.purpose
    case Verification => users[user := users[user].(verified := true)]
    case PasswordReset => users
    case Deletion => users - {user}
    case EmailChange => users[user := users[user].(email := Normal(x, row.pendingEmail), verified := true)]
  }

  function Status(x: Text, db: Database, r: Request): int {
    match r
    case Create(id, tenant, email, username) => CreateStatus(x, db, tenant, email, username)
    case Update(id, change) => UpdateStatus(x, db, id, change)
    case Delete(id) => if id in db.users then 200 else 404
    case Store(purpose, user, hash, pending, now) => if TokenKey(purpose, hash) in db.tokens then 500 else 200
    case Confirm(purpose, user, hash) => ConfirmStatus(x, db, TokenKey(purpose, hash), user)
  }

  predicate Commits(x: Text, db: Database, r: Request) { Status(x, db, r) < 300 }

  /** The database once the request's transaction has ended. */
  function Handled(x: Text, db: Database, r: Request): Database {
    if !Commits(x, db, r) then db
    else match r
      case Create(id, tenant, email, username) =>
        db.(users := db.users[id := User(tenant, Normal(x, email), x.strip(x.strip(username)), false)])
      case Update(id, change) => db.(users := db.users[id := UpdatedUser(x, db.users[id], change)])
      case Delete(id) => db.(users := db.users - {id})
      case Store(purpose, user, hash, pending, now) =>
        db.(tokens := db.tokens[TokenKey(purpose, hash) := TokenRow(user, pending, false, now + Lifetime(purpose))])
      case Confirm(purpose, user, hash) =>
        var key := TokenKey(purpose, hash);
        Database(ConfirmedUsers(x, db.users, key, db.tokens[key], user),
                 db.tokens[key := db.tokens[key].(used := true)])
  }

  /** The answer of the four `check_*` methods. */
  predicate Checks(db: Database, key: TokenKey, user: string, now: int) {
    key in db.tokens && db.tokens[key].user == user && !db.tokens[key].used && now <= db.tokens[key].expiresAt
  }

  // ----- identities stay unique -----

  /** E-mails are in normal form and unique per tenant; user names are stripped and unique everywhere. */
  ghost predicate Identities(x: Text, users: map<string, User>) {
    && (forall i :: i in users ==>
        Normal(x, users[i].email) == users[i].email && x.strip(users[i].username) == users[i].username)
    && (forall i, j :: i in users && j in users && i != j ==>
          (users[i].tenant == users[j].tenant ==> users[i].email != users[j].email)
          && users[i].username != users[j].username)
  }

  lemma VacantMeansNobody(found: set<string>)
    ensures Vacant(found) == 200 <==> found == {}
    ensures Vacant(found) in {200, 409, 500}
  {
    if found != {} && |found| <= 1 { assert found != {}; }
  }

  lemma FreeAddress(x: Text, users: map<string, User>, email: string, tenant: string, i: string)
    requires Vacant(ByEmail(x, users, email, Some(tenant))) == 200 && i in users && users[i].tenant == tenant
    ensures users[i].email != Normal(x, email)
  {
    VacantMeansNobody(ByEmail(x, users, email, Some(tenant)));
    assert i !in ByEmail(x, users, email, Some(tenant));
  }

  lemma FreeName(x: Text, users: map<string, User>, name: string, i: string)
    requires Vacant(ByUsername(x, users, name)) == 200 && i in users
    ensures users[i].username != x.strip(name)
  {
    VacantMeansNobody(ByUsername(x, users, name));
    assert i !in ByUsername(x, users, name);
  }

  /** Putting a profile nobody clashes with in place of `id` keeps identities unique. */
  lemma ReplaceKeepsIdentities(x: Text, users: map<string, User>, id: string, u: User)
    requires Identities(x, users) && Normal(x, u.email) == u.email && x.strip(u.username) == u.username
    requires forall i :: i in users && i != id ==>
               (users[i].tenant == u.tenant ==> users[i].email != u.email) && users[i].username != u.username
    ensures Identities(x, users[id := u])
  {
  }

  lemma CreateKeepsIdentities(x: Text, db: Database, r: Request)
    requires Lawful(x) && Identities(x, db.users) && r.Create? && Commits(x, db, r)
    ensures Identities(x, Handled(x, db, r).users)
  {
    VacantMeansNobody(ByEmail(x, db.users, r.email, Some(r.tenant)));
    VacantMeansNobody(ByUsername(x, db.users, r.username));
    var u := User(r.tenant, Normal(x, r.email), x.strip(x.strip(r.username)), false);
    forall i | i in db.users
      ensures (db.users[i].tenant == u.tenant ==> db.users[i].email != u.email) && db.users[i].username != u.username
    {
      if db.users[i].tenant == u.tenant { FreeAddress(x, db.users, r.email, r.tenant, i); }
      FreeName(x, db.users, r.username, i);
    }
    ReplaceKeepsIdentities(x, db.users, r.id, u);
  }

  lemma UpdateKeepsIdentities(x: Text, db: Database, r: Request)
    requires Lawful(x) && Identities(x, db.users) && r.Update? && Commits(x, db, r)
    ensures Identities(x, Handled(x, db, r).users)
  {
    var old', new' := db.users[r.id], UpdatedUser(x, db.users[r.id], r.change);
    assert x.strip(old'.email) == x.strip(x.strip(x.lower(old'.email))) == old'.email;
    forall i | i in db.users && i != r.id
      ensures db.users[i].tenant == new'.tenant ==> db.users[i].email != new'.email
      ensures db.users[i].username != new'.username
    {
      if r.change.email.Some? && x.lower(r.change.email.value) != old'.email && db.users[i].tenant == old'.tenant {
        VacantMeansNobody(ByEmail(x, db.users, r.change.email.value, Some(old'.tenant)));
        FreeAddress(x, db.users, r.change.email.value, old'.tenant, i);
      }
      if r.change.username.Some? && x.strip(r.change.username.value) != old'.username {
        VacantMeansNobody(ByUsername(x, db.users, r.change.username.value));
        FreeName(x, db.users, r.change.username.value, i);
      }
    }
    ReplaceKeepsIdentities(x, db.users, r.id, new');
  }

  lemma ConfirmKeepsIdentities(x: Text, db: Database, r: Request)
    requires Lawful(x) && Identities(x, db.users) && r.Confirm? && Commits(x, db, r)
    ensures Identities(x, Handled(x, db, r).users)
  {
    var key := TokenKey(r.purpose, r.hash);
    var u, pending := db.users[r.user], db.tokens[key].pendingEmail;
    if r.purpose.EmailChange? {
      VacantMeansNobody(ByEmail(x, db.users, pending, Some(u.tenant)));
      forall i | i in db.users && i != r.user
        ensures db.users[i].tenant == u.tenant ==> db.users[i].email != Normal(x, pending)
      {
        if db.users[i].tenant == u.tenant { FreeAddress(x, db.users, pending, u.tenant, i); }
      }
      ReplaceKeepsIdentities(x, db.users, r.user, u.(email := Normal(x, pending), verified := true));
    }
  }

  function Run(x: Text, requests: seq<Request>, n: nat): Database
    requires n <= |requests|
  {
    if n == 0 then Database(map[], map[]) else Handled(x, Run(x, requests, n - 1), requests[n - 1])
  }

  /** Without any help from database constraints: after every serialised run e-mails are in normal form and
      unique per tenant, and user names unique across all tenants. */
  lemma {:induction false} IdentitiesAlways(x: Text, requests: seq<Request>, n: nat)
    requires Lawful(x) && n <= |requests|
    ensures Identities(x, Run(x, requests, n).users)
  {
    if n > 0 {
      IdentitiesAlways(x, requests, n - 1);
      var db, r := Run(x, requests, n - 1), requests[n - 1];
      if Commits(x, db, r) {
        match r
        case Create(_, _, _, _) => CreateKeepsIdentities(x, db, r);
        case Update(_, _) => UpdateKeepsIdentities(x, db, r);
        case Confirm(_, _, _) => ConfirmKeepsIdentities(x, db, r);
        case _ =>
      }
    }
  }

  lemma AtMostOne(s: set<string>)
    requires forall i, j :: i in s && j in s ==> i == j
    ensures |s| <= 1
  {
    if s != {} {
      var i :| i in s;
      assert s == {i};
    }
  }

  /** So every lookup by address within a tenant, or by name, yields at most one row. */
  lemma LookupsYieldOneRow(x: Text, requests: seq<Request>, n: nat, email: string, tenant: string, name: string)
    requires Lawful(x) && n <= |requests|
    ensures var users := Run(x, requests, n).users;
            |ByEmail(x, users, email, Some(tenant))| <= 1 && |ByUsername(x, users, name)| <= 1
  {
    IdentitiesAlways(x, requests, n);
    var users := Run(x, requests, n).users;
    AtMostOne(ByEmail(x, users, email, Some(tenant)));
    AtMostOne(ByUsername(x, users, name));
  }

  // ----- who is verified -----

  /** The request verifies the user: by a token, or by a PATCH that says so. */
  predicate GrantsVerified(x: Text, db: Database, r: Request, user: string) {
    && Commits(x, db, r)
    && match r
       case Confirm(purpose, u, _) => u == user && (purpose.Verification? || purpose.EmailChange?)
       case Update(id, change) => id == user && change.verified == Some(true)
       case _ => false
  }

  predicate IsVerified(db: Database, user: string) { user in db.users && db.users[user].verified }

  /** A profile that is not verified becomes so exactly by such a request. */
  lemma BecomesVerifiedIff(x: Text, db: Database, r: Request, user: string)
    requires !IsVerified(db, user)
    ensures IsVerified(Handled(x, db, r), user) <==> GrantsVerified(x, db, r, user)
  {
  }

  /** A verified profile was verified by an earlier request of the run, and no other kind of request verifies. */
  lemma {:induction false} VerifiedWasGranted(x: Text, requests: seq<Request>, n: nat, user: string) returns (k: nat)
    requires n <= |requests| && IsVerified(Run(x, requests, n), user)
    ensures k < n && GrantsVerified(x, Run(x, requests, k), requests[k], user)
  {
    var db, r := Run(x, requests, n - 1), requests[n - 1];
    if IsVerified(db, user) {
      k := VerifiedWasGranted(x, requests, n - 1, user);
    } else {
      BecomesVerifiedIff(x, db, r, user);
      k := n - 1;
    }
  }

  ghost predicate VerifiedAt(x: Text, requests: seq<Request>, n: nat, user: string)
    requires n < |requests|
  {
    !IsVerified(Run(x, requests, n), user) && IsVerified(Run(x, requests, n + 1), user)
  }

  /** Every profile that is verified during the run is verified by confirming a token. */
  ghost predicate TokensAloneVerify(x: Text, requests: seq<Request>) {
    forall n, user :: 0 <= n < |requests| && VerifiedAt(x, requests, n, user) ==> requests[n].Confirm?
  }

  /** Request `n` is no committed PATCH that asks for the flag, or the profile has it already. */
  ghost predicate IdlePatchAt(x: Text, requests: seq<Request>, n: nat)
    requires n < |requests|
  {
    var db, r := Run(x, requests, n), requests[n];
    r.Update? && r.change.verified == Some(true) && Commits(x, db, r) ==> IsVerified(db, r.id)
  }

  /** Only tokens verify on a run if and only if no PATCH ever sets the flag of a profile that lacks it. */
  lemma TokensAloneVerifyIff(x: Text, requests: seq<Request>)
    ensures TokensAloneVerify(x, requests) <==> forall n :: 0 <= n < |requests| ==> IdlePatchAt(x, requests, n)
  {
    forall n, user | 0 <= n < |requests| && VerifiedAt(x, requests, n, user)
      ensures requests[n].Confirm? || !IdlePatchAt(x, requests, n)
    {
      BecomesVerifiedIff(x, Run(x, requests, n), requests[n], user);
    }
    forall n | 0 <= n < |requests| && !IdlePatchAt(x, requests, n)
      ensures VerifiedAt(x, requests, n, requests[n].id) && !requests[n].Confirm?
    {
      BecomesVerifiedIff(x, Run(x, requests, n), requests[n], requests[n].id);
    }
  }

  /** And PATCH does set it: a profile just created ends verified with no token in the database. */
  lemma PatchVerifiesWithoutToken(x: Text, id: string, tenant: string, email: string, name: string)
    requires x.validEmail(email) && x.validUsername(x.strip(name))
    ensures var requests := [Create(id, tenant, email, name), Update(id, Change(None, None, Some(true)))];
            IsVerified(Run(x, requests, 2), id) && Run(x, requests, 2).tokens == map[]
  {
    var requests := [Create(id, tenant, email, name), Update(id, Change(None, None, Some(true)))];
    assert Run(x, requests, 0) == Database(map[], map[]);
    assert ByEmail(x, map[], email, Some(tenant)) == {} && ByUsername(x, map[], name) == {};
    assert Run(x, requests, 1).users.Keys == {id};
  }

  // ----- conflicts are answered as conflicts -----

  /** With identities unique a taken address or name is a conflict; the error of an ambiguous lookup never occurs. */
  lemma ConflictsAreReported(x: Text, db: Database, r: Request)
    requires Identities(x, db.users) && (r.Create? || r.Update?)
    ensures Status(x, db, r) in (if r.Create? then {201, 409, 422} else {200, 404, 409, 422})
  {
    if r.Create? {
      AtMostOne(ByEmail(x, db.users, r.email, Some(r.tenant)));
      AtMostOne(ByUsername(x, db.users, r.username));
    } else if r.id in db.users {
      if r.change.email.Some? { AtMostOne(ByEmail(x, db.users, r.change.email.value, Some(db.users[r.id].tenant))); }
      if r.change.username.Some? { AtMostOne(ByUsername(x, db.users, r.change.username.value)); }
    }
  }

  // ----- a token is used exactly when it was applied -----

  /** From `before` to `after`, and in that step alone, the effect of the token took place for `user`. */
  ghost predicate Applied(x: Text, before: Database, after: Database, key: TokenKey, user: string) {
    && user in before.users && key in before.tokens
    && match key.purpose
       case Verification => after.users == before.users[user := before.users[user].(verified := true)]
       case PasswordReset => after.users == before.users
       case Deletion => after.users == before.users - {user}
       case EmailChange =>
         var address := Normal(x, before.tokens[key].pendingEmail);
         && (forall i :: i in before.users && before.users[i].tenant == before.users[user].tenant ==>
             before.users[i].email != address)
         && after.users == before.users[user := before.users[user].(email := address, verified := true)]
  }

  /** Request `i` of the run confirmed the token, and its effect was committed with it. */
  ghost predicate AppliedAt(x: Text, requests: seq<Request>, i: nat, key: TokenKey)
    requires i < |requests|
  {
    && requests[i].Confirm? && TokenKey(requests[i].purpose, requests[i].hash) == key
    && Applied(x, Run(x, requests, i), Run(x, requests, i + 1), key, requests[i].user)
  }

  predicate Used(db: Database, key: TokenKey) { key in db.tokens && db.tokens[key].used }

  /** A confirmation applies its effect if and only if its transaction commits. */
  lemma AppliedIffCommitted(x: Text, db: Database, r: Request, key: TokenKey)
    requires r.Confirm? && TokenKey(r.purpose, r.hash) == key
    ensures Applied(x, db, Handled(x, db, r), key, r.user) <==> Commits(x, db, r)
  {
    if r.purpose.EmailChange? && key in db.tokens && r.user in db.users {
      var pending, tenant := db.tokens[key].pendingEmail, db.users[r.user].tenant;
      VacantMeansNobody(ByEmail(x, db.users, pending, Some(tenant)));
      if Commits(x, db, r) {
        forall i | i in db.users && db.users[i].tenant == tenant ensures db.users[i].email != Normal(x, pending) {
          FreeAddress(x, db.users, pending, tenant, i);
        }
      }
    }
  }

  /** Only a committed confirmation of the token changes whether it is used. */
  lemma UsedStep(x: Text, db: Database, r: Request, key: TokenKey)
    ensures Used(Handled(x, db, r), key) <==>
            Used(db, key) || (r.Confirm? && TokenKey(r.purpose, r.hash) == key && Commits(x, db, r))
  {
  }

  /** Used exactly when applied: in every committed state a token row is marked used if and only if some
      request confirmed it and its effect was committed in that same request. */
  lemma {:induction false} UsedIffApplied(x: Text, requests: seq<Request>, n: nat, key: TokenKey)
    requires n <= |requests|
    ensures Used(Run(x, requests, n), key) <==> exists i :: 0 <= i < n && AppliedAt(x, requests, i, key)
  {
    if n > 0 {
      UsedIffApplied(x, requests, n - 1, key);
      var db, r := Run(x, requests, n - 1), requests[n - 1];
      UsedStep(x, db, r, key);
      if r.Confirm? && TokenKey(r.purpose, r.hash) == key {
        AppliedIffCommitted(x, db, r, key);
        assert Commits(x, db, r) <==> AppliedAt(x, requests, n - 1, key);
      }
    }
  }

  /** Confirmation does not look at `used`: right after a committed one, a second commits exactly for
      verification and password-reset tokens; the other two are stopped by their own effect. */
  lemma SecondConfirmCommitsIff(x: Text, db: Database, r: Request)
    requires Lawful(x) && r.Confirm? && Commits(x, db, r)
    ensures Commits(x, Handled(x, db, r), r) <==> r.purpose.Verification? || r.purpose.PasswordReset?
  {
    var key := TokenKey(r.purpose, r.hash);
    if r.purpose.EmailChange? {
      var after, pending := Handled(x, db, r), db.tokens[key].pendingEmail;
      VacantMeansNobody(ByEmail(x, db.users, pending, Some(db.users[r.user].tenant)));
      assert r.user in ByEmail(x, after.users, pending, Some(after.users[r.user].tenant));
      VacantMeansNobody(ByEmail(x, after.users, pending, Some(after.users[r.user].tenant)));
    }
  }

  // ----- the service -----

  /** user-service: each method works on the tables directly and may fail half-way; `Handle` is the
      transaction around it. */
  class UserService {
    const x: Text
    var users: map<string, User>
    var tokens: map<TokenKey, TokenRow>

    function View(): Database reads this { Database(users, tokens) }

    constructor (x: Text)
      ensures this.x == x && View() == Database(map[], map[])
    {
      this.x := x;
      users, tokens := map[], map[];
    }

    method GetByEmail(email: string, tenant: Option<string>) returns (status: int)
      ensures status == Vacant(ByEmail(x, users, email, tenant))
      ensures status == 200 <==>
              forall i :: i in users && (tenant.None? || users[i].tenant == tenant.value) ==>
                users[i].email != x.strip(x.lower(email))
      ensures status == 500 <==> |set i | i in users && users[i].email == x.strip(x.lower(email))
                                            && (tenant.None? || users[i].tenant == tenant.value)| > 1
      ensures status in {200, 409, 500}
    {
      var found := set i | i in users && users[i].email == Normal(x, email)
                             && (tenant.None? || users[i].tenant == tenant.value);
      assert found == ByEmail(x, users, email, tenant);
      status := if |found| > 1 then 500 else if found != {} then 409 else 200;
      VacantMeansNobody(found);
      forall i | i in users && (tenant.None? || users[i].tenant == tenant.value) && found == {}
        ensures users[i].email != x.strip(x.lower(email))
      {
        assert i !in found;
      }
    }

    method GetByUsername(name: string) returns (status: int)
      ensures status == Vacant(ByUsername(x, users, name))
      ensures status == 200 <==> forall i :: i in users ==> users[i].username != x.strip(name)
      ensures status == 500 <==> |set i | i in users && users[i].username == x.strip(name)| > 1
      ensures status in {200, 409, 500}
    {
      var found := set i | i in users && users[i].username == x.strip(name);
      assert found == ByUsername(x, users, name);
      status := if |found| > 1 then 500 else if found != {} then 409 else 200;
      VacantMeansNobody(found);
      forall i | i in users && found == {} ensures users[i].username != x.strip(name) { assert i !in found; }
    }

    method CreateUser(id: string, tenant: string, email: string, username: string) returns (status: int)
      modifies this
      ensures status == Status(x, old(View()), Create(id, tenant, email, username))
      ensures status < 300 ==> View() == Handled(x, old(View()), Create(id, tenant, email, username))
      ensures status in {201, 409, 422, 500}
      ensures status == 422 <==> !x.validEmail(email) || !x.validUsername(x.strip(username))
      ensures status in {201, 422} || exists i ::
                i in old(users) && ((old(users)[i].tenant == tenant && old(users)[i].email == x.strip(x.lower(email)))
                                    || old(users)[i].username == x.strip(username))
      ensures status == 201 ==>
                && (forall i :: i in old(users) && old(users)[i].tenant == tenant ==>
                      old(users)[i].email != x.strip(x.lower(email)))
                && (forall i :: i in old(users) ==> old(users)[i].username != x.strip(username))
                && users == old(users)[id := User(tenant, x.strip(x.lower(email)), x.strip(x.strip(username)), false)]
                && tokens == old(tokens)
    {
      var name := x.strip(username);
      if !x.validEmail(email) || !x.validUsername(name) { return 422; }
      var taken := GetByEmail(email, Some(tenant));
      if taken != 200 { return taken; }
      taken := GetByUsername(username);
      if taken != 200 { return taken; }
      users := users[id := User(tenant, x.strip(x.lower(email)), x.strip(name), false)];
      status := 201;
    }

    method UpdateUser(id: string, change: Change) returns (status: int)
      modifies this
      ensures status == Status(x, old(View()), Update(id, change))
      ensures status < 300 ==> View() == Handled(x, old(View()), Update(id, change))
      ensures status in {200, 404, 409, 422, 500} && (status == 404 ==> id !in old(users))
      ensures status == 422 <==>
              || change == Change(None, None, None)
              || (change.email.Some? && !x.validEmail(change.email.value))
              || (change.username.Some? && !x.validUsername(x.strip(change.username.value)))
      ensures status == 200 ==>
                && id in old(users)
                && var was := old(users)[id];
                && users == old(users)[id := User(
                     was.tenant,
                     if change.email.Some? then x.strip(x.lower(change.email.value)) else was.email,
                     if change.username.Some? then x.strip(change.username.value) else was.username,
                     if change.verified.Some? then change.verified.value else was.verified)]
                && tokens == old(tokens)
      ensures status in {409, 500} ==>
                && id in old(users)
                && exists i ::
                     && i in old(users)
                     && ((change.email.Some? && x.lower(change.email.value) != old(users)[id].email
                          && old(users)[i].tenant == old(users)[id].tenant
                          && old(users)[i].email == x.strip(x.lower(change.email.value)))
                         || (change.username.Some? && x.strip(change.username.value) != old(users)[id].username
                             && old(users)[i].username == x.strip(change.username.value)))
    {
      if !UpdateValid(x, change) { return 422; }
      if id !in users { return 404; }
      var existing := users[id];
      if change.email.Some? && x.lower(change.email.value) != existing.email {
        var taken := GetByEmail(change.email.value, Some(existing.tenant));
        if taken != 200 { return taken; }
      }
      if change.username.Some? && x.strip(change.username.value) != existing.username {
        var taken := GetByUsername(change.username.value);
        if taken != 200 { return taken; }
      }
      var fields := existing;
      if change.email.Some? { fields := fields.(email := x.strip(x.lower(change.email.value))); }
      if change.username.Some? { fields := fields.(username := x.strip(change.username.value)); }
      if change.verified.Some? { fields := fields.(verified := change.verified.value); }
      users := users[id := fields];
      status := 200;
    }

    method DeleteUser(id: string) returns (status: int)
      modifies this
      ensures status == Status(x, old(View()), Delete(id))
      ensures status < 300 ==> View() == Handled(x, old(View()), Delete(id))
      ensures status == if id in old(users) then 200 else 404
      ensures status == 200 ==> users == old(users) - {id} && tokens == old(tokens)
    {
      if id !in users { return 404; }
      users := users - {id};
      status := 200;
    }

    method StoreToken(purpose: Purpose, user: string, hash: string, pendingEmail: string, now: int)
      returns (status: int)
      modifies this
      ensures status == Status(x, old(View()), Store(purpose, user, hash, pendingEmail, now))
      ensures status < 300 ==> View() == Handled(x, old(View()), Store(purpose, user, hash, pendingEmail, now))
      ensures status == if TokenKey(purpose, hash) in old(tokens) then 500 else 200
      ensures status == 200 ==>
                var hours := if purpose == PasswordReset then 1 else 24;
                && users == old(users)
                && tokens == old(tokens)[TokenKey(purpose, hash) :=
                                           TokenRow(user, pendingEmail, false, now + hours * 60 * 60 * SECOND)]
    {
      if TokenKey(purpose, hash) in tokens { return 500; }
      tokens := tokens[TokenKey(purpose, hash) := TokenRow(user, pendingEmail, false, now + Lifetime(purpose))];
      status := 200;
    }

    method CheckToken(purpose: Purpose, user: string, hash: string, now: int) returns (valid: bool)
      ensures valid == Checks(View(), TokenKey(purpose, hash), user, now)
      ensures valid <==>
              && TokenKey(purpose, hash) in tokens
              && var row := tokens[TokenKey(purpose, hash)]; row.user == user && !row.used && now <= row.expiresAt
    {
      var key := TokenKey(purpose, hash);
      if key !in tokens { return false; }
      if tokens[key].user != user { return false; }
      if tokens[key].used { return false; }
      if tokens[key].expiresAt < now { return false; }
      valid := true;
    }

    method MarkAsUsed(key: TokenKey)
      requires key in tokens
      modifies this
      ensures users == old(users) && tokens == old(tokens)[key := old(tokens)[key].(used := true)]
    {
      tokens := tokens[key := tokens[key].(used := true)];
    }

    method ConfirmEmailVerification(user: string, hash: string) returns (status: int)
      modifies this
      ensures status == Status(x, old(View()), Confirm(Verification, user, hash))
      ensures status < 300 ==> View() == Handled(x, old(View()), Confirm(Verification, user, hash))
      ensures status == if TokenKey(Verification, hash) !in old(tokens) then 400
                        else if user !in old(users) then 404 else 200
      ensures status == 200 ==>
                var key := TokenKey(Verification, hash);
                && users == old(users)[user := old(users)[user].(verified := true)]
                && tokens == old(tokens)[key := old(tokens)[key].(used := true)]
    {
      var key := TokenKey(Verification, hash);
      if key !in tokens { return 400; }
      MarkAsUsed(key);
      if user !in users { return 404; }
      users := users[user := users[user].(verified := true)];
      status := 200;
    }

    method ConfirmPasswordReset(user: string, hash: string) returns (status: int)
      modifies this
      ensures status == Status(x, old(View()), Confirm(PasswordReset, user, hash))
      ensures status < 300 ==> View() == Handled(x, old(View()), Confirm(PasswordReset, user, hash))
      ensures status == if TokenKey(PasswordReset, hash) !in old(tokens) then 400
                        else if user !in old(users) then 404 else 200
      ensures status == 200 ==>
                var key := TokenKey(PasswordReset, hash);
                && users == old(users)
                && tokens == old(tokens)[key := old(tokens)[key].(used := true)]
    {
      var key := TokenKey(PasswordReset, hash);
      if key !in tokens { return 400; }
      MarkAsUsed(key);
      if user !in users { return 404; }
      status := 200;
    }

    method ConfirmDeletion(user: string, hash: string) returns (status: int)
      modifies this
      ensures status == Status(x, old(View()), Confirm(Deletion, user, hash))
      ensures status < 300 ==> View() == Handled(x, old(View()), Confirm(Deletion, user, hash))
      ensures status == if TokenKey(Deletion, hash) !in old(tokens) then 400
                        else if user !in old(users) then 404 else 200
      ensures status == 200 ==>
                var key := TokenKey(Deletion, hash);
                && users == old(users) - {user}
                && tokens == old(tokens)[key := old(tokens)[key].(used := true)]
    {
      var key := TokenKey(Deletion, hash);
      if key !in tokens { return 400; }
      if user !in users { return 404; }
      MarkAsUsed(key);
      users := users - {user};
      status := 200;
    }

    method ConfirmEmailChange(user: string, hash: string) returns (status: int)
      modifies this
      ensures status == Status(x, old(View()), Confirm(EmailChange, user, hash))
      ensures status < 300 ==> View() == Handled(x, old(View()), Confirm(EmailChange, user, hash))
      ensures status in {200, 400, 404, 409, 500}
      ensures status == 400 <==> TokenKey(EmailChange, hash) !in old(tokens)
      ensures status == 404 <==> TokenKey(EmailChange, hash) in old(tokens) && user !in old(users)
      ensures TokenKey(EmailChange, hash) in old(tokens) && user in old(users) ==>
                var pending, tenant := old(tokens)[TokenKey(EmailChange, hash)].pendingEmail, old(users)[user].tenant;
                var holders := set i | i in old(users) && old(users)[i].tenant == tenant
                                       && old(users)[i].email == x.strip(x.lower(pending));
                status == if |holders| > 1 then 500
                          else if holders != {} then 409
                          else if x.validEmail(pending) then 200 else 500
      ensures status == 200 ==>
                var row := old(tokens)[TokenKey(EmailChange, hash)];
                var email := x.strip(x.lower(row.pendingEmail));
                && (forall i :: i in old(users) && old(users)[i].tenant == old(users)[user].tenant ==>
                      old(users)[i].email != email)
                && users == old(users)[user := old(users)[user].(email := email, verified := true)]
                && tokens == old(tokens)[TokenKey(EmailChange, hash) := row.(used := true)]
    {
      var key := TokenKey(EmailChange, hash);
      if key !in tokens { return 400; }
      var pending := tokens[key].pendingEmail;
      MarkAsUsed(key);
      if user !in users { return 404; }
      assert ByEmail(x, users, pending, Some(users[user].tenant)) ==
             set i | i in users && users[i].tenant == users[user].tenant && users[i].email == x.strip(x.lower(pending));
      var taken := GetByEmail(pending, Some(users[user].tenant));
      if taken != 200 { return taken; }
      if !x.validEmail(pending) { return 500; }
      users := users[user := users[user].(email := x.strip(x.lower(pending)), verified := true)];
      status := 200;
    }

    /** One request: commit when it succeeds, roll back when it does not. */
    method Handle(r: Request) returns (status: int)
      modifies this
      ensures status == Status(x, old(View()), r)
      ensures status >= 300 ==> users == old(users) && tokens == old(tokens)
      ensures View() == Handled(x, old(View()), r)
    {
      var users0, tokens0 := users, tokens;
      match r {
        case Create(id, tenant, email, username) => status := CreateUser(id, tenant, email, username);
        case Update(id, change) => status := UpdateUser(id, change);
        case Delete(id) => status := DeleteUser(id);
        case Store(purpose, user, hash, pending, now) => status := StoreToken(purpose, user, hash, pending, now);
        case Confirm(Verification, user, hash) => status := ConfirmEmailVerification(user, hash);
        case Confirm(PasswordReset, user, hash) => status := ConfirmPasswordReset(user, hash);
        case Confirm(Deletion, user, hash) => status := ConfirmDeletion(user, hash);
        case Confirm(EmailChange, user, hash) => status := ConfirmEmailChange(user, hash);
      }
      if status >= 300 {
        users, tokens := users0, tokens0;
      }
    }
  }
}
