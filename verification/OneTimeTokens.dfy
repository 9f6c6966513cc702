/**
 One-time tokens end to end: auth-service signs a token and user-service stores its hash; redeeming it
 verifies the signature, checks the row, and confirms. Each redemption runs uninterrupted.
 */
module OneTimeTokens {
  import opened Prelude
  import opened TokenFormat
  import opened Users

  /** The signature, the stored hash, and the string operations of user-service. */
  datatype Config = Config(x: Text, mac: Mac, sha: string -> string)

  ghost predicate CollisionFree(c: Config) {
    forall a, b :: c.sha(a) == c.sha(b) ==> a == b
  }

  function PurposeName(p: Purpose): string {
    match p
    case Verification => "email_verification"
    case PasswordReset => "password_reset"
    case Deletion => "delete_account"
    case EmailChange => "email_change"
  }

  lemma PurposeNamesAreDistinct(p: Purpose, q: Purpose)
    requires PurposeName(p) == PurposeName(q)
    ensures p == q
  {
    assert PurposeName(Verification)[0] == 'e' && PurposeName(Verification)[6] == 'v';
    assert PurposeName(EmailChange)[0] == 'e' && PurposeName(EmailChange)[6] == 'c';
    assert PurposeName(PasswordReset)[0] == 'p' && PurposeName(Deletion)[0] == 'd';
  }

  /** user-service's database, and auth-service's credentials. */
  datatype State = State(db: Database, credentials: map<string, string>)

  datatype Event =
    | Register(id: string, tenant: string, email: string, username: string, password: string)
    | Mint(purpose: Purpose, user: string, second: nat, pendingEmail: string, now: int)
    | Redeem(purpose: Purpose, raw: string, newPassword: string, now: int)
    | Edit(id: string, change: Change)
    | RemoveProfile(id: string)

  function Raw(c: Config, purpose: Purpose, user: string, second: nat): string {
    Generate(c.mac, user, PurposeName(purpose), second)
  }

  /** The user a redemption goes ahead for: signed for this purpose, stored for them, unused and unexpired. */
  function Admitted(c: Config, db: Database, purpose: Purpose, raw: string, now: int): Option<string> {
    match Verify(c.mac, raw, PurposeName(purpose))
    case None => None
    case Some(user) =>
      if user != "" && Checks(db, TokenKey(purpose, c.sha(raw)), user, now) then Some(user) else None
  }

  function ConfirmOf(c: Config, purpose: Purpose, user: string, raw: string): Request {
    Confirm(purpose, user, c.sha(raw))
  }

  /** What the client is told. The answer of the confirmation is not looked at; only one that is no JSON, as the 500 of
      an unhandled error, fails an address change. */
  function RedeemStatus(c: Config, s: State, purpose: Purpose, raw: string, now: int): int {
    match Admitted(c, s.db, purpose, raw, now)
    case None => 400
    case Some(user) =>
      if purpose.PasswordReset? && user !in s.credentials then 404
      else if purpose.EmailChange? && user !in s.db.users then 404
      else if purpose.EmailChange? && Status(c.x, s.db, ConfirmOf(c, purpose, user, raw)) == 500 then 500
      else 200
  }

  function Redeemed(c: Config, s: State, purpose: Purpose, raw: string, password: string, now: int): State {
    if RedeemStatus(c, s, purpose, raw, now) != 200 then s
    else
      var user := Admitted(c, s.db, purpose, raw, now).value;
      State(Handled(c.x, s.db, ConfirmOf(c, purpose, user, raw)),
            match purpose
            case PasswordReset => s.credentials[user := password]
            case Deletion => s.credentials - {user}
            case _ => s.credentials)
  }

  function Next(c: Config, s: State, e: Event): State {
    match e
    case Register(id, tenant, email, username, password) =>
      var r := Create(id, tenant, email, username);
      if Commits(c.x, s.db, r) then State(Handled(c.x, s.db, r), s.credentials[id := password]) else s
    case Mint(purpose, user, second, pending, now) =>
      s.(db := Handled(c.x, s.db, Store(purpose, user, c.sha(Raw(c, purpose, user, second)), pending, now)))
    case Redeem(purpose, raw, password, now) => Redeemed(c, s, purpose, raw, password, now)
    case Edit(id, change) => s.(db := Handled(c.x, s.db, Update(id, change)))
    case RemoveProfile(id) => s.(db := Handled(c.x, s.db, Delete(id)))
  }

  function After(c: Config, run: seq<Event>, n: nat): State
    requires n <= |run|
  {
    if n == 0 then State(Database(map[], map[]), map[]) else Next(c, After(c, run, n - 1), run[n - 1])
  }

  /** The redemption takes effect: its confirmation commits, or the credential changes whatever that answered. */
  predicate TakesEffect(c: Config, s: State, e: Event) {
    && e.Redeem?
    && RedeemStatus(c, s, e.purpose, e.raw, e.now) == 200
    && var user := Admitted(c, s.db, e.purpose, e.raw, e.now).value;
       || e.purpose.PasswordReset?
       || (e.purpose.Deletion? && user in s.credentials)
       || Commits(c.x, s.db, ConfirmOf(c, e.purpose, user, e.raw))
  }

  /** No effect is overlooked: a redemption changes anything, in either service, if and only if it takes effect;
      only resetting a password to itself, for a user without a profile, changes nothing. */
  lemma ChangesIffTakesEffect(c: Config, s: State, e: Event)
    requires e.Redeem?
    ensures Next(c, s, e) != s <==>
            && TakesEffect(c, s, e)
            && var user := Admitted(c, s.db, e.purpose, e.raw, e.now).value;
               e.purpose.PasswordReset? && user !in s.db.users ==> s.credentials[user] != e.newPassword
  {
    if RedeemStatus(c, s, e.purpose, e.raw, e.now) == 200 {
      var user, key := Admitted(c, s.db, e.purpose, e.raw, e.now).value, TokenKey(e.purpose, c.sha(e.raw));
      UsedStep(c.x, s.db, ConfirmOf(c, e.purpose, user, e.raw), key);
      assert !Used(s.db, key);
      if e.purpose.PasswordReset? {
        assert Next(c, s, e).credentials[user] == e.newPassword;
      }
    }
  }

  // ----- a token that took effect is spent -----

  lemma UsedIsFinal(c: Config, s: State, e: Event, key: TokenKey)
    requires Used(s.db, key)
    ensures Used(Next(c, s, e).db, key)
  {
  }

  lemma {:induction false} UsedForever(c: Config, run: seq<Event>, m: nat, n: nat, key: TokenKey)
    requires m <= n <= |run| && Used(After(c, run, m).db, key)
    ensures Used(After(c, run, n).db, key)
  {
    if m < n {
      UsedForever(c, run, m, n - 1, key);
      UsedIsFinal(c, After(c, run, n - 1), run[n - 1], key);
    }
  }

  /** A redemption that takes effect spends its token, except a password reset or a deletion for a user without a
      profile: there the credential changes and the confirmation is rolled back. */
  lemma EffectSpendsTokenIff(c: Config, s: State, e: Event)
    requires TakesEffect(c, s, e)
    ensures Used(Next(c, s, e).db, TokenKey(e.purpose, c.sha(e.raw))) <==>
            (e.purpose.PasswordReset? || e.purpose.Deletion? ==>
               Admitted(c, s.db, e.purpose, e.raw, e.now).value in s.db.users)
  {
    var user := Admitted(c, s.db, e.purpose, e.raw, e.now).value;
    UsedStep(c.x, s.db, ConfirmOf(c, e.purpose, user, e.raw), TokenKey(e.purpose, c.sha(e.raw)));
  }

  /** Redeemed again next, whenever that is, a token takes effect again exactly if it resets the password of a user
      without a profile and has not expired. */
  lemma RepeatTakesEffectIff(c: Config, s: State, e: Event, again: Event)
    requires TakesEffect(c, s, e) && again.Redeem? && again.purpose == e.purpose && again.raw == e.raw
    ensures TakesEffect(c, Next(c, s, e), again) <==>
            && e.purpose.PasswordReset?
            && Admitted(c, s.db, e.purpose, e.raw, e.now).value !in s.db.users
            && again.now <= s.db.tokens[TokenKey(e.purpose, c.sha(e.raw))].expiresAt
  {
    EffectSpendsTokenIff(c, s, e);
  }

  /** At most once: if a string takes effect twice in a run, for whatever purposes, the first time was a
      password reset or a deletion for a user whose profile was gone. */
  lemma TakesEffectOnce(c: Config, run: seq<Event>, i: nat, j: nat)
    requires i < j < |run| && TakesEffect(c, After(c, run, i), run[i]) && TakesEffect(c, After(c, run, j), run[j])
    requires run[i].raw == run[j].raw
    ensures run[i].purpose == run[j].purpose && (run[i].purpose.PasswordReset? || run[i].purpose.Deletion?)
    ensures var s := After(c, run, i);
            Admitted(c, s.db, run[i].purpose, run[i].raw, run[i].now).value !in s.db.users
  {
    var raw := run[i].raw;
    OnePurposeOneUser(c.mac, raw, PurposeName(run[i].purpose), PurposeName(run[j].purpose));
    PurposeNamesAreDistinct(run[i].purpose, run[j].purpose);
    EffectSpendsTokenIff(c, After(c, run, i), run[i]);
    var key := TokenKey(run[i].purpose, c.sha(raw));
    if Used(After(c, run, i + 1).db, key) {
      UsedForever(c, run, i + 1, j, key);
      assert false;
    }
  }

  // ----- a deleted account stays deleted -----

  /** No user id is given out twice. */
  ghost predicate FreshIds(run: seq<Event>) {
    forall i, j :: 0 <= i < j < |run| && run[i].Register? && run[j].Register? ==> run[i].id != run[j].id
  }

  predicate Known(s: State, user: string) { user in s.db.users || user in s.credentials }

  /** Only a registration makes a user known. */
  lemma KnownStep(c: Config, s: State, e: Event, user: string)
    requires Known(Next(c, s, e), user) && !Known(s, user)
    ensures e.Register? && e.id == user
  {
  }

  lemma {:induction false} KnownWasRegistered(c: Config, run: seq<Event>, n: nat, user: string) returns (i: nat)
    requires n <= |run| && Known(After(c, run, n), user)
    ensures i < n && run[i].Register? && run[i].id == user
  {
    if Known(After(c, run, n - 1), user) {
      i := KnownWasRegistered(c, run, n - 1, user);
    } else {
      KnownStep(c, After(c, run, n - 1), run[n - 1], user);
      i := n - 1;
    }
  }

  lemma {:induction false} ForgottenForever(c: Config, run: seq<Event>, i: nat, m: nat, n: nat, user: string)
    requires FreshIds(run) && i < m <= n <= |run| && run[i].Register? && run[i].id == user
    requires !Known(After(c, run, m), user)
    ensures !Known(After(c, run, n), user)
  {
    if m < n {
      ForgottenForever(c, run, i, m, n - 1, user);
      if Known(After(c, run, n), user) { KnownStep(c, After(c, run, n - 1), run[n - 1], user); }
    }
  }

  /** The user a redemption acts for is the one its string was signed for. */
  function SignedFor(c: Config, e: Event): Option<string>
    requires e.Redeem?
  {
    Verify(c.mac, e.raw, PurposeName(e.purpose))
  }

  lemma ActsForSigned(c: Config, s: State, e: Event)
    requires TakesEffect(c, s, e)
    ensures SignedFor(c, e) == Admitted(c, s.db, e.purpose, e.raw, e.now)
    ensures e.purpose.Deletion? ==> Known(s, SignedFor(c, e).value)
    ensures e.purpose.Deletion? && SignedFor(c, e).value !in s.db.users ==> !Known(Next(c, s, e), SignedFor(c, e).value)
  {
  }

  /** The deletion of an account without a profile leaves nothing of a user registered before. */
  lemma DeletionForgets(c: Config, run: seq<Event>, i: nat, user: string) returns (registered: nat)
    requires i < |run| && TakesEffect(c, After(c, run, i), run[i]) && run[i].purpose.Deletion?
    requires SignedFor(c, run[i]) == Some(user) && user !in After(c, run, i).db.users
    ensures registered < i && run[registered].Register? && run[registered].id == user
    ensures !Known(After(c, run, i + 1), user)
  {
    ActsForSigned(c, After(c, run, i), run[i]);
    registered := KnownWasRegistered(c, run, i, user);
  }

  /** With fresh user ids only the password reset is left: every other token takes effect at most once, the deletion
      of an account without a profile included. */
  lemma FreshIdsLeaveOnlyResets(c: Config, run: seq<Event>, i: nat, j: nat)
    requires FreshIds(run)
    requires i < j < |run| && TakesEffect(c, After(c, run, i), run[i]) && TakesEffect(c, After(c, run, j), run[j])
    requires run[i].raw == run[j].raw
    ensures run[i].purpose.PasswordReset?
  {
    TakesEffectOnce(c, run, i, j);
    if run[i].purpose.Deletion? {
      DeletionTakesEffectOnce(c, run, i, j);
    }
  }

  lemma DeletionTakesEffectOnce(c: Config, run: seq<Event>, i: nat, j: nat)
    requires FreshIds(run)
    requires i < j < |run| && TakesEffect(c, After(c, run, i), run[i]) && run[i].purpose.Deletion?
    requires run[j].Redeem? && run[j].purpose.Deletion? && run[j].raw == run[i].raw
    ensures !TakesEffect(c, After(c, run, j), run[j])
  {
    if TakesEffect(c, After(c, run, j), run[j]) {
      TakesEffectOnce(c, run, i, j);
      ActsForSigned(c, After(c, run, i), run[i]);
      ActsForSigned(c, After(c, run, j), run[j]);
      var user := SignedFor(c, run[i]).value;
      var registered := DeletionForgets(c, run, i, user);
      ForgottenForever(c, run, registered, i + 1, j, user);
    }
  }

  /** The runs that end in the two exceptions: the profile is removed while a token is out. */
  function Orphaned(purpose: Purpose, email: string, name: string, now: int): seq<Event> {
    [Register("u", "t", email, name, "old"), Mint(purpose, "u", 0, "", now), RemoveProfile("u")]
  }

  lemma OrphanedState(c: Config, purpose: Purpose, email: string, name: string, now: int, run: seq<Event>)
    requires c.x.validEmail(email) && c.x.validUsername(c.x.strip(name)) && Orphaned(purpose, email, name, now) <= run
    ensures After(c, run, 3) ==
            State(Database(map[], map[TokenKey(purpose, c.sha(Raw(c, purpose, "u", 0))) :=
                                        TokenRow("u", "", false, now + Lifetime(purpose))]),
                  map["u" := "old"])
  {
    assert After(c, run, 0) == State(Database(map[], map[]), map[]);
    assert run[0] == Register("u", "t", email, name, "old");
    assert ByEmail(c.x, map[], email, Some("t")) == {} && ByUsername(c.x, map[], name) == {};
    assert After(c, run, 1).credentials == map["u" := "old"] && After(c, run, 1).db.users.Keys == {"u"};
    assert run[1] == Mint(purpose, "u", 0, "", now);
    assert run[2] == RemoveProfile("u");
    assert After(c, run, 3).db.users == map[];
  }

  lemma OrphanedIsAdmitted(c: Config, purpose: Purpose, s: State, now: int)
    requires PrintsWithoutDots(c.mac) && TokenKey(purpose, c.sha(Raw(c, purpose, "u", 0))) in s.db.tokens
    requires s.db.tokens[TokenKey(purpose, c.sha(Raw(c, purpose, "u", 0)))] ==
             TokenRow("u", "", false, now + Lifetime(purpose))
    ensures Admitted(c, s.db, purpose, Raw(c, purpose, "u", 0), now) == Some("u")
  {
    assert DotFree(PurposeName(purpose));
    RoundTripIff(c.mac, "u", PurposeName(purpose), 0);
  }

  /** Both exceptions occur: redeeming such a token changes the credential and leaves the token unspent. */
  lemma OrphanedTokenStaysUnspent(c: Config, purpose: Purpose, email: string, name: string, password: string, now: int)
    requires PrintsWithoutDots(c.mac) && c.x.validEmail(email) && c.x.validUsername(c.x.strip(name))
    requires purpose.PasswordReset? || purpose.Deletion?
    ensures var raw := Raw(c, purpose, "u", 0);
            var run := Orphaned(purpose, email, name, now) + [Redeem(purpose, raw, password, now)];
            && TakesEffect(c, After(c, run, 3), run[3])
            && !Used(After(c, run, 4).db, TokenKey(purpose, c.sha(raw)))
            && After(c, run, 4).credentials == if purpose.Deletion? then map[] else map["u" := password]
  {
    var raw := Raw(c, purpose, "u", 0);
    var run := Orphaned(purpose, email, name, now) + [Redeem(purpose, raw, password, now)];
    OrphanedState(c, purpose, email, name, now, run);
    OrphanedIsAdmitted(c, purpose, After(c, run, 3), now);
    EffectSpendsTokenIff(c, After(c, run, 3), run[3]);
  }

  /** And the password reset takes effect twice, with two different passwords. */
  lemma ResetTakesEffectTwice(c: Config, email: string, name: string, first: string, second: string, now: int)
    requires PrintsWithoutDots(c.mac) && c.x.validEmail(email) && c.x.validUsername(c.x.strip(name))
    ensures var raw := Raw(c, PasswordReset, "u", 0);
            var run := Orphaned(PasswordReset, email, name, now)
                       + [Redeem(PasswordReset, raw, first, now), Redeem(PasswordReset, raw, second, now)];
            && TakesEffect(c, After(c, run, 3), run[3]) && After(c, run, 4).credentials == map["u" := first]
            && TakesEffect(c, After(c, run, 4), run[4]) && After(c, run, 5).credentials == map["u" := second]
  {
    var raw := Raw(c, PasswordReset, "u", 0);
    var run := Orphaned(PasswordReset, email, name, now)
               + [Redeem(PasswordReset, raw, first, now), Redeem(PasswordReset, raw, second, now)];
    OrphanedState(c, PasswordReset, email, name, now, run);
    OrphanedIsAdmitted(c, PasswordReset, After(c, run, 3), now);
    assert After(c, run, 4).db == After(c, run, 3).db;
    OrphanedIsAdmitted(c, PasswordReset, After(c, run, 4), now);
  }

  // ----- only for whom and what it was minted -----

  /** Every stored row was minted: its key, its user and its expiry come from one earlier `Mint`. */
  lemma {:induction false} RowsAreMinted(c: Config, run: seq<Event>, n: nat, key: TokenKey) returns (i: nat)
    requires n <= |run| && key in After(c, run, n).db.tokens
    ensures i < n && run[i].Mint?
    ensures key == TokenKey(run[i].purpose, c.sha(Raw(c, run[i].purpose, run[i].user, run[i].second)))
    ensures var row := After(c, run, n).db.tokens[key];
            row.user == run[i].user && row.expiresAt == run[i].now + Lifetime(run[i].purpose)
            && row.pendingEmail == run[i].pendingEmail
  {
    var before, e := After(c, run, n - 1), run[n - 1];
    if key in before.db.tokens {
      i := RowsAreMinted(c, run, n - 1, key);
      RowPersists(c, before, e, key);
    } else {
      i := n - 1;
    }
  }

  lemma RowPersists(c: Config, s: State, e: Event, key: TokenKey)
    requires key in s.db.tokens
    ensures key in Next(c, s, e).db.tokens
    ensures var r, r' := s.db.tokens[key], Next(c, s, e).db.tokens[key];
            r'.user == r.user && r'.expiresAt == r.expiresAt && r'.pendingEmail == r.pendingEmail
  {
  }

  /** A string takes effect only if it is a token minted earlier in the run for this very user and purpose,
      and only while unused and within that token's lifetime. */
  lemma TakesEffectOnlyAsMinted(c: Config, run: seq<Event>, j: nat) returns (i: nat)
    requires CollisionFree(c) && j < |run| && TakesEffect(c, After(c, run, j), run[j])
    ensures i < j && run[i].Mint? && run[i].purpose == run[j].purpose
    ensures Admitted(c, After(c, run, j).db, run[j].purpose, run[j].raw, run[j].now) == Some(run[i].user)
    ensures run[j].raw == Raw(c, run[i].purpose, run[i].user, run[i].second)
    ensures run[j].now <= run[i].now + Lifetime(run[i].purpose)
    ensures !Used(After(c, run, j).db, TokenKey(run[j].purpose, c.sha(run[j].raw)))
  {
    i := RowsAreMinted(c, run, j, TokenKey(run[j].purpose, c.sha(run[j].raw)));
  }

  // ----- what the client is told -----

  /** The confirmation behind an answer of 200 was committed exactly under these conditions; otherwise the
      client was told of a success that was rolled back. */
  lemma ReportedSuccessIsRealIff(c: Config, s: State, purpose: Purpose, raw: string, now: int)
    requires RedeemStatus(c, s, purpose, raw, now) == 200
    ensures var user := Admitted(c, s.db, purpose, raw, now).value;
            Commits(c.x, s.db, ConfirmOf(c, purpose, user, raw)) <==>
            && user in s.db.users
            && (purpose.EmailChange? ==>
                  var pending := s.db.tokens[TokenKey(purpose, c.sha(raw))].pendingEmail;
                  ByEmail(c.x, s.db.users, pending, Some(s.db.users[user].tenant)) == {})
  {
    if purpose.EmailChange? {
      var user := Admitted(c, s.db, purpose, raw, now).value;
      var pending := s.db.tokens[TokenKey(purpose, c.sha(raw))].pendingEmail;
      VacantMeansNobody(ByEmail(c.x, s.db.users, pending, Some(s.db.users[user].tenant)));
    }
  }

  /** Then the two services stay in step; when it was rolled back, they part exactly for a password reset and for
      the deletion of a user who still has a credential. */
  lemma RolledBackStillActsIff(c: Config, s: State, purpose: Purpose, raw: string, password: string, now: int)
    requires RedeemStatus(c, s, purpose, raw, now) == 200
    requires !Commits(c.x, s.db, ConfirmOf(c, purpose, Admitted(c, s.db, purpose, raw, now).value, raw))
    ensures var e := Redeem(purpose, raw, password, now);
            var user := Admitted(c, s.db, purpose, raw, now).value;
            && Next(c, s, e).db == s.db
            && (TakesEffect(c, s, e) <==> purpose.PasswordReset? || (purpose.Deletion? && user in s.credentials))
            && (!TakesEffect(c, s, e) ==> Next(c, s, e) == s)
  {
    ChangesIffTakesEffect(c, s, Redeem(purpose, raw, password, now));
  }

  /** Freshly minted, for a user with a dot-free id, a token is admitted until its lifetime ends. */
  lemma MintedIsAdmitted(c: Config, s: State, e: Event, now: int)
    requires e.Mint? && PrintsWithoutDots(c.mac) && DotFree(e.user) && e.user != ""
    requires TokenKey(e.purpose, c.sha(Raw(c, e.purpose, e.user, e.second))) !in s.db.tokens
    ensures var hours := if e.purpose == PasswordReset then 1 else 24;
            Admitted(c, Next(c, s, e).db, e.purpose, Raw(c, e.purpose, e.user, e.second), now) ==
            if now <= e.now + hours * 60 * 60 * SECOND then Some(e.user) else None
  {
    assert DotFree(PurposeName(e.purpose));
    RoundTripIff(c.mac, e.user, PurposeName(e.purpose), e.second);
  }

  // ----- the service -----

  class AuthService {
    const c: Config
    const userService: UserService
    var credentials: map<string, string>

    ghost predicate Valid() reads this { userService.x == c.x }

    function View(): State reads this, userService { State(userService.View(), credentials) }

    constructor (c: Config)
      ensures Valid() && fresh(userService) && this.c == c && View() == State(Database(map[], map[]), map[])
    {
      this.c := c;
      userService := new UserService(c.x);
      credentials := map[];
    }

    /** The steps every redemption starts with: the signature, then the check in user-service. */
    method Admit(purpose: Purpose, raw: string, now: int) returns (user: Option<string>)
      requires Valid()
      ensures user == Admitted(c, userService.View(), purpose, raw, now)
      ensures user.Some? <==>
              && Verify(c.mac, raw, PurposeName(purpose)).Some?
              && var u, key := Verify(c.mac, raw, PurposeName(purpose)).value, TokenKey(purpose, c.sha(raw));
                 && u != "" && key in userService.tokens
                 && var row := userService.tokens[key]; row.user == u && !row.used && now <= row.expiresAt
      ensures user.Some? ==> user == Verify(c.mac, raw, PurposeName(purpose))
    {
      var signedFor := Verify(c.mac, raw, PurposeName(purpose));
      if signedFor.None? || signedFor.value == "" { return None; }
      var valid := userService.CheckToken(purpose, signedFor.value, c.sha(raw), now);
      user := if valid then signedFor else None;
    }

    method VerifyEmail(raw: string, now: int) returns (status: int)
      requires Valid()
      modifies this, userService
      ensures Valid() && status == RedeemStatus(c, old(View()), Verification, raw, now)
      ensures View() == Redeemed(c, old(View()), Verification, raw, "", now)
      ensures status == if Admitted(c, old(userService.View()), Verification, raw, now).None? then 400 else 200
      ensures credentials == old(credentials)
    {
      var user := Admit(Verification, raw, now);
      if user.None? { return 400; }
      var ignored := userService.Handle(Confirm(Verification, user.value, c.sha(raw)));
      status := 200;
    }

    method ResetPassword(raw: string, newPassword: string, now: int) returns (status: int)
      requires Valid()
      modifies this, userService
      ensures Valid() && status == RedeemStatus(c, old(View()), PasswordReset, raw, now)
      ensures View() == Redeemed(c, old(View()), PasswordReset, raw, newPassword, now)
      ensures var user := Admitted(c, old(userService.View()), PasswordReset, raw, now);
              && status == (if user.None? then 400 else if user.value !in old(credentials) then 404 else 200)
              && credentials == if status == 200 then old(credentials)[user.value := newPassword] else old(credentials)
    {
      var user := Admit(PasswordReset, raw, now);
      if user.None? { return 400; }
      if user.value !in credentials { return 404; }
      credentials := credentials[user.value := newPassword];
      var ignored := userService.Handle(Confirm(PasswordReset, user.value, c.sha(raw)));
      status := 200;
    }

    method ConfirmDeletion(raw: string, now: int) returns (status: int)
      requires Valid()
      modifies this, userService
      ensures Valid() && status == RedeemStatus(c, old(View()), Deletion, raw, now)
      ensures View() == Redeemed(c, old(View()), Deletion, raw, "", now)
      ensures var user := Admitted(c, old(userService.View()), Deletion, raw, now);
              && status == (if user.None? then 400 else 200)
              && credentials == if user.None? then old(credentials) else old(credentials) - {user.value}
    {
      var user := Admit(Deletion, raw, now);
      if user.None? { return 400; }
      var ignored := userService.Handle(Confirm(Deletion, user.value, c.sha(raw)));
      credentials := credentials - {user.value};
      status := 200;
    }

    method ConfirmEmailChange(raw: string, now: int) returns (status: int)
      requires Valid()
      modifies this, userService
      ensures Valid() && status == RedeemStatus(c, old(View()), EmailChange, raw, now)
      ensures View() == Redeemed(c, old(View()), EmailChange, raw, "", now)
      ensures var user := Admitted(c, old(userService.View()), EmailChange, raw, now);
              && credentials == old(credentials)
              && (status == 400 <==> user.None?)
              && (status == 404 <==> user.Some? && user.value !in old(userService.users))
              && status in {200, 400, 404, 500}
    {
      var user := Admit(EmailChange, raw, now);
      if user.None? { return 400; }
      if user.value !in userService.users { return 404; }
      var answer := userService.Handle(Confirm(EmailChange, user.value, c.sha(raw)));
      status := if answer == 500 then 500 else 200;
    }

    /** Every event of a run is served so: what auth-service does, and what clients ask of user-service directly. */
    method Serve(e: Event) returns (status: int)
      requires Valid()
      modifies this, userService
      ensures Valid() && View() == Next(c, old(View()), e)
    {
      match e {
        case Register(id, tenant, email, username, password) =>
          status := userService.Handle(Create(id, tenant, email, username));
          if status == 201 { credentials := credentials[id := password]; }
        case Mint(purpose, user, second, pending, now) =>
          var raw := MintToken(purpose, user, second, pending, now);
          status := 200;
        case Redeem(Verification, raw, _, now) => status := VerifyEmail(raw, now);
        case Redeem(PasswordReset, raw, password, now) => status := ResetPassword(raw, password, now);
        case Redeem(Deletion, raw, _, now) => status := ConfirmDeletion(raw, now);
        case Redeem(EmailChange, raw, _, now) => status := ConfirmEmailChange(raw, now);
        case Edit(id, change) => status := userService.Handle(Update(id, change));
        case RemoveProfile(id) => status := userService.Handle(Delete(id));
      }
    }

    /** Signs a token and has its hash stored; a hash stored before makes the store fail, silently. */
    method MintToken(purpose: Purpose, user: string, second: nat, pendingEmail: string, now: int) returns (raw: string)
      requires Valid()
      modifies userService
      ensures Valid() && raw == Raw(c, purpose, user, second)
      ensures View() == Next(c, old(View()), Mint(purpose, user, second, pendingEmail, now))
    {
      raw := Generate(c.mac, user, PurposeName(purpose), second);
      var ignored := userService.Handle(Store(purpose, user, c.sha(raw), pendingEmail, now));
    }
  }
}
