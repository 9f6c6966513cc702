/** Serialised runs of session-service requests: the session limit, eviction order and rotation chains. */
module SessionRuns {
  import opened Prelude
  import opened Sessions

  /** A request; `oldest` is the database's choice among the oldest active sessions, and a login reads the clock
      twice before the time it is recorded at. */
  datatype Op =
    | Create(req: CreateRequest, id: RowId, oldest: Option<RowId>, countedAt: int, pickedAt: int)
    | Rotate(presented: Hash, next: Hash, expiresAt: int)
    | Logout(hash: Hash)
    | RevokeOne(target: RowId, owner: string)
    | RevokeAll(user: string)

  datatype Event = Event(now: int, op: Op)

  ghost function Apply(max: int, t: Table, e: Event): Table {
    match e.op
    case Create(req, id, oldest, countedAt, pickedAt) =>
      Created(t, max, req, id, Clock(countedAt, pickedAt, e.now), oldest)
    case Rotate(presented, next, expiresAt) => Rotated(t, presented, next, expiresAt, e.now)
    case Logout(h) => Revoke(t, HoldersOf(t, h))
    case RevokeOne(i, owner) => if i in t && t[i].user == owner then Revoke(t, {i}) else t
    case RevokeAll(user) => Revoke(t, RowsOfUser(t, user))
  }

  function Start(e: Event): int { if e.op.Create? then e.op.countedAt else e.now }

  ghost predicate Possible(t: Table, e: Event) {
    e.op.Create? ==>
      && e.op.id !in t
      && IsOldest(t, Active(t, e.op.req.user, Some(e.op.req.tenant), e.op.pickedAt), e.op.oldest)
      && e.op.countedAt <= e.op.pickedAt <= e.now
  }

  /** The table after the first `n` requests, starting from an empty one. */
  ghost function After(max: int, run: seq<Event>, n: nat): Table
    requires n <= |run|
  {
    if n == 0 then map[] else Apply(max, After(max, run, n - 1), run[n - 1])
  }

  ghost predicate PossibleAt(max: int, run: seq<Event>, n: nat)
    requires n < |run|
  {
    Possible(After(max, run, n), run[n])
  }

  ghost predicate IsRun(max: int, run: seq<Event>) {
    && (forall n :: 0 <= n < |run| ==> PossibleAt(max, run, n))
    && (forall i, j :: 0 <= i < j < |run| ==> run[i].now <= Start(run[j]))
  }

  /** The service serves every request as the run says. */
  method Serve(service: SessionService, op: Op, now: int) returns (ghost e: Event)
    requires service.Valid() && (op.Create? ==> op.id !in service.repo.rows && op.countedAt <= op.pickedAt <= now)
    modifies service.repo
    ensures service.Valid() && e.now == now && Possible(old(service.repo.rows), e)
    ensures if op.Create? then e.op.Create? && e.op == op.(oldest := e.op.oldest) else e.op == op
    ensures service.repo.rows == Apply(service.maxSessionsPerUser, old(service.repo.rows), e)
  {
    e := Event(now, op);
    match op {
      case Create(req, id, _, countedAt, pickedAt) =>
        var r, oldest := service.CreateSession(req, id, Clock(countedAt, pickedAt, now));
        e := Event(now, op.(oldest := oldest));
      case Rotate(presented, next, expiresAt) => var r := service.RotateSession(presented, next, expiresAt, now);
      case Logout(h) => service.RevokeSession(h);
      case RevokeOne(target, owner) => var status := service.RevokeSessionById(target, owner);
      case RevokeAll(user) => var count := service.RevokeAllSessions(user);
    }
  }

  // ----- what one request can do to one row -----

  lemma RowStep(max: int, t: Table, e: Event, i: RowId)
    requires i in t && Possible(t, e)
    ensures i in Apply(max, t, e)
    ensures var r, r' := t[i], Apply(max, t, e)[i];
            && r'.tenant == r.tenant && r'.user == r.user && r'.createdAt == r.createdAt
            && (r.revoked ==> r'.revoked)
            && (r'.hash != r.hash || r'.expiresAt != r.expiresAt ==>
                  && e.op.Rotate? && e.op.presented == r.hash && e.op.next == r'.hash
                  && RotationAccepted(t, r.hash, e.op.next, e.now) && RowOf(t, r.hash) == Some(i))
  {
  }

  lemma NewRowStep(max: int, t: Table, e: Event, i: RowId)
    requires i !in t && i in Apply(max, t, e)
    ensures e.op.Create? && e.op.id == i
    ensures var req := e.op.req;
            Apply(max, t, e)[i] == Row(req.tenant, req.user, req.hash, false, req.expiresAt, e.now)
  {
  }

  lemma ApplyKeepsHashesUnique(max: int, t: Table, e: Event)
    requires UniqueHashes(t) && Possible(t, e)
    ensures UniqueHashes(Apply(max, t, e))
  {
    if e.op.Create? && e.op.req.hash !in Hashes(t) {
      forall i | i in t ensures t[i].hash != e.op.req.hash { assert t[i].hash in Hashes(t); }
    }
  }

  lemma {:induction false} HashesStayUnique(max: int, run: seq<Event>, n: nat)
    requires IsRun(max, run) && n <= |run|
    ensures UniqueHashes(After(max, run, n))
  {
    if n > 0 {
      HashesStayUnique(max, run, n - 1);
      assert PossibleAt(max, run, n - 1);
      ApplyKeepsHashesUnique(max, After(max, run, n - 1), run[n - 1]);
    }
  }

  // ----- the session limit -----

  /** An accepted rotation of one of the user's sessions at the exact instant it expires: `rotate` still
      takes it (`expires_at < now` is false) although the count no longer does (`expires_at > now` is false). */
  ghost predicate BoundaryRotation(t: Table, e: Event, user: string, tenant: string) {
    && e.op.Rotate?
    && RotationAccepted(t, e.op.presented, e.op.next, e.now)
    && var r := t[RowOf(t, e.op.presented).value];
       r.user == user && r.tenant == tenant && r.expiresAt == e.now
  }

  ghost function BoundaryRotations(max: int, run: seq<Event>, n: nat, user: string, tenant: string): nat
    requires n <= |run|
  {
    if n == 0 then 0
    else BoundaryRotations(max, run, n - 1, user, tenant)
         + (if BoundaryRotation(After(max, run, n - 1), run[n - 1], user, tenant) then 1 else 0)
  }

  lemma LoginAdds(max: int, t: Table, e: Event, user: string, tenant: string)
    requires e.op.Create? && Possible(t, e)
    ensures var req := e.op.req;
            var evicting := |Active(t, req.user, Some(req.tenant), e.op.countedAt)| >= max && e.op.oldest.Some?;
            var here := req.user == user && req.tenant == tenant && req.hash !in Hashes(t);
            Active(Apply(max, t, e), user, Some(tenant), e.now) <=
            Active(t, user, Some(tenant), e.now) - (if here && evicting then {e.op.oldest.value} else {})
            + (if here then {e.op.id} else {})
  {
  }

  /** The counting behind the limit: `counted`, `picked` and `active` are the user's sessions as time goes by. */
  lemma FewEnough(counted: set<RowId>, picked: set<RowId>, active: set<RowId>, after: set<RowId>,
                  id: RowId, oldest: Option<RowId>, max: int)
    requires active <= picked <= counted
    requires if oldest.Some? then oldest.value in picked else picked == {}
    requires after <= active - (if |counted| >= max && oldest.Some? then {oldest.value} else {}) + {id}
    ensures |after| <= Max(Max(1, max), |picked|)
  {
    if |counted| < max {
      SubsetCard(after, counted + {id});
    } else if oldest.Some? {
      SubsetCard(after, picked - {oldest.value} + {id});
    } else {
      SubsetCard(after, {id});
    }
  }

  lemma CreateStep(max: int, t: Table, e: Event, user: string, tenant: string)
    requires e.op.Create? && Possible(t, e)
    ensures |Active(Apply(max, t, e), user, Some(tenant), e.now)| <=
            Max(Max(1, max), |Active(t, user, Some(tenant), e.op.pickedAt)|)
  {
    var req := e.op.req;
    var counted, picked := Active(t, user, Some(tenant), e.op.countedAt), Active(t, user, Some(tenant), e.op.pickedAt);
    var active, after := Active(t, user, Some(tenant), e.now), Active(Apply(max, t, e), user, Some(tenant), e.now);
    LoginAdds(max, t, e, user, tenant);
    ActiveShrinks(t, user, tenant, e.op.countedAt, e.op.pickedAt);
    ActiveShrinks(t, user, tenant, e.op.pickedAt, e.now);
    if req.hash in Hashes(t) || req.user != user || req.tenant != tenant {
      SubsetCard(after, picked);
    } else {
      FewEnough(counted, picked, active, after, e.op.id, e.op.oldest, max);
    }
  }

  lemma RevokeStep(max: int, t: Table, e: Event, user: string, tenant: string)
    requires !e.op.Create? && !e.op.Rotate?
    ensures Active(Apply(max, t, e), user, Some(tenant), e.now) <= Active(t, user, Some(tenant), e.now)
  {
  }

  lemma RotateStep(max: int, t: Table, e: Event, user: string, tenant: string)
    requires e.op.Rotate? && UniqueHashes(t)
    ensures var back := if BoundaryRotation(t, e, user, tenant) then {RowOf(t, e.op.presented).value} else {};
            Active(Apply(max, t, e), user, Some(tenant), e.now) <= Active(t, user, Some(tenant), e.now) + back
  {
  }

  lemma OtherStep(max: int, t: Table, e: Event, user: string, tenant: string)
    requires !e.op.Create? && UniqueHashes(t)
    ensures |Active(Apply(max, t, e), user, Some(tenant), e.now)| <=
            |Active(t, user, Some(tenant), e.now)| + (if BoundaryRotation(t, e, user, tenant) then 1 else 0)
  {
    var before := Active(t, user, Some(tenant), e.now);
    var after := Active(Apply(max, t, e), user, Some(tenant), e.now);
    if e.op.Rotate? {
      RotateStep(max, t, e, user, tenant);
      SubsetCard(after, before + if BoundaryRotation(t, e, user, tenant) then {RowOf(t, e.op.presented).value} else {});
    } else {
      RevokeStep(max, t, e, user, tenant);
      SubsetCard(after, before);
    }
  }

  /** When a request looks at the sessions there are. */
  function LooksAt(e: Event): int { if e.op.Create? then e.op.pickedAt else e.now }

  lemma LimitStep(max: int, t: Table, e: Event, user: string, tenant: string, bound: int, now: int)
    requires Possible(t, e) && UniqueHashes(t) && e.now <= now
    requires Max(1, max) <= bound && |Active(t, user, Some(tenant), LooksAt(e))| <= bound
    ensures |Active(Apply(max, t, e), user, Some(tenant), now)| <=
            bound + (if BoundaryRotation(t, e, user, tenant) then 1 else 0)
  {
    if e.op.Create? {
      CreateStep(max, t, e, user, tenant);
    } else {
      OtherStep(max, t, e, user, tenant);
    }
    var t' := Apply(max, t, e);
    ActiveShrinks(t', user, tenant, e.now, now);
    SubsetCard(Active(t', user, Some(tenant), now), Active(t', user, Some(tenant), e.now));
  }

  /** The session limit over any serialised run: at most `max(1, max_sessions_per_user)` active sessions per
      user and tenant, plus one for each rotation of theirs at an exact expiry instant. */
  lemma {:induction false} SessionLimit(
      max: int, run: seq<Event>, n: nat, user: string, tenant: string, now: int)
    requires IsRun(max, run) && n <= |run|
    requires n > 0 ==> run[n - 1].now <= now
    ensures |Active(After(max, run, n), user, Some(tenant), now)| <=
            Max(1, max) + BoundaryRotations(max, run, n, user, tenant)
  {
    if n > 0 {
      var t, e := After(max, run, n - 1), run[n - 1];
      assert PossibleAt(max, run, n - 1);
      HashesStayUnique(max, run, n - 1);
      SessionLimit(max, run, n - 1, user, tenant, LooksAt(e));
      LimitStep(max, t, e, user, tenant, Max(1, max) + BoundaryRotations(max, run, n - 1, user, tenant), now);
    }
  }

  /** A rotation adds an active session exactly when it hits the expiry instant and asks for a later expiry. */
  lemma RotateGrowsActiveIff(max: int, t: Table, e: Event, user: string, tenant: string)
    requires e.op.Rotate? && UniqueHashes(t)
    ensures |Active(Apply(max, t, e), user, Some(tenant), e.now)| > |Active(t, user, Some(tenant), e.now)| <==>
            BoundaryRotation(t, e, user, tenant) && e.op.expiresAt > e.now
  {
    var before := Active(t, user, Some(tenant), e.now);
    var after := Active(Apply(max, t, e), user, Some(tenant), e.now);
    if BoundaryRotation(t, e, user, tenant) && e.op.expiresAt > e.now {
      var row := RowOf(t, e.op.presented).value;
      assert after == before + {row} && row !in before;
    } else {
      RotateStep(max, t, e, user, tenant);
      assert after <= before;
      SubsetCard(after, before);
    }
  }

  /** The exception is real: with a limit of one, a rotation at the expiry instant leaves two active sessions. */
  lemma BoundaryRotationExceedsLimit()
    ensures var run := [Event(0, Create(CreateRequest("u", "t", "a", 10), 0, None, 0, 0)),
                        Event(10, Create(CreateRequest("u", "t", "b", 20), 1, None, 10, 10)),
                        Event(10, Rotate("a", "c", 20))];
            IsRun(1, run) && Active(After(1, run, 3), "u", Some("t"), 10) == {0, 1}
  {
    var run := [Event(0, Create(CreateRequest("u", "t", "a", 10), 0, None, 0, 0)),
                Event(10, Create(CreateRequest("u", "t", "b", 20), 1, None, 10, 10)),
                Event(10, Rotate("a", "c", 20))];
    var first, second := Row("t", "u", "a", false, 10, 0), Row("t", "u", "b", false, 20, 10);
    assert Active(map[], "u", Some("t"), 0) == {};
    assert After(1, run, 1) == map[0 := first];
    assert Active(After(1, run, 1), "u", Some("t"), 10) == {};
    assert "b" !in Hashes(After(1, run, 1));
    assert After(1, run, 2) == map[0 := first, 1 := second];
    RowOfUnique(After(1, run, 2), 0);
    assert After(1, run, 3) == map[0 := first.(hash := "c", expiresAt := 20), 1 := second];
  }

  // ----- eviction order -----

  /** Request `k` is a login that pushes out session `victim` of its user and tenant. */
  ghost predicate Evicts(max: int, run: seq<Event>, k: nat, victim: RowId)
    requires k < |run|
  {
    var t, e := After(max, run, k), run[k];
    && e.op.Create?
    && e.op.req.hash !in Hashes(t)
    && e.op.oldest == Some(victim)
    && |Active(t, e.op.req.user, Some(e.op.req.tenant), e.op.countedAt)| >= max
  }

  lemma {:induction false} CreatedInThePast(max: int, run: seq<Event>, n: nat, i: RowId)
    requires IsRun(max, run) && n <= |run| && i in After(max, run, n)
    ensures n > 0 && After(max, run, n)[i].createdAt <= run[n - 1].now
  {
    var t, e := After(max, run, n - 1), run[n - 1];
    if i in t {
      CreatedInThePast(max, run, n - 1, i);
      assert PossibleAt(max, run, n - 1);
      RowStep(max, t, e, i);
    } else {
      NewRowStep(max, t, e, i);
    }
  }

  /** Without a boundary rotation, a session active after a request was active when it ran or is new. */
  lemma ActiveStep(max: int, t: Table, e: Event, user: string, tenant: string, i: RowId, now: int)
    requires Possible(t, e) && e.now <= now && !BoundaryRotation(t, e, user, tenant)
    requires i in Active(Apply(max, t, e), user, Some(tenant), now)
    ensures i !in t ==> Apply(max, t, e)[i].createdAt == e.now
    ensures i in t ==> i in Active(t, user, Some(tenant), e.now) && Apply(max, t, e)[i].createdAt == t[i].createdAt
  {
    if i in t { RowStep(max, t, e, i); } else { NewRowStep(max, t, e, i); }
  }

  ghost predicate BoundaryAt(max: int, run: seq<Event>, m: nat, user: string, tenant: string)
    requires m < |run|
  {
    BoundaryRotation(After(max, run, m), run[m], user, tenant)
  }

  /** None of the user's sessions is rotated at its expiry instant by requests `k` to `n - 1`. */
  ghost predicate NoBoundary(max: int, run: seq<Event>, k: nat, n: nat, user: string, tenant: string)
    requires n <= |run|
  {
    forall m :: k <= m < n ==> !BoundaryAt(max, run, m, user, tenant)
  }

  /** A session active after request `n` was already active at request `k`, or was created at or after it. */
  lemma {:induction false} ActiveOrigin(
      max: int, run: seq<Event>, k: nat, n: nat, user: string, tenant: string, i: RowId, now: int)
    requires IsRun(max, run) && k <= n <= |run| && k < |run| && NoBoundary(max, run, k, n, user, tenant)
    requires run[k].now <= now && (n > 0 ==> run[n - 1].now <= now)
    requires i in Active(After(max, run, n), user, Some(tenant), now)
    ensures run[k].now <= After(max, run, n)[i].createdAt
            || (i in Active(After(max, run, k), user, Some(tenant), run[k].now)
                && After(max, run, k)[i].createdAt == After(max, run, n)[i].createdAt)
  {
    if k < n {
      var t, e := After(max, run, n - 1), run[n - 1];
      assert PossibleAt(max, run, n - 1) && !BoundaryAt(max, run, n - 1, user, tenant);
      ActiveStep(max, t, e, user, tenant, i, now);
      if i in t {
        ActiveOrigin(max, run, k, n - 1, user, tenant, i, e.now);
      }
    }
  }

  /** A session pushed out by the limit is never newer than any session of its user and tenant that is
      active then or later, unless a rotation at an exact expiry instant brought that one back. */
  lemma EvictedIsNeverNewer(max: int, run: seq<Event>, k: nat, n: nat, victim: RowId, i: RowId, now: int)
    requires IsRun(max, run) && k <= n <= |run| && k < |run| && Evicts(max, run, k, victim)
    requires run[k].now <= now && (n > 0 ==> run[n - 1].now <= now)
    requires var req := run[k].op.req;
             && i in Active(After(max, run, n), req.user, Some(req.tenant), now)
             && NoBoundary(max, run, k, n, req.user, req.tenant)
    ensures victim in After(max, run, k)
    ensures After(max, run, k)[victim].createdAt <= After(max, run, n)[i].createdAt
  {
    var req := run[k].op.req;
    assert PossibleAt(max, run, k);
    CreatedInThePast(max, run, k, victim);
    ActiveOrigin(max, run, k, n, req.user, req.tenant, i, now);
    ActiveShrinks(After(max, run, k), req.user, req.tenant, run[k].op.pickedAt, run[k].now);
  }

  // ----- logins only: the latest ones survive -----

  /** The sessions opened for a user and tenant by the first `n` requests, in order. */
  function Logins(run: seq<Event>, n: nat, user: string, tenant: string): seq<RowId>
    requires n <= |run|
  {
    if n == 0 then []
    else
      var op := run[n - 1].op;
      Logins(run, n - 1, user, tenant)
      + (if op.Create? && op.req.user == user && op.req.tenant == tenant then [op.id] else [])
  }

  function Latest(ids: seq<RowId>, count: int): set<RowId> {
    set j | 0 <= j < |ids| && |ids| - count <= j :: ids[j]
  }

  /** Request `n` is a login with a new token that outlives `horizon`. */
  ghost predicate LoginAt(max: int, run: seq<Event>, n: nat, horizon: int)
    requires n < |run|
  {
    && run[n].op.Create?
    && run[n].op.req.hash !in Hashes(After(max, run, n))
    && run[n].now <= horizon < run[n].op.req.expiresAt
  }

  ghost predicate LoginsOnly(max: int, run: seq<Event>, horizon: int) {
    && (forall n :: 0 <= n < |run| ==> LoginAt(max, run, n, horizon))
    && (forall i, j :: 0 <= i < j < |run| ==> run[i].now < run[j].now)
  }

  ghost predicate InOrder(t: Table, ids: seq<RowId>) {
    && (forall j :: 0 <= j < |ids| ==> ids[j] in t)
    && (forall j, k :: 0 <= j < k < |ids| ==> t[ids[j]].createdAt < t[ids[k]].createdAt)
  }

  ghost predicate Distinct(ids: seq<RowId>) { forall j, k :: 0 <= j < k < |ids| ==> ids[j] != ids[k] }

  lemma {:induction false} LatestCard(ids: seq<RowId>, count: nat)
    requires Distinct(ids) && count <= |ids|
    ensures |Latest(ids, count)| == count
  {
    if count == 0 {
      assert Latest(ids, count) == {};
    } else {
      LatestCard(ids, count - 1);
      var next := ids[|ids| - count];
      assert next !in Latest(ids, count - 1);
      assert Latest(ids, count) == Latest(ids, count - 1) + {next};
    }
  }

  lemma InOrderIsDistinct(t: Table, ids: seq<RowId>)
    requires InOrder(t, ids)
    ensures Distinct(ids)
  {
  }

  lemma {:induction false} NoneExpired(max: int, run: seq<Event>, n: nat, horizon: int, i: RowId)
    requires IsRun(max, run) && LoginsOnly(max, run, horizon) && n <= |run| && i in After(max, run, n)
    ensures horizon < After(max, run, n)[i].expiresAt
  {
    var t, e := After(max, run, n - 1), run[n - 1];
    assert PossibleAt(max, run, n - 1) && LoginAt(max, run, n - 1, horizon);
    if i in t {
      NoneExpired(max, run, n - 1, horizon, i);
      RowStep(max, t, e, i);
    } else {
      NewRowStep(max, t, e, i);
    }
  }

  lemma {:induction false} LoginsInOrder(max: int, run: seq<Event>, n: nat, user: string, tenant: string, horizon: int)
    requires IsRun(max, run) && LoginsOnly(max, run, horizon) && n <= |run|
    ensures InOrder(After(max, run, n), Logins(run, n, user, tenant))
  {
    if n > 0 {
      var t, e, ids := After(max, run, n - 1), run[n - 1], Logins(run, n - 1, user, tenant);
      LoginsInOrder(max, run, n - 1, user, tenant, horizon);
      assert PossibleAt(max, run, n - 1) && LoginAt(max, run, n - 1, horizon);
      forall j | 0 <= j < |ids| ensures t[ids[j]].createdAt < e.now {
        CreatedInThePast(max, run, n - 1, ids[j]);
      }
      LoginKeepsOrder(max, t, e, ids);
    }
  }

  lemma LoginKeepsOrder(max: int, t: Table, e: Event, ids: seq<RowId>)
    requires e.op.Create? && Possible(t, e) && InOrder(t, ids) && e.op.req.hash !in Hashes(t)
    requires forall j :: 0 <= j < |ids| ==> t[ids[j]].createdAt < e.now
    ensures InOrder(Apply(max, t, e), ids) && InOrder(Apply(max, t, e), ids + [e.op.id])
  {
    var t' := Apply(max, t, e);
    forall j | 0 <= j < |ids| ensures ids[j] in t' && t'[ids[j]].createdAt == t[ids[j]].createdAt {
      RowStep(max, t, e, ids[j]);
    }
    assert e.op.id in t' && t'[e.op.id].createdAt == e.now;
  }

  /** One login, of this user or another, while none of the user's sessions expires. */
  lemma LatestStep(max: int, t: Table, e: Event, ids: seq<RowId>, user: string, tenant: string)
    requires max >= 1 && e.op.Create? && Possible(t, e) && InOrder(t, ids)
    requires e.op.req.hash !in Hashes(t) && e.now < e.op.req.expiresAt
    requires Active(t, user, Some(tenant), e.op.countedAt) == Latest(ids, max)
    requires Active(t, user, Some(tenant), e.op.pickedAt) == Latest(ids, max)
    requires Active(t, user, Some(tenant), e.now) == Latest(ids, max)
    ensures var own := e.op.req.user == user && e.op.req.tenant == tenant;
            Active(Apply(max, t, e), user, Some(tenant), e.now) == Latest(ids + (if own then [e.op.id] else []), max)
  {
    if e.op.req.user == user && e.op.req.tenant == tenant {
      LoginStep(max, t, e, ids);
    } else {
      OtherLoginStep(max, t, e, user, tenant);
      assert ids + [] == ids;
    }
  }

  /** With logins only and no expiry, a user's active sessions are exactly the latest
      `max_sessions_per_user` logins, or all of them while they are fewer. */
  lemma {:induction false} LatestLoginsSurvive(
      max: int, run: seq<Event>, n: nat, user: string, tenant: string, horizon: int)
    requires max >= 1 && IsRun(max, run) && LoginsOnly(max, run, horizon) && n <= |run|
    ensures Active(After(max, run, n), user, Some(tenant), horizon) == Latest(Logins(run, n, user, tenant), max)
  {
    if n > 0 {
      var e := run[n - 1];
      assert PossibleAt(max, run, n - 1) && LoginAt(max, run, n - 1, horizon);
      LatestLoginsSurvive(max, run, n - 1, user, tenant, horizon);
      ActiveUntilHorizon(max, run, n - 1, user, tenant, horizon, e.op.countedAt);
      ActiveUntilHorizon(max, run, n - 1, user, tenant, horizon, e.op.pickedAt);
      ActiveUntilHorizon(max, run, n - 1, user, tenant, horizon, e.now);
      LoginsInOrder(max, run, n - 1, user, tenant, horizon);
      LatestStep(max, After(max, run, n - 1), e, Logins(run, n - 1, user, tenant), user, tenant);
      ActiveUntilHorizon(max, run, n, user, tenant, horizon, e.now);
    }
  }

  lemma ActiveUntilHorizon(max: int, run: seq<Event>, n: nat, user: string, tenant: string, horizon: int, now: int)
    requires IsRun(max, run) && LoginsOnly(max, run, horizon) && n <= |run| && now <= horizon
    ensures Active(After(max, run, n), user, Some(tenant), horizon)
            == Active(After(max, run, n), user, Some(tenant), now)
  {
    var t := After(max, run, n);
    forall i | i in t ensures horizon < t[i].expiresAt { NoneExpired(max, run, n, horizon, i); }
  }

  lemma OtherLoginStep(max: int, t: Table, e: Event, user: string, tenant: string)
    requires e.op.Create? && Possible(t, e) && (e.op.req.user != user || e.op.req.tenant != tenant)
    ensures Active(Apply(max, t, e), user, Some(tenant), e.now) == Active(t, user, Some(tenant), e.now)
  {
  }

  /** None of the user's sessions expires while the login reads the clock. */
  ghost predicate Steady(t: Table, e: Event, active: set<RowId>)
    requires e.op.Create?
  {
    && Active(t, e.op.req.user, Some(e.op.req.tenant), e.op.countedAt) == active
    && Active(t, e.op.req.user, Some(e.op.req.tenant), e.op.pickedAt) == active
    && Active(t, e.op.req.user, Some(e.op.req.tenant), e.now) == active
  }

  /** A login with a new token replaces the oldest active session when the limit is reached, else adds one. */
  lemma LoginSwaps(max: int, t: Table, e: Event, active: set<RowId>)
    requires e.op.Create? && e.op.id !in t && Steady(t, e, active)
    requires e.op.req.hash !in Hashes(t) && e.now < e.op.req.expiresAt
    ensures Active(Apply(max, t, e), e.op.req.user, Some(e.op.req.tenant), e.now) ==
            (if |active| >= max && e.op.oldest.Some? then active - {e.op.oldest.value} else active) + {e.op.id}
  {
  }

  lemma LoginStep(max: int, t: Table, e: Event, ids: seq<RowId>)
    requires max >= 1 && e.op.Create? && Possible(t, e) && InOrder(t, ids)
    requires e.op.req.hash !in Hashes(t) && e.now < e.op.req.expiresAt
    requires Steady(t, e, Latest(ids, max))
    ensures Active(Apply(max, t, e), e.op.req.user, Some(e.op.req.tenant), e.now) == Latest(ids + [e.op.id], max)
  {
    LoginSwaps(max, t, e, Latest(ids, max));
    LatestOfOneMore(t, ids, e.op.id, max, e.op.oldest);
  }

  lemma LatestOfOneMore(t: Table, ids: seq<RowId>, id: RowId, max: int, oldest: Option<RowId>)
    requires max >= 1 && InOrder(t, ids) && id !in t && IsOldest(t, Latest(ids, max), oldest)
    ensures Latest(ids + [id], max) ==
            (if |Latest(ids, max)| >= max && oldest.Some? then Latest(ids, max) - {oldest.value}
             else Latest(ids, max)) + {id}
  {
    InOrderIsDistinct(t, ids);
    if |ids| >= max {
      LatestCard(ids, max);
      assert ids[|ids| - max] in Latest(ids, max);
      OldestIsFirst(t, ids, max, oldest);
      LatestSlides(t, ids, id, max);
    } else {
      LatestCard(ids, |ids|);
      assert Latest(ids, max) == Latest(ids, |ids|);
      LatestGrows(ids, id, max);
    }
  }

  lemma OldestIsFirst(t: Table, ids: seq<RowId>, max: int, oldest: Option<RowId>)
    requires InOrder(t, ids) && 1 <= max <= |ids| && IsOldest(t, Latest(ids, max), oldest)
    ensures oldest == Some(ids[|ids| - max])
  {
    var first := ids[|ids| - max];
    assert first in Latest(ids, max);
    var j :| 0 <= j < |ids| && |ids| - max <= j && ids[j] == oldest.value;
  }

  lemma LatestSlides(t: Table, ids: seq<RowId>, id: RowId, max: int)
    requires InOrder(t, ids) && 1 <= max <= |ids| && id !in t
    ensures Latest(ids + [id], max) == Latest(ids, max) - {ids[|ids| - max]} + {id}
  {
    var more := ids + [id];
    forall x | x in Latest(ids, max) - {ids[|ids| - max]} + {id} ensures x in Latest(more, max) {
      if x == id {
        assert more[|ids|] == id;
      } else {
        var j :| 0 <= j < |ids| && |ids| - max <= j && ids[j] == x;
        assert more[j] == x;
      }
    }
  }

  lemma LatestGrows(ids: seq<RowId>, id: RowId, max: int)
    requires |ids| < max
    ensures Latest(ids + [id], max) == Latest(ids, max) + {id}
  {
    var more := ids + [id];
    forall x | x in Latest(ids, max) + {id} ensures x in Latest(more, max) {
      if x == id {
        assert more[|ids|] == id;
      } else {
        var j :| 0 <= j < |ids| && ids[j] == x;
        assert more[j] == x;
      }
    }
  }

  // ----- rotation chains -----

  function Introduced(op: Op): set<Hash> {
    match op
    case Create(req, _, _, _, _) => {req.hash}
    case Rotate(_, next, _) => {next}
    case _ => {}
  }

  /** Every new token differs from every token stored before it. */
  ghost predicate FreshTokens(max: int, run: seq<Event>) {
    forall m, n :: 0 <= m <= n < |run| ==> NewSince(max, run, m, n)
  }

  /** The token of request `n` was not in the table before request `m`. */
  ghost predicate NewSince(max: int, run: seq<Event>, m: nat, n: nat)
    requires m <= n < |run|
  {
    Introduced(run[n].op) !! Hashes(After(max, run, m))
  }

  ghost predicate Rotates(max: int, run: seq<Event>, n: nat, presented: Hash)
    requires n < |run|
  {
    && run[n].op.Rotate?
    && run[n].op.presented == presented
    && RotationAccepted(After(max, run, n), presented, run[n].op.next, run[n].now)
  }

  lemma HashesGrowBy(max: int, t: Table, e: Event)
    ensures Hashes(Apply(max, t, e)) <= Hashes(t) + Introduced(e.op)
  {
    var t' := Apply(max, t, e);
    forall i | i in t' ensures t'[i].hash in Hashes(t) + Introduced(e.op) {
      if i in t { assert t[i].hash in Hashes(t); }
    }
  }

  lemma NotIntroduced(max: int, t: Table, e: Event, h: Hash)
    requires h !in Hashes(t) && h !in Introduced(e.op)
    ensures h !in Hashes(Apply(max, t, e))
  {
    HashesGrowBy(max, t, e);
  }

  /** A hash stored once and no longer in the table never comes back. */
  lemma {:induction false} GoneStaysGone(max: int, run: seq<Event>, seen: nat, m: nat, n: nat, h: Hash)
    requires FreshTokens(max, run) && seen <= m <= n <= |run|
    requires h in Hashes(After(max, run, seen)) && h !in Hashes(After(max, run, m))
    ensures h !in Hashes(After(max, run, n))
  {
    if m < n {
      GoneStaysGone(max, run, seen, m, n - 1, h);
      assert NewSince(max, run, seen, n - 1);
      NotIntroduced(max, After(max, run, n - 1), run[n - 1], h);
    }
  }

  lemma RotationSpends(max: int, run: seq<Event>, n: nat, h: Hash)
    requires IsRun(max, run) && FreshTokens(max, run) && n < |run| && Rotates(max, run, n, h)
    ensures h in Hashes(After(max, run, n)) && h !in Hashes(After(max, run, n + 1))
  {
    var t, t' := After(max, run, n), After(max, run, n + 1);
    HashesStayUnique(max, run, n);
    var row := RowOf(t, h).value;
    assert t[row].hash in Hashes(t);
    assert PossibleAt(max, run, n) && NewSince(max, run, n, n);
    assert run[n].op.next in Introduced(run[n].op);
    forall i | i in t' ensures t'[i].hash != h {
      RowStep(max, t, run[n], i);
    }
  }

  /** Single use: no refresh token is rotated successfully twice. */
  lemma TokenRotatedOnce(max: int, run: seq<Event>, i: nat, j: nat, h: Hash)
    requires IsRun(max, run) && FreshTokens(max, run) && i < |run| && j < |run|
    requires Rotates(max, run, i, h) && Rotates(max, run, j, h)
    ensures i == j
  {
    RotationSpends(max, run, i, h);
    RotationSpends(max, run, j, h);
    if i < j {
      GoneStaysGone(max, run, i, i + 1, j, h);
    } else if j < i {
      GoneStaysGone(max, run, j, j + 1, i, h);
    }
  }

  /** The hashes a session has held so far, in order. */
  ghost function Held(max: int, run: seq<Event>, n: nat, id: RowId): seq<Hash>
    requires n <= |run|
  {
    if n == 0 then []
    else
      var held, t := Held(max, run, n - 1, id), After(max, run, n);
      if id in t && (held == [] || held[|held| - 1] != t[id].hash) then held + [t[id].hash] else held
  }

  lemma {:induction false} HeldWasStored(max: int, run: seq<Event>, n: nat, id: RowId, h: Hash) returns (m: nat)
    requires n <= |run| && h in Held(max, run, n, id)
    ensures m <= n && h in Hashes(After(max, run, m))
  {
    if h in Held(max, run, n - 1, id) {
      m := HeldWasStored(max, run, n - 1, id, h);
    } else {
      m := n;
      assert After(max, run, n)[id].hash in Hashes(After(max, run, n));
    }
  }

  /** A session's hash changes only by an accepted rotation that presented the current one. */
  lemma ChainLink(max: int, run: seq<Event>, n: nat, id: RowId)
    requires IsRun(max, run) && n < |run| && id in After(max, run, n)
    ensures id in After(max, run, n + 1)
    ensures var h, h' := After(max, run, n)[id].hash, After(max, run, n + 1)[id].hash;
            h != h' ==> Rotates(max, run, n, h) && run[n].op.next == h'
  {
    HashesStayUnique(max, run, n);
    assert PossibleAt(max, run, n);
    RowStep(max, After(max, run, n), run[n], id);
  }

  lemma HeldIsNotIntroduced(max: int, run: seq<Event>, n: nat, id: RowId, h: Hash)
    requires FreshTokens(max, run) && n < |run| && h in Held(max, run, n, id)
    ensures h !in Introduced(run[n].op)
  {
    var m := HeldWasStored(max, run, n, id, h);
    assert NewSince(max, run, m, n);
  }

  /** A rotation brings a hash that the session never held. */
  lemma RotationIsNews(max: int, run: seq<Event>, n: nat, id: RowId)
    requires IsRun(max, run) && FreshTokens(max, run) && n < |run| && id in After(max, run, n)
    requires After(max, run, n + 1)[id].hash != After(max, run, n)[id].hash
    ensures After(max, run, n + 1)[id].hash !in Held(max, run, n, id)
  {
    ChainLink(max, run, n, id);
    var h := After(max, run, n + 1)[id].hash;
    if h in Held(max, run, n, id) {
      HeldIsNotIntroduced(max, run, n, id, h);
    }
  }

  /** The hashes of a session form one linear chain: it ends in the stored hash and never repeats one. */
  lemma {:induction false} ChainIsLinear(max: int, run: seq<Event>, n: nat, id: RowId)
    requires IsRun(max, run) && FreshTokens(max, run) && n <= |run|
    ensures var held := Held(max, run, n, id);
            && (id in After(max, run, n) <==> held != [])
            && (held != [] ==> held[|held| - 1] == After(max, run, n)[id].hash)
            && forall i, j :: 0 <= i < j < |held| ==> held[i] != held[j]
  {
    if n > 0 {
      ChainIsLinear(max, run, n - 1, id);
      if id in After(max, run, n - 1) {
        ChainLink(max, run, n - 1, id);
        if After(max, run, n)[id].hash != After(max, run, n - 1)[id].hash {
          RotationIsNews(max, run, n - 1, id);
        }
      }
    }
  }

  /** A request that changes a row's hash, or adds the row, introduces the hash. */
  lemma HashStep(max: int, t: Table, e: Event, i: RowId)
    requires Possible(t, e) && i in Apply(max, t, e) && (i in t ==> t[i].hash != Apply(max, t, e)[i].hash)
    ensures Apply(max, t, e)[i].hash in Introduced(e.op)
  {
    if i in t { RowStep(max, t, e, i); } else { NewRowStep(max, t, e, i); }
  }

  /** A hash that enters a chain at request `n` is the stored one from then on. */
  lemma EntersAsStored(max: int, run: seq<Event>, n: nat, id: RowId, h: Hash)
    requires 0 < n <= |run| && h in Held(max, run, n, id) && h !in Held(max, run, n - 1, id)
    ensures id in After(max, run, n) && After(max, run, n)[id].hash == h
  {
  }

  /** And it was brought by that request. */
  lemma EntersAsNew(max: int, run: seq<Event>, n: nat, id: RowId, h: Hash)
    requires IsRun(max, run) && FreshTokens(max, run) && 0 < n <= |run|
    requires h in Held(max, run, n, id) && h !in Held(max, run, n - 1, id)
    ensures h in Introduced(run[n - 1].op)
  {
    var held, t := Held(max, run, n - 1, id), After(max, run, n - 1);
    EntersAsStored(max, run, n, id, h);
    ChainIsLinear(max, run, n - 1, id);
    assert id in t ==> t[id].hash in held;
    assert PossibleAt(max, run, n - 1);
    HashStep(max, t, run[n - 1], id);
  }

  lemma BothEnter(max: int, run: seq<Event>, n: nat, id: RowId, id': RowId, h: Hash)
    requires IsRun(max, run) && 0 < n <= |run|
    requires h in Held(max, run, n, id) && h !in Held(max, run, n - 1, id)
    requires h in Held(max, run, n, id') && h !in Held(max, run, n - 1, id')
    ensures id == id'
  {
    HashesStayUnique(max, run, n);
    EntersAsStored(max, run, n, id, h);
    EntersAsStored(max, run, n, id', h);
  }

  lemma EntersUnheld(max: int, run: seq<Event>, n: nat, id: RowId, other: RowId, h: Hash)
    requires IsRun(max, run) && FreshTokens(max, run) && 0 < n <= |run|
    requires h in Held(max, run, n, id) && h !in Held(max, run, n - 1, id)
    ensures h !in Held(max, run, n - 1, other)
  {
    EntersAsNew(max, run, n, id, h);
    if h in Held(max, run, n - 1, other) { HeldIsNotIntroduced(max, run, n - 1, other, h); }
  }

  /** Chains never meet: no hash is ever held by two sessions. */
  lemma {:induction false} ChainsAreDisjoint(max: int, run: seq<Event>, n: nat, id: RowId, id': RowId, h: Hash)
    requires IsRun(max, run) && FreshTokens(max, run) && n <= |run|
    requires h in Held(max, run, n, id) && h in Held(max, run, n, id')
    ensures id == id'
  {
    var before, before' := h in Held(max, run, n - 1, id), h in Held(max, run, n - 1, id');
    if before && before' {
      ChainsAreDisjoint(max, run, n - 1, id, id', h);
    } else if before {
      EntersUnheld(max, run, n, id', id, h);
    } else if before' {
      EntersUnheld(max, run, n, id, id', h);
    } else {
      BothEnter(max, run, n, id, id', h);
    }
  }
}
