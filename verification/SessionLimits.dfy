/** The session limit under interleaved requests: which steps add a session, and when the limit holds. */
module SessionLimits {
  import opened Prelude
  import opened Sessions
  import opened SessionProtocol
  import SessionRuns

  /** The sessions the limit counts. */
  function Counting(s: State, user: string, tenant: string, now: int): set<RowId> {
    Active(s.table, user, Some(tenant), now)
  }

  /** The step runs at `now`: a step that reads the clock has read this. */
  predicate Happens(e: Step, now: int) {
    match e
    case RotateRead(_, _, _, _, at) => at == now
    case CreateCount(_, _, at) => at == now
    case CreatePick(_, _, at) => at == now
    case CreateWrite(_, _, at) => at == now
    case _ => true
  }

  ghost predicate Timed(steps: seq<Step>, times: seq<int>) {
    && |times| == |steps|
    && (forall n :: 0 <= n < |steps| ==> Happens(steps[n], times[n]))
    && (forall i, j :: 0 <= i <= j < |times| ==> times[i] <= times[j])
  }

  /** The requests of one step are the serialised ones. */
  lemma SingleSteps(max: int, s: State, h: Hash, target: RowId, user: string, now: int)
    ensures Next(max, s, Logout(h)).table ==
            SessionRuns.Apply(max, s.table, SessionRuns.Event(now, SessionRuns.Logout(h)))
    ensures Next(max, s, RevokeOne(target, user)).table ==
            SessionRuns.Apply(max, s.table, SessionRuns.Event(now, SessionRuns.RevokeOne(target, user)))
    ensures Next(max, s, RevokeAll(user)).table ==
            SessionRuns.Apply(max, s.table, SessionRuns.Event(now, SessionRuns.RevokeAll(user)))
  {
  }

  // ----- which steps add a session -----

  /** The last step of a login of this user and tenant. */
  predicate WritesLogin(s: State, e: Step, user: string, tenant: string) {
    && e.CreateWrite? && e.pid in s.pending && s.pending[e.pid].Picked?
    && s.pending[e.pid].req.user == user && s.pending[e.pid].req.tenant == tenant
  }

  /** A login whose victim is missing or no longer active adds its session. */
  predicate LoginAdds(s: State, e: Step, user: string, tenant: string, now: int) {
    && WritesLogin(s, e, user, tenant)
    && now < s.pending[e.pid].req.expiresAt
    && var victim := s.pending[e.pid].victim;
       victim.Some? ==> victim.value !in Counting(s, user, tenant, now)
  }

  /** A rotation written to a row that has expired since it was read brings the session back. */
  predicate RotationRevives(s: State, e: Step, user: string, tenant: string, now: int) {
    && e.RotateWrite? && e.pid in s.pending && s.pending[e.pid].Rotating?
    && var p := s.pending[e.pid];
       && p.row in s.table
       && s.table[p.row].user == user && s.table[p.row].tenant == tenant && !s.table[p.row].revoked
       && s.table[p.row].expiresAt <= now < p.expiresAt
  }

  predicate AddsSession(s: State, e: Step, user: string, tenant: string, now: int) {
    LoginAdds(s, e, user, tenant, now) || RotationRevives(s, e, user, tenant, now)
  }

  lemma LoginCount(before: set<RowId>, after: set<RowId>, victim: Option<RowId>, id: RowId, lives: bool)
    requires id !in before
    requires after == before - (if victim.Some? then {victim.value} else {}) + (if lives then {id} else {})
    ensures |after| > |before| <==> lives && (victim.Some? ==> victim.value !in before)
    ensures |after| <= |before| + 1
  {
    var kept := before - (if victim.Some? then {victim.value} else {});
    assert |kept| == |before| - (if victim.Some? && victim.value in before then 1 else 0);
    assert |after| == |kept| + (if lives then 1 else 0);
  }

  lemma LoginWritten(max: int, s: State, e: Step, user: string, tenant: string, now: int)
    requires Inv(s) && Enabled(max, s, e) && Happens(e, now) && WritesLogin(s, e, user, tenant)
    ensures var p := s.pending[e.pid];
            Counting(Next(max, s, e), user, tenant, now) ==
            Counting(s, user, tenant, now) - (if p.victim.Some? then {p.victim.value} else {})
            + (if now < p.req.expiresAt then {e.id} else {})
  {
  }

  lemma LoginAddsIff(max: int, s: State, e: Step, user: string, tenant: string, now: int)
    requires Inv(s) && Enabled(max, s, e) && Happens(e, now) && WritesLogin(s, e, user, tenant)
    ensures var before, after := Counting(s, user, tenant, now), Counting(Next(max, s, e), user, tenant, now);
            (|after| > |before| <==> LoginAdds(s, e, user, tenant, now)) && |after| <= |before| + 1
  {
    var p := s.pending[e.pid];
    LoginWritten(max, s, e, user, tenant, now);
    LoginCount(Counting(s, user, tenant, now), Counting(Next(max, s, e), user, tenant, now),
               p.victim, e.id, now < p.req.expiresAt);
  }

  lemma RotationAddsIff(max: int, s: State, e: Step, user: string, tenant: string, now: int)
    requires Inv(s) && Enabled(max, s, e) && e.RotateWrite?
    ensures var before, after := Counting(s, user, tenant, now), Counting(Next(max, s, e), user, tenant, now);
            if RotationRevives(s, e, user, tenant, now) then |after| == |before| + 1 else after <= before
  {
    WriteTakesEffect(max, s, e.pid);
    var before, after := Counting(s, user, tenant, now), Counting(Next(max, s, e), user, tenant, now);
    if RotationRevives(s, e, user, tenant, now) {
      var row := s.pending[e.pid].row;
      assert row !in before && after == before + {row};
    }
  }

  lemma OthersOnlyRemove(max: int, s: State, e: Step, user: string, tenant: string, now: int)
    requires Enabled(max, s, e) && !e.RotateWrite? && !WritesLogin(s, e, user, tenant)
    ensures Counting(Next(max, s, e), user, tenant, now) <= Counting(s, user, tenant, now)
  {
  }

  /** Apart from login writes, a step that adds no session only removes some. */
  lemma NothingAdded(max: int, s: State, e: Step, user: string, tenant: string, now: int)
    requires Inv(s) && Enabled(max, s, e) && Happens(e, now)
    requires !AddsSession(s, e, user, tenant, now) && !WritesLogin(s, e, user, tenant)
    ensures Counting(Next(max, s, e), user, tenant, now) <= Counting(s, user, tenant, now)
  {
    if e.RotateWrite? {
      RotationAddsIff(max, s, e, user, tenant, now);
    } else {
      OthersOnlyRemove(max, s, e, user, tenant, now);
    }
  }

  /** A step adds one session if it is a login write without an active victim or a rotation written to an expired
      row, and otherwise adds none: under interleaving there is no third way. */
  lemma AddsSessionIff(max: int, s: State, e: Step, user: string, tenant: string, now: int)
    requires Inv(s) && Enabled(max, s, e) && Happens(e, now)
    ensures var before, after := Counting(s, user, tenant, now), Counting(Next(max, s, e), user, tenant, now);
            (|after| > |before| <==> AddsSession(s, e, user, tenant, now)) && |after| <= |before| + 1
  {
    if WritesLogin(s, e, user, tenant) {
      LoginAddsIff(max, s, e, user, tenant, now);
    } else if RotationRevives(s, e, user, tenant, now) {
      RotationAddsIff(max, s, e, user, tenant, now);
    } else {
      NothingAdded(max, s, e, user, tenant, now);
      SubsetCard(Counting(Next(max, s, e), user, tenant, now), Counting(s, user, tenant, now));
    }
  }

  // ----- within a bound, exactly -----

  /** Right after step `n`. */
  ghost predicate WithinAfter(states: seq<State>, times: seq<int>, user: string, tenant: string, bound: int, n: nat)
    requires n < |times| && |states| == |times| + 1
  {
    |Counting(states[n + 1], user, tenant, times[n])| <= bound
  }

  /** Step `n` adds no session, or finds a place left. */
  ghost predicate RoomAt(states: seq<State>, steps: seq<Step>, times: seq<int>,
                         user: string, tenant: string, bound: int, n: nat)
    requires n < |times| == |steps| && |states| == |times| + 1
  {
    AddsSession(states[n], steps[n], user, tenant, times[n]) ==> |Counting(states[n], user, tenant, times[n])| < bound
  }

  lemma {:induction false} RoomKeepsWithin(max: int, states: seq<State>, steps: seq<Step>, times: seq<int>,
                                           user: string, tenant: string, bound: nat, n: nat, now: int)
    requires IsTrace(max, states, steps) && states[0] == Initial && Timed(steps, times) && n <= |steps|
    requires forall k :: 0 <= k < n ==> RoomAt(states, steps, times, user, tenant, bound, k)
    requires n > 0 ==> times[n - 1] <= now
    ensures |Counting(states[n], user, tenant, now)| <= bound
  {
    if n > 0 {
      var s, e, at := states[n - 1], steps[n - 1], times[n - 1];
      RoomKeepsWithin(max, states, steps, times, user, tenant, bound, n - 1, at);
      InvAlways(max, states, steps, n - 1);
      assert Follows(max, states, steps, n - 1) && RoomAt(states, steps, times, user, tenant, bound, n - 1);
      AddsSessionIff(max, s, e, user, tenant, at);
      ActiveShrinks(states[n].table, user, tenant, at, now);
      SubsetCard(Counting(states[n], user, tenant, now), Counting(states[n], user, tenant, at));
    }
  }

  /** On any interleaved run the sessions stay within a bound if and only if no step adds one while the bound is
      reached. */
  lemma WithinIffRoom(max: int, states: seq<State>, steps: seq<Step>, times: seq<int>,
                      user: string, tenant: string, bound: nat)
    requires IsTrace(max, states, steps) && states[0] == Initial && Timed(steps, times)
    ensures (forall n :: 0 <= n < |steps| ==> WithinAfter(states, times, user, tenant, bound, n)) <==>
            (forall n :: 0 <= n < |steps| ==> RoomAt(states, steps, times, user, tenant, bound, n))
  {
    if forall n :: 0 <= n < |steps| ==> RoomAt(states, steps, times, user, tenant, bound, n) {
      forall n | 0 <= n < |steps| ensures WithinAfter(states, times, user, tenant, bound, n) {
        RoomKeepsWithin(max, states, steps, times, user, tenant, bound, n + 1, times[n]);
      }
    }
    forall n | 0 <= n < |steps| && WithinAfter(states, times, user, tenant, bound, n)
      ensures RoomAt(states, steps, times, user, tenant, bound, n)
    {
      InvAlways(max, states, steps, n);
      assert Follows(max, states, steps, n);
      AddsSessionIff(max, states[n], steps[n], user, tenant, times[n]);
    }
  }

  // ----- a condition that keeps the limit -----

  predicate LoggingIn(s: State, p: Pid, user: string, tenant: string) {
    && p in s.pending && !s.pending[p].Rotating?
    && s.pending[p].req.user == user && s.pending[p].req.tenant == tenant
  }

  predicate StartsLogin(e: Step, user: string, tenant: string) {
    e.CreateCount? && e.req.user == user && e.req.tenant == tenant
  }

  /** At step `n` no second login of the user starts, and no rotation is written to an expired row of theirs. */
  ghost predicate CarefulAt(states: seq<State>, steps: seq<Step>, times: seq<int>, user: string, tenant: string, n: nat)
    requires n < |steps| == |times| && |states| == |steps| + 1
  {
    var s, e := states[n], steps[n];
    && (StartsLogin(e, user, tenant) ==> forall p :: !LoggingIn(s, p, user, tenant))
    && !RotationRevives(s, e, user, tenant, times[n])
  }

  /** What a login remembers still allows its write. */
  ghost predicate Allows(max: int, p: Pending, counting: set<RowId>)
    requires !p.Rotating?
  {
    match p
    case Counted(_, count) => |counting| <= count
    case Picked(_, victim) => |counting| < Max(1, max) || (victim.Some? && victim.value in counting)
  }

  ghost predicate LimitInv(max: int, s: State, user: string, tenant: string, now: int) {
    && |Counting(s, user, tenant, now)| <= Max(1, max)
    && (forall p :: LoggingIn(s, p, user, tenant) ==> Allows(max, s.pending[p], Counting(s, user, tenant, now)))
    && (forall p, q :: LoggingIn(s, p, user, tenant) && LoggingIn(s, q, user, tenant) ==> p == q)
  }

  /** Fewer sessions allow no less. */
  lemma AllowsFewer(max: int, p: Pending, counting: set<RowId>, fewer: set<RowId>)
    requires !p.Rotating? && Allows(max, p, counting) && fewer <= counting && |counting| <= Max(1, max)
    ensures Allows(max, p, fewer)
  {
    SubsetCard(fewer, counting);
  }

  lemma TimePasses(max: int, s: State, user: string, tenant: string, now: int, later: int)
    requires LimitInv(max, s, user, tenant, now) && now <= later
    ensures LimitInv(max, s, user, tenant, later)
  {
    var counting, fewer := Counting(s, user, tenant, now), Counting(s, user, tenant, later);
    ActiveShrinks(s.table, user, tenant, now, later);
    SubsetCard(fewer, counting);
    forall p | LoggingIn(s, p, user, tenant) ensures Allows(max, s.pending[p], fewer) {
      AllowsFewer(max, s.pending[p], counting, fewer);
    }
  }

  /** The login of the user that is under way after a step was so before it, unless the step started it. */
  lemma LoginUnderWay(max: int, s: State, e: Step, p: Pid, user: string, tenant: string)
    requires Enabled(max, s, e) && LoggingIn(Next(max, s, e), p, user, tenant)
    ensures LoggingIn(s, p, user, tenant) || (StartsLogin(e, user, tenant) && e.pid == p)
    ensures WritesLogin(s, e, user, tenant) ==> p != e.pid
  {
  }

  /** Counting and picking leave what they remember in step with the table. */
  lemma LoginProceeds(max: int, s: State, e: Step, user: string, tenant: string, now: int)
    requires Enabled(max, s, e) && Happens(e, now) && LimitInv(max, s, user, tenant, now)
    requires (e.CreateCount? || e.CreatePick?) && LoggingIn(Next(max, s, e), e.pid, user, tenant)
    ensures Allows(max, Next(max, s, e).pending[e.pid], Counting(s, user, tenant, now))
  {
    if e.CreatePick? { assert LoggingIn(s, e.pid, user, tenant); }
  }

  lemma LimitWrite(max: int, s: State, e: Step, user: string, tenant: string, now: int)
    requires Inv(s) && Enabled(max, s, e) && Happens(e, now) && LimitInv(max, s, user, tenant, now)
    requires WritesLogin(s, e, user, tenant)
    ensures LimitInv(max, Next(max, s, e), user, tenant, now)
  {
    assert LoggingIn(s, e.pid, user, tenant);
    AddsSessionIff(max, s, e, user, tenant, now);
    forall p ensures !LoggingIn(Next(max, s, e), p, user, tenant) {
      if LoggingIn(Next(max, s, e), p, user, tenant) { LoginUnderWay(max, s, e, p, user, tenant); }
    }
  }

  lemma LimitStep(max: int, s: State, e: Step, user: string, tenant: string, now: int)
    requires Inv(s) && Enabled(max, s, e) && Happens(e, now) && LimitInv(max, s, user, tenant, now)
    requires !WritesLogin(s, e, user, tenant) && !RotationRevives(s, e, user, tenant, now)
    requires StartsLogin(e, user, tenant) ==> forall p :: !LoggingIn(s, p, user, tenant)
    ensures LimitInv(max, Next(max, s, e), user, tenant, now)
  {
    var s' := Next(max, s, e);
    var counting, fewer := Counting(s, user, tenant, now), Counting(s', user, tenant, now);
    NothingAdded(max, s, e, user, tenant, now);
    SubsetCard(fewer, counting);
    forall p | LoggingIn(s', p, user, tenant) ensures Allows(max, s'.pending[p], fewer) {
      LoginUnderWay(max, s, e, p, user, tenant);
      if (e.CreateCount? || e.CreatePick?) && e.pid == p {
        LoginProceeds(max, s, e, user, tenant, now);
      }
      AllowsFewer(max, s'.pending[p], counting, fewer);
    }
    forall p, q | LoggingIn(s', p, user, tenant) && LoggingIn(s', q, user, tenant) ensures p == q {
      LoginUnderWay(max, s, e, p, user, tenant);
      LoginUnderWay(max, s, e, q, user, tenant);
    }
  }

  lemma {:induction false} LimitInvAlways(max: int, states: seq<State>, steps: seq<Step>, times: seq<int>,
                                          user: string, tenant: string, n: nat, now: int)
    requires IsTrace(max, states, steps) && states[0] == Initial && Timed(steps, times) && n <= |steps|
    requires forall k :: 0 <= k < n ==> CarefulAt(states, steps, times, user, tenant, k)
    requires n > 0 ==> times[n - 1] <= now
    ensures LimitInv(max, states[n], user, tenant, now)
  {
    if n > 0 {
      var s, e, at := states[n - 1], steps[n - 1], times[n - 1];
      LimitInvAlways(max, states, steps, times, user, tenant, n - 1, at);
      InvAlways(max, states, steps, n - 1);
      assert Follows(max, states, steps, n - 1) && CarefulAt(states, steps, times, user, tenant, n - 1);
      if WritesLogin(s, e, user, tenant) {
        LimitWrite(max, s, e, user, tenant, at);
      } else {
        LimitStep(max, s, e, user, tenant, at);
      }
      TimePasses(max, states[n], user, tenant, at, now);
    } else {
      assert Counting(Initial, user, tenant, now) == {};
    }
  }

  /** The session limit under interleaving: when no two logins of a user and tenant overlap and no rotation is
      written to an expired row of theirs, their active sessions never exceed `max(1, max_sessions_per_user)`,
      whatever rotations, logouts, revocations and logins of others interleave. */
  lemma CarefulRunsKeepTheLimit(max: int, states: seq<State>, steps: seq<Step>, times: seq<int>,
                                user: string, tenant: string, n: nat, now: int)
    requires IsTrace(max, states, steps) && states[0] == Initial && Timed(steps, times) && n <= |steps|
    requires forall k :: 0 <= k < n ==> CarefulAt(states, steps, times, user, tenant, k)
    requires n > 0 ==> times[n - 1] <= now
    ensures |Counting(states[n], user, tenant, now)| <= Max(1, max)
  {
    LimitInvAlways(max, states, steps, times, user, tenant, n, now);
  }

  // ----- without overlapping logins, a late rotation still exceeds it -----

  const LoginA: CreateRequest := CreateRequest("u", "t", "a", 10)
  const LoginB: CreateRequest := CreateRequest("u", "t", "b", 20)
  const RowA: Row := Row("t", "u", "a", false, 10, 0)
  const RowB: Row := Row("t", "u", "b", false, 20, 11)
  const Rotation: Pending := Rotating(0, "a", "c", 20)

  /** A session that expires at 10 is read at 9 to be rotated; a login at 11 no longer counts it; then the rotation
      is written. */
  const LateSteps: seq<Step> := [
    CreateCount(0, LoginA, 0), CreatePick(0, None, 0), CreateWrite(0, 0, 0),
    RotateRead(1, "a", "c", 20, 9),
    CreateCount(0, LoginB, 11), CreatePick(0, None, 11), CreateWrite(0, 1, 11),
    RotateWrite(1)]

  const LateTimes: seq<int> := [0, 0, 0, 9, 11, 11, 11, 12]

  const LateStates: seq<State> := [
    Initial,
    State(map[], map[0 := Counted(LoginA, 0)], {"a"}),
    State(map[], map[0 := Picked(LoginA, None)], {"a"}),
    State(map[0 := RowA], map[], {"a"}),
    State(map[0 := RowA], map[1 := Rotation], {"a", "c"}),
    State(map[0 := RowA], map[1 := Rotation, 0 := Counted(LoginB, 0)], {"a", "c", "b"}),
    State(map[0 := RowA], map[1 := Rotation, 0 := Picked(LoginB, None)], {"a", "c", "b"}),
    State(map[0 := RowA, 1 := RowB], map[1 := Rotation], {"a", "c", "b"}),
    State(map[0 := RowA.(hash := "c", expiresAt := 20), 1 := RowB], map[], {"a", "c", "b"})]

  lemma FirstLogin()
    ensures Follows(1, LateStates, LateSteps, 0) && Follows(1, LateStates, LateSteps, 1)
    ensures Follows(1, LateStates, LateSteps, 2)
  {
    assert Active(map[], "u", Some("t"), 0) == {};
    assert LateStates[0] == Initial && LateStates[2].pending[0] == Picked(LoginA, None);
  }

  lemma EarlyRead()
    ensures Follows(1, LateStates, LateSteps, 3)
  {
    RowOfUnique(map[0 := RowA], 0);
    assert LateStates[3].table[0] == RowA;
  }

  lemma SecondLogin()
    ensures Follows(1, LateStates, LateSteps, 4) && Follows(1, LateStates, LateSteps, 5)
    ensures Follows(1, LateStates, LateSteps, 6)
  {
    assert Active(map[0 := RowA], "u", Some("t"), 11) == {};
    assert LateStates[6].pending[0] == Picked(LoginB, None) && "b" !in Hashes(LateStates[6].table);
  }

  lemma LateWrite()
    ensures Follows(1, LateStates, LateSteps, 7)
  {
    assert LateStates[7].pending[1] == Rotation;
  }

  lemma LateRun()
    ensures IsTrace(1, LateStates, LateSteps)
  {
    FirstLogin();
    EarlyRead();
    SecondLogin();
    LateWrite();
    forall n | 0 <= n < |LateSteps| ensures Follows(1, LateStates, LateSteps, n) {
      assert n in {0, 1, 2, 3, 4, 5, 6, 7};
    }
  }

  /** With a limit of one and no two logins overlapping, two sessions are active at the end. */
  lemma LateRotationExceedsLimit()
    ensures IsTrace(1, LateStates, LateSteps) && LateStates[0] == Initial && Timed(LateSteps, LateTimes)
    ensures forall n :: 0 <= n < |LateSteps| && StartsLogin(LateSteps[n], "u", "t") ==>
                          forall p :: !LoggingIn(LateStates[n], p, "u", "t")
    ensures Counting(LateStates[8], "u", "t", 12) == {0, 1}
  {
    LateRun();
  }
}
