/** What the failure counters guarantee over whole runs: serialised, and with many logins in flight. */
module LockoutRuns {
  import opened Prelude
  import opened BruteForce

  // ----- a counter is the length of the latest run of failures -----

  /** A failure recorded on both keys, or a reset of both after a success. */
  datatype Op = Failure(email: Key, ip: Key, at: int) | Success(email: Key, ip: Key, at: int)

  predicate WellKeyed(op: Op) { op.email.EmailKey? && op.ip.IpKey? }

  function After(p: Policy, ops: seq<Op>, n: nat): Counters
    requires n <= |ops|
  {
    if n == 0 then map[]
    else Stepped(p, After(p, ops, n - 1), ops[n - 1])
  }

  predicate Touches(op: Op, k: Key) { op.email == k || op.ip == k }

  /** The operations among the first `n` that concern a key, in order. */
  function Marks(ops: seq<Op>, n: nat, k: Key): seq<Op>
    requires n <= |ops|
  {
    if n == 0 then []
    else if Touches(ops[n - 1], k) then Marks(ops, n - 1, k) + [ops[n - 1]]
    else Marks(ops, n - 1, k)
  }

  /** The last `count` marks are failures less than the lockout apart, and the run cannot be longer: it is
      preceded by a success, by a failure a full lockout earlier, or by nothing. */
  ghost predicate IsLatestRun(p: Policy, marks: seq<Op>, count: nat) {
    var n := |marks|;
    && count <= n
    && (forall i :: n - count <= i < n ==> marks[i].Failure?)
    && (forall i :: n - count <= i < n - 1 ==> marks[i + 1].at - marks[i].at < p.lockout)
    && (count < n ==>
          || marks[n - count - 1].Success?
          || (count > 0 && marks[n - count].at - marks[n - count - 1].at >= p.lockout))
  }

  lemma RunGrows(p: Policy, marks: seq<Op>, count: nat, op: Op)
    requires IsLatestRun(p, marks, count) && op.Failure?
    ensures var joins := count > 0 && op.at - marks[|marks| - 1].at < p.lockout;
            IsLatestRun(p, marks + [op], if joins then count + 1 else 1)
  {
    var more := marks + [op];
    assert |marks| > 0 ==> more[|marks| - 1] == marks[|marks| - 1];
    if count > 0 && count < |marks| {
      assert more[|marks| - count] == marks[|marks| - count] && more[|marks| - count - 1] == marks[|marks| - count - 1];
    }
  }

  function Count(c: Counters, k: Key): nat { if k in c then c[k].count else 0 }

  /** A stored counter against the marks of its key: it counts the latest run of failures, and expires one
      lockout after the last of them. */
  ghost predicate Tracks(p: Policy, c: Counters, k: Key, marks: seq<Op>) {
    && (k in c <==> marks != [] && marks[|marks| - 1].Failure?)
    && IsLatestRun(p, marks, Count(c, k))
    && (k in c ==> c[k].expiresAt == Some(marks[|marks| - 1].at + p.lockout))
  }

  function Stepped(p: Policy, c: Counters, op: Op): Counters {
    match op
    case Failure(email, ip, at) => Recorded(p, c, email, ip, at)
    case Success(email, ip, _) => c - {email, ip}
  }

  lemma FailureTracked(p: Policy, c: Counters, k: Key, marks: seq<Op>, op: Op)
    requires WellKeyed(op) && Touches(op, k) && op.Failure? && Tracks(p, c, k, marks)
    ensures Tracks(p, Stepped(p, c, op), k, marks + [op])
  {
    RunGrows(p, marks, Count(c, k), op);
    assert Stepped(p, c, op)[k] == Counter(Live(c, k, op.at) + 1, Some(op.at + p.lockout));
  }

  lemma SuccessTracked(p: Policy, c: Counters, k: Key, marks: seq<Op>, op: Op)
    requires Touches(op, k) && op.Success?
    ensures Tracks(p, Stepped(p, c, op), k, marks + [op])
  {
  }

  lemma OthersTracked(p: Policy, c: Counters, k: Key, marks: seq<Op>, op: Op)
    requires !Touches(op, k) && Tracks(p, c, k, marks)
    ensures Tracks(p, Stepped(p, c, op), k, marks)
  {
    var after := Stepped(p, c, op);
    assert (k in after <==> k in c) && (k in c ==> after[k] == c[k]);
  }

  lemma {:induction false} TracksAlways(p: Policy, ops: seq<Op>, n: nat, k: Key)
    requires n <= |ops| && forall i :: 0 <= i < |ops| ==> WellKeyed(ops[i])
    ensures Tracks(p, After(p, ops, n), k, Marks(ops, n, k))
  {
    if n > 0 {
      TracksAlways(p, ops, n - 1, k);
      var op, before, marks := ops[n - 1], After(p, ops, n - 1), Marks(ops, n - 1, k);
      assert WellKeyed(op);
      if !Touches(op, k) {
        OthersTracked(p, before, k, marks, op);
      } else if op.Failure? {
        FailureTracked(p, before, k, marks, op);
      } else {
        SuccessTracked(p, before, k, marks, op);
      }
    }
  }

  /** There is only one latest run. */
  lemma LatestRunIsUnique(p: Policy, marks: seq<Op>, a: nat, b: nat)
    requires IsLatestRun(p, marks, a) && IsLatestRun(p, marks, b)
    ensures a == b
  {
  }

  lemma OnlyRunTracked(p: Policy, c: Counters, k: Key, marks: seq<Op>, count: nat)
    requires Tracks(p, c, k, marks)
    ensures IsLatestRun(p, marks, count) <==> count == Count(c, k)
  {
    if IsLatestRun(p, marks, count) { LatestRunIsUnique(p, marks, count, Count(c, k)); }
  }

  /** After any log the stored counter of a key is the length of its latest run of failures and of nothing else,
      and expires one lockout after the last of them. */
  lemma CounterIsLatestRun(p: Policy, ops: seq<Op>, n: nat, k: Key, count: nat)
    requires n <= |ops| && forall i :: 0 <= i < |ops| ==> WellKeyed(ops[i])
    ensures Tracks(p, After(p, ops, n), k, Marks(ops, n, k))
    ensures IsLatestRun(p, Marks(ops, n, k), count) <==> count == Count(After(p, ops, n), k)
  {
    var c, marks := After(p, ops, n), Marks(ops, n, k);
    TracksAlways(p, ops, n, k);
    OnlyRunTracked(p, c, k, marks, count);
  }

  /** The latest run of failures of a key is unexpired at `now` and at least `threshold` long. */
  ghost predicate LongRun(p: Policy, marks: seq<Op>, threshold: int, now: int) {
    exists count: nat ::
      IsLatestRun(p, marks, count) && count >= Max(1, threshold) && now < marks[|marks| - 1].at + p.lockout
  }

  lemma LockedIffLongRun(p: Policy, c: Counters, k: Key, marks: seq<Op>, now: int)
    requires Tracks(p, c, k, marks)
    ensures Locked(p, c, k, now) <==>
            LongRun(p, marks, if k.EmailKey? then p.maxAttempts else 3 * p.maxAttempts, now)
  {
    assert IsLatestRun(p, marks, Count(c, k));
    forall count: nat | IsLatestRun(p, marks, count) ensures count == Count(c, k) {
      OnlyRunTracked(p, c, k, marks, count);
    }
  }

  /** After any log a login is refused if and only if the account has an unexpired latest run of at least
      `max_attempts` failures, or the address one of at least three times as many. */
  lemma RefusedIffLongRun(p: Policy, ops: seq<Op>, n: nat, l: Login)
    requires n <= |ops| && forall i :: 0 <= i < |ops| ==> WellKeyed(ops[i])
    requires l.email.EmailKey? && l.ip.IpKey?
    ensures Refused(p, After(p, ops, n), l) <==>
            || LongRun(p, Marks(ops, n, l.email), p.maxAttempts, l.checkAt)
            || LongRun(p, Marks(ops, n, l.ip), 3 * p.maxAttempts, l.checkAt)
  {
    TracksAlways(p, ops, n, l.email);
    TracksAlways(p, ops, n, l.ip);
    LockedIffLongRun(p, After(p, ops, n), l.email, Marks(ops, n, l.email), l.checkAt);
    LockedIffLongRun(p, After(p, ops, n), l.ip, Marks(ops, n, l.ip), l.checkAt);
  }

  // ----- serialised logins: failures are spread out -----

  datatype Outcome = Fails | Succeeds | Aborts

  /** One login: checked at `checkAt` and, unless refused, settled at `settleAt`; an abort records nothing. */
  datatype Login = Login(email: Key, ip: Key, checkAt: int, settleAt: int, outcome: Outcome)

  predicate Refused(p: Policy, c: Counters, l: Login) {
    Locked(p, c, l.email, l.checkAt) || Locked(p, c, l.ip, l.checkAt)
  }

  function Settled(p: Policy, c: Counters, l: Login): Counters {
    if Refused(p, c, l) then c
    else match l.outcome
      case Fails => Stepped(p, c, Failure(l.email, l.ip, l.settleAt))
      case Succeeds => Stepped(p, c, Success(l.email, l.ip, l.settleAt))
      case Aborts => c
  }

  /** auth-service's `login`, as far as the counters go: an unknown address aborts without being recorded;
      a missing credential or a wrong password is a failure; `suspicious` follows a near-lockout. */
  method ServeLogin(guard: LoginGuard, tenant: string, email: string, ip: string,
                    profileExists: bool, credentialExists: bool, passwordMatches: bool, checkAt: int, settleAt: int)
    returns (status: int, suspicious: bool)
    modifies guard
    ensures var outcome := if !profileExists then Aborts
                           else if credentialExists && passwordMatches then Succeeds else Fails;
            var l := Login(EmailKey(tenant, guard.lower(email)), IpKey(tenant, ip), checkAt, settleAt, outcome);
            && guard.counters == Settled(guard.policy, old(guard.counters), l)
            && status == (if Refused(guard.policy, old(guard.counters), l) then 429
                          else if outcome.Succeeds? then 200 else 401)
            && (suspicious <==>
                status == 200 && Live(old(guard.counters), l.email, settleAt) >= guard.policy.maxAttempts - 1)
  {
    suspicious := false;
    var retryAfter := guard.CheckBruteForce(tenant, email, ip, checkAt);
    if retryAfter.Some? { return 429, false; }
    if !profileExists { return 401, false; }
    if !credentialExists || !passwordMatches {
      guard.RecordFailedAttempt(tenant, email, ip, settleAt);
      return 401, false;
    }
    var failedAttempts := guard.GetFailedAttemptsCount(tenant, email, settleAt);
    guard.ResetBruteForce(tenant, email, ip);
    status, suspicious := 200, failedAttempts >= guard.policy.maxAttempts - 1;
  }

  /** A login that does not succeed counts against its account and its address if and only if it got as far as a
      failure, past both checks and with a profile, and the lockout is longer than nothing. */
  lemma FailureCountsIff(p: Policy, c: Counters, l: Login, k: Key)
    requires l.email.EmailKey? && l.ip.IpKey? && (l.email == k || l.ip == k)
    requires Refused(p, c, l) || !l.outcome.Succeeds?
    ensures Live(Settled(p, c, l), k, l.settleAt) == Live(c, k, l.settleAt) + 1 <==>
            !Refused(p, c, l) && l.outcome.Fails? && p.lockout > 0
  {
  }

  function Serve(p: Policy, logins: seq<Login>, n: nat): Counters
    requires n <= |logins|
  {
    if n == 0 then map[] else Settled(p, Serve(p, logins, n - 1), logins[n - 1])
  }

  predicate Concerns(l: Login, k: Key) { l.email == k || l.ip == k }

  /** The login records a failure against the key. */
  predicate FailsAgainst(p: Policy, c: Counters, l: Login, k: Key) {
    Concerns(l, k) && l.outcome.Fails? && !Refused(p, c, l)
  }

  /** When the failures recorded against an account or an address happened. */
  function FailureTimes(p: Policy, logins: seq<Login>, n: nat, k: Key): seq<int>
    requires n <= |logins|
  {
    if n == 0 then []
    else
      var l := logins[n - 1];
      FailureTimes(p, logins, n - 1, k)
      + (if FailsAgainst(p, Serve(p, logins, n - 1), l, k) then [l.settleAt] else [])
  }

  ghost predicate Serialised(logins: seq<Login>) {
    && (forall i :: 0 <= i < |logins| ==>
          logins[i].email.EmailKey? && logins[i].ip.IpKey? && logins[i].checkAt <= logins[i].settleAt)
    && (forall i, j :: 0 <= i < j < |logins| ==> logins[i].settleAt <= logins[j].checkAt)
  }

  ghost predicate NoSuccess(logins: seq<Login>, k: Key) {
    forall i :: 0 <= i < |logins| && Concerns(logins[i], k) ==> !logins[i].outcome.Succeeds?
  }

  /** Sorted, and any `max + 1` consecutive entries span at least `gap`. */
  ghost predicate Spread(times: seq<int>, max: nat, gap: int) {
    && (forall i, j :: 0 <= i <= j < |times| ==> times[i] <= times[j])
    && (forall i :: 0 <= i && i + max < |times| ==> times[i + max] - times[i] >= gap)
  }

  /** The counter of a key without a success, against the failures recorded so far. */
  ghost predicate CounterInv(p: Policy, c: Counters, k: Key, times: seq<int>) {
    var n := |times|;
    && Spread(times, Tolerated(p, k), p.lockout)
    && (k in c <==> n > 0)
    && (n > 0 ==>
          && c[k].expiresAt == Some(times[n - 1] + p.lockout)
          && c[k].count <= n && c[k].count <= Tolerated(p, k)
          && (c[k].count < n ==> times[n - c[k].count] - times[n - c[k].count - 1] >= p.lockout))
  }

  lemma FailureKeepsSpread(times: seq<int>, max: nat, gap: nat, at: int, streak: nat)
    requires Spread(times, max, gap) && streak < max && streak <= |times|
    requires |times| > 0 ==> times[|times| - 1] <= at
    requires 0 < streak < |times| ==> times[|times| - streak] - times[|times| - streak - 1] >= gap
    requires streak == 0 && |times| > 0 ==> at - times[|times| - 1] >= gap
    ensures Spread(times + [at], max, gap)
  {
    var n, more := |times|, times + [at];
    if n >= max && streak > 0 {
      assert more[n - max] == times[n - max] <= times[n - streak - 1];
      assert times[n - streak] <= at;
    }
  }

  /** A failure recorded against the key. */
  lemma FailureStep(p: Policy, c: Counters, k: Key, times: seq<int>, checkAt: int, at: int)
    requires CounterInv(p, c, k, times) && checkAt <= at && !Locked(p, c, k, checkAt)
    requires |times| > 0 ==> times[|times| - 1] <= checkAt
    ensures CounterInv(p, Bumped(p, c, k, at), k, times + [at])
  {
    var streak := Live(c, k, at);
    assert streak <= Live(c, k, checkAt) < Tolerated(p, k);
    FailureKeepsSpread(times, Tolerated(p, k), p.lockout, at, streak);
  }

  /** Any login that records no failure against the key leaves its counter alone. */
  lemma OtherLogin(p: Policy, c: Counters, k: Key, l: Login)
    requires (Concerns(l, k) ==> !l.outcome.Succeeds?) && !FailsAgainst(p, c, l, k)
    ensures var c' := Settled(p, c, l); (k in c' <==> k in c) && (k in c ==> c'[k] == c[k])
  {
  }

  lemma OwnFailure(p: Policy, c: Counters, k: Key, l: Login)
    requires l.email.EmailKey? && l.ip.IpKey? && FailsAgainst(p, c, l, k)
    ensures !Locked(p, c, k, l.checkAt)
    ensures var c', b := Settled(p, c, l), Bumped(p, c, k, l.settleAt); k in c' && c'[k] == b[k]
  {
  }

  lemma CounterStep(p: Policy, c: Counters, k: Key, times: seq<int>, l: Login)
    requires l.email.EmailKey? && l.ip.IpKey?
    requires CounterInv(p, c, k, times) && l.checkAt <= l.settleAt
    requires |times| > 0 ==> times[|times| - 1] <= l.checkAt
    requires Concerns(l, k) ==> !l.outcome.Succeeds?
    ensures CounterInv(p, Settled(p, c, l), k, times + (if FailsAgainst(p, c, l, k) then [l.settleAt] else []))
  {
    if FailsAgainst(p, c, l, k) {
      OwnFailure(p, c, k, l);
      FailureStep(p, c, k, times, l.checkAt, l.settleAt);
    } else {
      assert times + [] == times;
      OtherLogin(p, c, k, l);
    }
  }

  lemma {:induction false} CounterInvAlways(p: Policy, logins: seq<Login>, n: nat, k: Key)
    requires Serialised(logins) && NoSuccess(logins, k) && n <= |logins|
    ensures CounterInv(p, Serve(p, logins, n), k, FailureTimes(p, logins, n, k))
    ensures forall i, t :: n <= i < |logins| && t in FailureTimes(p, logins, n, k) ==> t <= logins[i].checkAt
  {
    if n > 0 {
      CounterInvAlways(p, logins, n - 1, k);
      var times := FailureTimes(p, logins, n - 1, k);
      assert |times| > 0 ==> times[|times| - 1] in times;
      CounterStep(p, Serve(p, logins, n - 1), k, times, logins[n - 1]);
      forall i, t | n <= i < |logins| && t in FailureTimes(p, logins, n, k) ensures t <= logins[i].checkAt {
        if t in times {
          assert t <= logins[n - 1].checkAt;
        }
      }
    }
  }

  lemma {:induction false} SpreadFar(times: seq<int>, max: nat, gap: nat, i: nat, windows: nat)
    requires Spread(times, max, gap) && i + windows * max < |times|
    ensures times[i + windows * max] - times[i] >= windows * gap
  {
    if windows > 0 {
      assert windows * max == (windows - 1) * max + max;
      assert windows * gap == (windows - 1) * gap + gap;
      SpreadFar(times, max, gap, i, windows - 1);
      var j := i + (windows - 1) * max;
      assert 0 <= j && j + max < |times|;
    }
  }

  function InWindow(times: seq<int>, from: int, length: int): set<int> {
    set i | 0 <= i < |times| && from <= times[i] < from + length
  }

  function Range(lo: int, size: nat): set<int> { if size == 0 then {} else Range(lo, size - 1) + {lo + size - 1} }

  lemma {:induction false} RangeCard(lo: int, size: nat)
    ensures |Range(lo, size)| == size && forall i :: i in Range(lo, size) <==> lo <= i < lo + size
  {
    if size > 0 {
      RangeCard(lo, size - 1);
    }
  }

  /** The first index of the window at or after `n`, or the end. */
  lemma {:induction false} FirstHit(times: seq<int>, from: int, length: int, n: nat) returns (first: nat)
    requires n <= |times|
    ensures n <= first <= |times| && (first < |times| ==> first in InWindow(times, from, length))
    ensures forall i :: n <= i && i in InWindow(times, from, length) ==> first <= i
    decreases |times| - n
  {
    if n == |times| || n in InWindow(times, from, length) {
      first := n;
    } else {
      first := FirstHit(times, from, length, n + 1);
    }
  }

  /** The lockout bound: with serialised logins and no success on the account, any half-open window of `windows`
      lockouts holds at most `windows * max_attempts` recorded failures, and three times as many for an address
      without a success; a maximum of 0 acts as a threshold of 1. */
  lemma FailuresPerWindow(p: Policy, logins: seq<Login>, k: Key, from: int, windows: nat)
    requires Serialised(logins) && NoSuccess(logins, k)
    ensures |InWindow(FailureTimes(p, logins, |logins|, k), from, windows * p.lockout)| <=
            windows * Max(1, if k.EmailKey? then p.maxAttempts else 3 * p.maxAttempts)
  {
    CounterInvAlways(p, logins, |logins|, k);
    var times := FailureTimes(p, logins, |logins|, k);
    assert Tolerated(p, k) == Max(1, if k.EmailKey? then p.maxAttempts else 3 * p.maxAttempts);
    WindowHits(times, Tolerated(p, k), p.lockout, from, windows);
  }

  lemma WindowHits(times: seq<int>, max: nat, gap: nat, from: int, windows: nat)
    requires Spread(times, max, gap)
    ensures |InWindow(times, from, windows * gap)| <= windows * max
  {
    var hits, most := InWindow(times, from, windows * gap), windows * max;
    var first := FirstHit(times, from, windows * gap, 0);
    if first + most < |times| {
      SpreadFar(times, max, gap, first, windows);
      assert times[first + most] >= from + windows * gap;
    }
    RangeCard(first, most);
    assert hits <= Range(first, most);
    SubsetCard(hits, Range(first, most));
  }

  // ----- logins in flight -----

  /** A login between its steps: past the account check, or past both checks. */
  datatype Flight = Flight(email: Key, ip: Key, passed: bool)

  datatype State = State(counters: Counters, flights: map<nat, Flight>, now: int)

  datatype Action =
    | CheckEmail(pid: nat, email: Key, ip: Key)
    | CheckIp(pid: nat)
    | Fail(pid: nat)
    | Succeed(pid: nat)
    | Abort(pid: nat)

  datatype Step = Step(now: int, action: Action)

  predicate Enabled(s: State, e: Step) {
    && s.now <= e.now
    && match e.action
       case CheckEmail(pid, email, ip) => pid !in s.flights && email.EmailKey? && ip.IpKey?
       case CheckIp(pid) => pid in s.flights && !s.flights[pid].passed
       case Fail(pid) => pid in s.flights && s.flights[pid].passed
       case Succeed(pid) => pid in s.flights && s.flights[pid].passed
       case Abort(pid) => pid in s.flights
  }

  function Next(p: Policy, s: State, e: Step): State
    requires Enabled(s, e)
  {
    match e.action
    case CheckEmail(pid, email, ip) =>
      if Locked(p, s.counters, email, e.now) then s.(now := e.now)
      else State(s.counters, s.flights[pid := Flight(email, ip, false)], e.now)
    case CheckIp(pid) =>
      if Locked(p, s.counters, s.flights[pid].ip, e.now) then State(s.counters, s.flights - {pid}, e.now)
      else State(s.counters, s.flights[pid := s.flights[pid].(passed := true)], e.now)
    case Fail(pid) =>
      var f := s.flights[pid];
      State(Stepped(p, s.counters, Failure(f.email, f.ip, e.now)), s.flights - {pid}, e.now)
    case Succeed(pid) =>
      var f := s.flights[pid];
      State(Stepped(p, s.counters, Success(f.email, f.ip, e.now)), s.flights - {pid}, e.now)
    case Abort(pid) => State(s.counters, s.flights - {pid}, e.now)
  }

  /** The logins in flight that have passed the check of a key and may still bump it. */
  function Watching(s: State, k: Key): set<nat> {
    set p | p in s.flights && (s.flights[p].email == k || (s.flights[p].passed && s.flights[p].ip == k))
  }

  ghost predicate Bounded(p: Policy, s: State, k: Key, inFlight: nat) {
    Live(s.counters, k, s.now) + |Watching(s, k)| <= Tolerated(p, k) - 1 + inFlight
  }

  ghost predicate WellFormed(s: State) {
    forall p :: p in s.flights ==> s.flights[p].email.EmailKey? && s.flights[p].ip.IpKey?
  }

  lemma WatchersAreFlights(s: State, k: Key)
    ensures |Watching(s, k)| <= |s.flights|
  {
    SubsetCard(Watching(s, k), s.flights.Keys);
  }

  /** A check adds a watcher of a key only when it found the key below its threshold. */
  lemma CheckAddsWatcher(p: Policy, s: State, e: Step, k: Key)
    requires Enabled(s, e) && (e.action.CheckEmail? || e.action.CheckIp?)
    ensures Watching(Next(p, s, e), k) <= Watching(s, k) || Live(s.counters, k, e.now) < Tolerated(p, k)
    ensures Next(p, s, e).counters == s.counters && Next(p, s, e).now == e.now
  {
  }

  lemma LiveShrinks(c: Counters, k: Key, now: int, later: int)
    requires now <= later
    ensures Live(c, k, later) <= Live(c, k, now)
  {
  }

  lemma BoundedCheck(p: Policy, s: State, e: Step, k: Key, inFlight: nat)
    requires Enabled(s, e) && Bounded(p, s, k, inFlight) && (e.action.CheckEmail? || e.action.CheckIp?)
    requires |Next(p, s, e).flights| <= inFlight
    ensures Bounded(p, Next(p, s, e), k, inFlight)
  {
    CheckAddsWatcher(p, s, e, k);
    LiveShrinks(s.counters, k, s.now, e.now);
    WatchersAreFlights(Next(p, s, e), k);
    if Watching(Next(p, s, e), k) <= Watching(s, k) {
      SubsetCard(Watching(Next(p, s, e), k), Watching(s, k));
    }
  }

  lemma FailBumps(p: Policy, s: State, e: Step, k: Key)
    requires WellFormed(s) && Enabled(s, e) && e.action.Fail?
    ensures Live(Next(p, s, e).counters, k, e.now) <=
            Live(s.counters, k, e.now) + (if e.action.pid in Watching(s, k) then 1 else 0)
  {
  }

  lemma BoundedSettle(p: Policy, s: State, e: Step, k: Key, inFlight: nat)
    requires WellFormed(s) && Enabled(s, e) && Bounded(p, s, k, inFlight)
    requires !e.action.CheckEmail? && !e.action.CheckIp?
    ensures Bounded(p, Next(p, s, e), k, inFlight)
  {
    assert Watching(Next(p, s, e), k) == Watching(s, k) - {e.action.pid};
    LiveShrinks(s.counters, k, s.now, e.now);
    if e.action.Fail? { FailBumps(p, s, e, k); }
  }

  ghost predicate IsTrace(p: Policy, states: seq<State>, steps: seq<Step>, inFlight: nat) {
    && |states| == |steps| + 1
    && states[0] == State(map[], map[], 0)
    && forall n :: 0 <= n < |steps| ==> Follows(p, states, steps, inFlight, n)
  }

  ghost predicate Follows(p: Policy, states: seq<State>, steps: seq<Step>, inFlight: nat, n: nat)
    requires n < |steps| && |states| == |steps| + 1
  {
    Enabled(states[n], steps[n]) && states[n + 1] == Next(p, states[n], steps[n]) && |states[n + 1].flights| <= inFlight
  }

  lemma {:induction false} BoundedAlways(
      p: Policy, states: seq<State>, steps: seq<Step>, inFlight: nat, n: nat, k: Key)
    requires IsTrace(p, states, steps, inFlight) && n <= |steps|
    ensures WellFormed(states[n]) && Bounded(p, states[n], k, inFlight)
  {
    if n == 0 {
      assert Watching(states[0], k) == {};
    } else {
      BoundedAlways(p, states, steps, inFlight, n - 1, k);
      assert Follows(p, states, steps, inFlight, n - 1);
      var s, e := states[n - 1], steps[n - 1];
      if e.action.CheckEmail? || e.action.CheckIp? {
        BoundedCheck(p, s, e, k, inFlight);
      } else {
        BoundedSettle(p, s, e, k, inFlight);
      }
    }
  }

  /** With at most `inFlight` logins in flight, no counter, nor the failures still to come from the logins that have
      passed its check added to it, ever exceeds its threshold less one plus
      `inFlight`: `max_attempts - 1 + inFlight` for an account, `3 * max_attempts - 1 + inFlight` for an address
      (a maximum of 0 acts as a threshold of 1). */
  lemma OvershootBound(p: Policy, states: seq<State>, steps: seq<Step>, inFlight: nat, n: nat, k: Key)
    requires IsTrace(p, states, steps, inFlight) && n <= |steps|
    ensures Live(states[n].counters, k, states[n].now) + |Watching(states[n], k)| <=
            Max(1, if k.EmailKey? then p.maxAttempts else 3 * p.maxAttempts) - 1 + inFlight
  {
    BoundedAlways(p, states, steps, inFlight, n, k);
  }

  /** The steps of a login run back to back are the serialised login. */
  lemma LoginBackToBack(p: Policy, s: State, pid: nat, l: Login)
    requires pid !in s.flights && l.email.EmailKey? && l.ip.IpKey? && s.now <= l.checkAt <= l.settleAt
    ensures var s1 := Next(p, s, Step(l.checkAt, CheckEmail(pid, l.email, l.ip)));
            var s2 := if pid in s1.flights then Next(p, s1, Step(l.checkAt, CheckIp(pid))) else s1;
            var settle := match l.outcome
                          case Fails => Fail(pid)
                          case Succeeds => Succeed(pid)
                          case Aborts => Abort(pid);
            var s3 := if pid in s2.flights then Next(p, s2, Step(l.settleAt, settle)) else s2;
            && (pid in s2.flights <==> !Refused(p, s.counters, l))
            && s3.counters == Settled(p, s.counters, l) && s3.flights == s.flights
  {
  }
}
