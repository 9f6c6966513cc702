/**
 API-key resolution under interleaved requests.

 A verification looks in the cache, reads the key row, reads the application row and stores the
 result, each at its own time; revocations commit and later delete the cached entry; updates only
 commit. `Config.delay` bounds the time from a verification's first read to its store.
 */
module ApiKeyCache {
  import opened Prelude
  import opened Origins
  import opened ApiKeys

  datatype Config = Config(sha: Sha, ttl: Positive, delay: nat)

  /** A verification between its steps, with what it has read and when. */
  datatype Flight =
    | Missed(keyId: string, secret: string)
    | KeyRead(keyId: string, secret: string, row: KeyRow, since: int)
    | BothRead(keyId: string, secret: string, row: KeyRow, resolution: Resolution, since: int)

  /** The database as it stood at some time. */
  datatype Snapshot = Snapshot(time: int, db: Database)

  /** An accepting answer: which secret, for which key, with which resolution, when. */
  datatype Accept = Accept(keyId: string, secret: string, resolution: Resolution, at: int)

  /** `history` records the database at every step; `accepts` every accepting answer given. */
  datatype State = State(db: Database, cache: Cache, flights: map<nat, Flight>, now: int,
                         history: seq<Snapshot>, accepts: seq<Accept>)

  datatype Action =
    | LookUp(pid: nat, fullKey: string, secret: string)
    | ReadKey(pid: nat)
    | ReadApplication(pid: nat)
    | SetCache(pid: nat)
    | CommitCall(call: Call)
    | Invalidate(keyId: string)

  datatype Step = Step(now: int, action: Action)

  const Initial: State := State(Database(map[], map[]), map[], map[], 0, [], [])

  predicate Enabled(c: Config, s: State, e: Step) {
    && s.now <= e.now
    && match e.action
       case LookUp(pid, _, _) => pid !in s.flights
       case ReadKey(pid) => pid in s.flights && s.flights[pid].Missed?
       case ReadApplication(pid) => pid in s.flights && s.flights[pid].KeyRead?
       case SetCache(pid) => pid in s.flights && s.flights[pid].BothRead? && e.now <= s.flights[pid].since + c.delay
       case CommitCall(call) => !call.Verify?
       case Invalidate(_) => true
  }

  /** The part of a step that is not bookkeeping. */
  function Act(c: Config, s: State, e: Step): State
    requires Enabled(c, s, e)
  {
    match e.action
    case LookUp(pid, full, secret) =>
      var id := GetKeyId(full);
      if id.None? then s
      else (match Lookup(s.cache, id.value, e.now)
        case None => s.(flights := s.flights[pid := Missed(id.value, secret)])
        case Some(entry) =>
          match EntryAnswer(c.sha, entry, id.value, secret)
          case Accepted(r) => s.(accepts := s.accepts + [Accept(id.value, secret, r, e.now)])
          case _ => s)
    case ReadKey(pid) =>
      var f := s.flights[pid];
      if f.keyId in s.db.keys && s.db.keys[f.keyId].active
          && VerifyApiKey(c.sha, f.secret, s.db.keys[f.keyId].keyHash, f.keyId)
      then s.(flights := s.flights[pid := KeyRead(f.keyId, f.secret, s.db.keys[f.keyId], e.now)])
      else s.(flights := s.flights - {pid})
    case ReadApplication(pid) =>
      var f := s.flights[pid];
      var id := f.row.application;
      if id in s.db.applications && s.db.applications[id].active
      then var r := Resolution(s.db.applications[id].tenant, id, f.row.keyType, s.db.applications[id].origins);
           s.(flights := s.flights[pid := BothRead(f.keyId, f.secret, f.row, r, f.since)])
      else s.(flights := s.flights - {pid})
    case SetCache(pid) =>
      var f := s.flights[pid];
      s.(cache := s.cache[f.keyId := Entry(f.resolution, true, Some(f.row.keyHash), e.now + c.ttl)],
         flights := s.flights - {pid},
         accepts := s.accepts + [Accept(f.keyId, f.secret, f.resolution, e.now)])
    case CommitCall(call) => s.(db := Commit(c.sha, s.db, call))
    case Invalidate(k) => s.(cache := s.cache - {k})
  }

  function Next(c: Config, s: State, e: Step): State
    requires Enabled(c, s, e)
  {
    var s' := Act(c, s, e);
    s'.(now := e.now, history := s.history + [Snapshot(e.now, s'.db)])
  }

  ghost predicate Follows(c: Config, states: seq<State>, steps: seq<Step>, n: nat)
    requires n < |steps| && |states| == |steps| + 1
  {
    Enabled(c, states[n], steps[n]) && states[n + 1] == Next(c, states[n], steps[n])
  }

  /** A run from some state on. */
  ghost predicate Continues(c: Config, s: State, states: seq<State>, steps: seq<Step>) {
    && |states| == |steps| + 1
    && states[0] == s
    && forall n :: 0 <= n < |steps| ==> Follows(c, states, steps, n)
  }

  ghost predicate IsTrace(c: Config, states: seq<State>, steps: seq<Step>) { Continues(c, Initial, states, steps) }

  // ----- the steps run back to back are the serialised calls -----

  /** What is left of a verification that has read its key row, with nothing in between. */
  function FromKeyRow(c: Config, s: State, pid: nat): State
    requires pid in s.flights && s.flights[pid].KeyRead? && s.flights[pid].since == s.now
  {
    var s' := Next(c, s, Step(s.now, ReadApplication(pid)));
    if pid in s'.flights then Next(c, s', Step(s.now, SetCache(pid))) else s'
  }

  function FromMiss(c: Config, s: State, pid: nat): State
    requires pid in s.flights && s.flights[pid].Missed?
  {
    var s' := Next(c, s, Step(s.now, ReadKey(pid)));
    if pid in s'.flights then FromKeyRow(c, s', pid) else s'
  }

  function VerifyAlone(c: Config, s: State, pid: nat, fullKey: string, secret: string): State
    requires pid !in s.flights
  {
    var s' := Next(c, s, Step(s.now, LookUp(pid, fullKey, secret)));
    if pid in s'.flights then FromMiss(c, s', pid) else s'
  }

  /** The state after a verification that answered from the database, without its flight. */
  ghost predicate AnsweredBy(c: Config, s: State, s': State, pid: nat, keyId: string, secret: string,
                             r: Option<Resolution>, keyHash: string) {
    && s'.db == s.db && s'.now == s.now && s'.flights == s.flights - {pid}
    && s'.cache == (if r.Some? then s.cache[keyId := Entry(r.value, true, Some(keyHash), s.now + c.ttl)] else s.cache)
    && s'.accepts == s.accepts + (if r.Some? then [Accept(keyId, secret, r.value, s.now)] else [])
  }

  lemma FromKeyRowAnswers(c: Config, s: State, pid: nat)
    requires pid in s.flights && s.flights[pid].KeyRead? && s.flights[pid].since == s.now
    ensures var f := s.flights[pid];
            var id, apps := f.row.application, s.db.applications;
            var r := if id in apps && apps[id].active
                     then Some(Resolution(apps[id].tenant, id, f.row.keyType, apps[id].origins)) else None;
            AnsweredBy(c, s, FromKeyRow(c, s, pid), pid, f.keyId, f.secret, r, f.row.keyHash)
  {
  }

  lemma FromMissAnswers(c: Config, s: State, pid: nat)
    requires pid in s.flights && s.flights[pid].Missed?
    ensures var k, secret := s.flights[pid].keyId, s.flights[pid].secret;
            var known := k in s.db.keys && VerifyApiKey(c.sha, secret, s.db.keys[k].keyHash, k);
            AnsweredBy(c, s, FromMiss(c, s, pid), pid, k, secret,
                       if known then Resolve(s.db, k) else None, if known then s.db.keys[k].keyHash else "")
  {
    var s' := Next(c, s, Step(s.now, ReadKey(pid)));
    if pid in s'.flights { FromKeyRowAnswers(c, s', pid); }
  }

  /** One verification with nothing in between gives exactly the serialised answer, records it when it accepts, and
      leaves exactly the serialised cache. */
  lemma VerificationBackToBack(c: Config, s: State, pid: nat, fullKey: string, secret: string)
    requires pid !in s.flights
    ensures var s' := VerifyAlone(c, s, pid, fullKey, secret);
            var answer := CachedAnswer(c.sha, s.db, s.cache, fullKey, secret, s.now);
            && s'.db == s.db && s'.now == s.now && s'.flights == s.flights
            && s'.cache == CacheAfter(c.sha, s.db, s.cache, c.ttl, fullKey, secret, s.now)
            && s'.accepts ==
               s.accepts + (if answer.Accepted?
                            then [Accept(GetKeyId(fullKey).value, secret, answer.resolution, s.now)] else [])
  {
    var s' := Next(c, s, Step(s.now, LookUp(pid, fullKey, secret)));
    if pid in s'.flights {
      FromMissAnswers(c, s', pid);
      assert s'.flights - {pid} == s.flights;
    }
  }

  /** A revocation is its commit and then the deletion of the entry. */
  lemma RevocationBackToBack(c: Config, s: State, application: string, keyId: string)
    requires Revocable(s.db, application, keyId)
    ensures var s1 := Next(c, s, Step(s.now, CommitCall(RevokeKey(application, keyId))));
            var s2 := Next(c, s1, Step(s.now, Invalidate(keyId)));
            Stores(s2.db, s2.cache) ==
            Perform(c.sha, c.ttl, Stores(s.db, s.cache), RevokeKey(application, keyId), s.now)
  {
  }

  // ----- what justifies an answer -----

  ghost predicate KeySeenAt(h: seq<Snapshot>, i: int, keyId: string, keyHash: string, r: Resolution) {
    0 <= i < |h| && KeyActive(h[i].db, keyId, keyHash, r.application, r.keyType)
  }

  /** At `since` the key row was active with this hash, for the application of the resolution. */
  ghost predicate KeySeen(h: seq<Snapshot>, keyId: string, keyHash: string, r: Resolution, since: int) {
    exists i :: KeySeenAt(h, i, keyId, keyHash, r) && h[i].time == since
  }

  /** At step `i` of the history the key row was active with this hash; at `j`, no earlier, the application was
      active with this tenant and these origins; both within [since, until], and at most `spread` apart. */
  ghost predicate SeenAt(h: seq<Snapshot>, i: int, j: int, keyId: string, keyHash: string, r: Resolution,
                         since: int, until: int, spread: int) {
    && i <= j < |h|
    && KeySeenAt(h, i, keyId, keyHash, r)
    && ApplicationActive(h[j].db, r)
    && since <= h[i].time <= h[j].time <= until
    && h[j].time - h[i].time <= spread
  }

  ghost predicate Justified(h: seq<Snapshot>, keyId: string, keyHash: string, r: Resolution,
                            since: int, until: int, spread: int) {
    exists i, j :: SeenAt(h, i, j, keyId, keyHash, r, since, until, spread)
  }

  lemma KeySeenLater(h: seq<Snapshot>, snap: Snapshot, keyId: string, keyHash: string, r: Resolution, since: int)
    requires KeySeen(h, keyId, keyHash, r, since)
    ensures KeySeen(h + [snap], keyId, keyHash, r, since)
  {
    var i :| KeySeenAt(h, i, keyId, keyHash, r) && h[i].time == since;
    assert (h + [snap])[i] == h[i] && KeySeenAt(h + [snap], i, keyId, keyHash, r);
  }

  /** Sightings survive a longer history and wider bounds. */
  lemma SeenLater(h: seq<Snapshot>, snap: Snapshot, keyId: string, keyHash: string, r: Resolution,
                  since: int, until: int, spread: int, since': int, until': int, spread': int)
    requires Justified(h, keyId, keyHash, r, since, until, spread)
    requires since' <= since && until <= until' && (spread <= spread' || until - since <= spread')
    ensures Justified(h + [snap], keyId, keyHash, r, since', until', spread')
  {
    var i, j :| SeenAt(h, i, j, keyId, keyHash, r, since, until, spread);
    assert (h + [snap])[i] == h[i] && (h + [snap])[j] == h[j];
    assert SeenAt(h + [snap], i, j, keyId, keyHash, r, since', until', spread');
  }

  /** The application row is seen after the key row. */
  lemma SeenNow(h: seq<Snapshot>, snap: Snapshot, keyId: string, keyHash: string, r: Resolution, since: int)
    requires KeySeen(h, keyId, keyHash, r, since) && since <= snap.time && ApplicationActive(snap.db, r)
    ensures Justified(h + [snap], keyId, keyHash, r, since, snap.time, snap.time - since)
  {
    var i :| KeySeenAt(h, i, keyId, keyHash, r) && h[i].time == since;
    assert (h + [snap])[i] == h[i] && (h + [snap])[|h|] == snap;
    assert SeenAt(h + [snap], i, |h|, keyId, keyHash, r, since, snap.time, snap.time - since);
  }

  // ----- the invariant -----

  ghost predicate EntryOk(c: Config, s: State, k: string, e: Entry) {
    && e.keyHash.Some? && e.expiresAt - c.ttl <= s.now
    && Justified(s.history, k, e.keyHash.value, e.resolution,
                 e.expiresAt - c.ttl - c.delay, e.expiresAt - c.ttl, c.delay)
  }

  /** The application and type a flight has read from its key row, in the shape of a resolution. */
  function Partial(row: KeyRow): Resolution { Resolution("", row.application, row.keyType, []) }

  ghost predicate FlightOk(c: Config, s: State, f: Flight) {
    match f
    case Missed(_, _) => true
    case KeyRead(k, secret, row, since) =>
      VerifyApiKey(c.sha, secret, row.keyHash, k) && since <= s.now
      && KeySeen(s.history, k, row.keyHash, Partial(row), since)
    case BothRead(k, secret, row, r, since) =>
      VerifyApiKey(c.sha, secret, row.keyHash, k) && since <= s.now
      && Justified(s.history, k, row.keyHash, r, since, s.now, s.now - since)
  }

  /** The bound: both rows were as answered less than `ttl + delay` before the answer. */
  ghost predicate AcceptOk(c: Config, h: seq<Snapshot>, a: Accept) {
    && GetKeyId(a.secret) == Some(a.keyId)
    && Justified(h, a.keyId, c.sha(a.secret), a.resolution, a.at - c.ttl - c.delay + 1, a.at, c.delay)
  }

  ghost predicate EntriesOk(c: Config, s: State) { forall k :: k in s.cache ==> EntryOk(c, s, k, s.cache[k]) }

  ghost predicate FlightsOk(c: Config, s: State) { forall p :: p in s.flights ==> FlightOk(c, s, s.flights[p]) }

  ghost predicate AcceptsOk(c: Config, s: State) {
    forall i :: 0 <= i < |s.accepts| ==> AcceptOk(c, s.history, s.accepts[i])
  }

  ghost predicate Inv(c: Config, s: State) { EntriesOk(c, s) && FlightsOk(c, s) && AcceptsOk(c, s) }

  lemma EntryKeeps(c: Config, s: State, e: Step, k: string, entry: Entry)
    requires Enabled(c, s, e) && EntryOk(c, s, k, entry)
    ensures EntryOk(c, Next(c, s, e), k, entry)
  {
    var until := entry.expiresAt - c.ttl;
    SeenLater(s.history, Snapshot(e.now, Next(c, s, e).db), k, entry.keyHash.value, entry.resolution,
              until - c.delay, until, c.delay, until - c.delay, until, c.delay);
  }

  lemma AcceptKeeps(c: Config, s: State, e: Step, a: Accept)
    requires Enabled(c, s, e) && AcceptOk(c, s.history, a)
    ensures AcceptOk(c, Next(c, s, e).history, a)
  {
    var since := a.at - c.ttl - c.delay + 1;
    SeenLater(s.history, Snapshot(e.now, Next(c, s, e).db), a.keyId, c.sha(a.secret), a.resolution,
              since, a.at, c.delay, since, a.at, c.delay);
  }

  lemma FlightKeeps(c: Config, s: State, e: Step, f: Flight)
    requires Enabled(c, s, e) && FlightOk(c, s, f)
    ensures FlightOk(c, Next(c, s, e), f)
  {
    var snap := Snapshot(e.now, Next(c, s, e).db);
    match f
    case Missed(_, _) =>
    case KeyRead(k, secret, row, since) =>
      KeySeenLater(s.history, snap, k, row.keyHash, Partial(row), since);
    case BothRead(k, secret, row, r, since) =>
      SeenLater(s.history, snap, k, row.keyHash, r, since, s.now, s.now - since, since, e.now, e.now - since);
  }

  lemma KeyReadNow(h: seq<Snapshot>, snap: Snapshot, keyId: string, row: KeyRow)
    requires keyId in snap.db.keys && snap.db.keys[keyId] == row && row.active
    ensures KeySeen(h + [snap], keyId, row.keyHash, Partial(row), snap.time)
  {
    assert (h + [snap])[|h|] == snap && KeySeenAt(h + [snap], |h|, keyId, row.keyHash, Partial(row));
  }

  lemma SameKeySeen(h: seq<Snapshot>, keyId: string, keyHash: string, r: Resolution, r': Resolution, since: int)
    requires KeySeen(h, keyId, keyHash, r, since) && r.application == r'.application && r.keyType == r'.keyType
    ensures KeySeen(h, keyId, keyHash, r', since)
  {
    var i :| KeySeenAt(h, i, keyId, keyHash, r) && h[i].time == since;
    assert KeySeenAt(h, i, keyId, keyHash, r');
  }

  /** A verification that advances has seen what it carries; one that stores was justified in time. */
  lemma FlightAdvances(c: Config, s: State, e: Step, p: nat)
    requires Inv(c, s) && Enabled(c, s, e) && p in Next(c, s, e).flights
    requires p !in s.flights || Next(c, s, e).flights[p] != s.flights[p]
    ensures FlightOk(c, Next(c, s, e), Next(c, s, e).flights[p])
  {
    var snap := Snapshot(e.now, Next(c, s, e).db);
    match Next(c, s, e).flights[p]
    case Missed(_, _) =>
    case KeyRead(k, secret, row, since) =>
      assert e.action == ReadKey(p);
      KeyReadNow(s.history, snap, k, row);
    case BothRead(k, secret, row, r, since) =>
      assert e.action == ReadApplication(p) && FlightOk(c, s, s.flights[p]);
      SameKeySeen(s.history, k, row.keyHash, Partial(row), r, since);
      SeenNow(s.history, snap, k, row.keyHash, r, since);
  }

  /** What a store writes was true of both rows since the verification's first read. */
  lemma StoreIsJustified(c: Config, s: State, e: Step, since: int, until: int)
    requires FlightsOk(c, s) && Enabled(c, s, e) && e.action.SetCache? && since <= e.now - c.delay && e.now <= until
    ensures var f := s.flights[e.action.pid];
            Justified(s.history + [Snapshot(e.now, s.db)], f.keyId, f.row.keyHash, f.resolution, since, until, c.delay)
  {
    var f := s.flights[e.action.pid];
    assert FlightOk(c, s, f);
    SeenLater(s.history, Snapshot(e.now, s.db), f.keyId, f.row.keyHash, f.resolution,
              f.since, s.now, s.now - f.since, since, until, c.delay);
  }

  lemma EntryStored(c: Config, s: State, e: Step, k: string)
    requires Inv(c, s) && Enabled(c, s, e) && k in Next(c, s, e).cache
    requires k !in s.cache || Next(c, s, e).cache[k] != s.cache[k]
    ensures EntryOk(c, Next(c, s, e), k, Next(c, s, e).cache[k])
  {
    StoreIsJustified(c, s, e, e.now - c.delay, e.now);
  }

  /** What a live entry answers was true of both rows in the interval an answer may be justified by. */
  lemma HitIsJustified(c: Config, s: State, e: Step, k: string)
    requires EntriesOk(c, s) && k in s.cache && e.now < s.cache[k].expiresAt && s.now <= e.now
    ensures s.cache[k].keyHash.Some?
    ensures Justified(s.history + [Snapshot(e.now, s.db)], k, s.cache[k].keyHash.value, s.cache[k].resolution,
                      e.now - c.ttl - c.delay + 1, e.now, c.delay)
  {
    var entry := s.cache[k];
    var until := entry.expiresAt - c.ttl;
    assert EntryOk(c, s, k, entry);
    SeenLater(s.history, Snapshot(e.now, s.db), k, entry.keyHash.value, entry.resolution,
              until - c.delay, until, c.delay, e.now - c.ttl - c.delay + 1, e.now, c.delay);
  }

  lemma AcceptGiven(c: Config, s: State, e: Step)
    requires Inv(c, s) && Enabled(c, s, e) && |Next(c, s, e).accepts| > |s.accepts|
    ensures AcceptOk(c, Next(c, s, e).history, Next(c, s, e).accepts[|s.accepts|])
  {
    var a := Next(c, s, e).accepts[|s.accepts|];
    if e.action.SetCache? {
      StoreIsJustified(c, s, e, e.now - c.ttl - c.delay + 1, e.now);
      assert FlightOk(c, s, s.flights[e.action.pid]);
    } else {
      HitIsJustified(c, s, e, a.keyId);
    }
  }

  lemma EntriesStep(c: Config, s: State, e: Step)
    requires Inv(c, s) && Enabled(c, s, e)
    ensures EntriesOk(c, Next(c, s, e))
  {
    var s' := Next(c, s, e);
    forall k | k in s'.cache ensures EntryOk(c, s', k, s'.cache[k]) {
      if k in s.cache && s.cache[k] == s'.cache[k] {
        EntryKeeps(c, s, e, k, s.cache[k]);
      } else {
        EntryStored(c, s, e, k);
      }
    }
  }

  lemma FlightsStep(c: Config, s: State, e: Step)
    requires Inv(c, s) && Enabled(c, s, e)
    ensures FlightsOk(c, Next(c, s, e))
  {
    var s' := Next(c, s, e);
    forall p | p in s'.flights ensures FlightOk(c, s', s'.flights[p]) {
      if p in s.flights && s.flights[p] == s'.flights[p] {
        FlightKeeps(c, s, e, s.flights[p]);
      } else {
        FlightAdvances(c, s, e, p);
      }
    }
  }

  lemma AcceptsGrow(c: Config, s: State, e: Step)
    requires Enabled(c, s, e)
    ensures s.accepts <= Next(c, s, e).accepts && |Next(c, s, e).accepts| <= |s.accepts| + 1
  {
  }

  lemma AcceptsStep(c: Config, s: State, e: Step)
    requires Inv(c, s) && Enabled(c, s, e)
    ensures AcceptsOk(c, Next(c, s, e))
  {
    var s' := Next(c, s, e);
    AcceptsGrow(c, s, e);
    forall i | 0 <= i < |s'.accepts| ensures AcceptOk(c, s'.history, s'.accepts[i]) {
      if i < |s.accepts| {
        assert s'.accepts[i] == s.accepts[i];
        AcceptKeeps(c, s, e, s.accepts[i]);
      } else {
        AcceptGiven(c, s, e);
      }
    }
  }

  lemma InvIsInductive(c: Config, s: State, e: Step)
    requires Inv(c, s) && Enabled(c, s, e)
    ensures Inv(c, Next(c, s, e))
  {
    EntriesStep(c, s, e);
    FlightsStep(c, s, e);
    AcceptsStep(c, s, e);
  }

  lemma {:induction false} InvAlways(c: Config, states: seq<State>, steps: seq<Step>, n: nat)
    requires IsTrace(c, states, steps) && n <= |steps|
    ensures Inv(c, states[n])
  {
    if n > 0 {
      InvAlways(c, states, steps, n - 1);
      assert Follows(c, states, steps, n - 1);
      InvIsInductive(c, states[n - 1], steps[n - 1]);
    }
  }

  lemma {:induction false} HistoryIsTheRun(c: Config, states: seq<State>, steps: seq<Step>, n: nat)
    requires IsTrace(c, states, steps) && n <= |steps|
    ensures |states[n].history| == n
    ensures forall i :: 0 <= i < n ==> states[n].history[i] == Snapshot(steps[i].now, states[i + 1].db)
  {
    if n > 0 {
      HistoryIsTheRun(c, states, steps, n - 1);
      assert Follows(c, states, steps, n - 1);
    }
  }

  /** Bounded staleness: in any interleaving, every accepting answer was true of the key row at one step and of
      the application row at a later one, at most `delay` apart, neither after the answer nor `ttl + delay` or
      more before it. */
  lemma BoundedStaleness(c: Config, states: seq<State>, steps: seq<Step>, n: nat, a: Accept)
    returns (keyStep: nat, applicationStep: nat)
    requires IsTrace(c, states, steps) && n <= |steps| && a in states[n].accepts
    ensures keyStep <= applicationStep < n
    ensures a.at - c.ttl - c.delay < steps[keyStep].now <= steps[applicationStep].now <= a.at
    ensures steps[applicationStep].now - steps[keyStep].now <= c.delay
    ensures KeyActive(states[keyStep + 1].db, a.keyId, c.sha(a.secret), a.resolution.application, a.resolution.keyType)
    ensures ApplicationActive(states[applicationStep + 1].db, a.resolution)
  {
    InvAlways(c, states, steps, n);
    HistoryIsTheRun(c, states, steps, n);
    var h := states[n].history;
    assert AcceptOk(c, h, a);
    keyStep, applicationStep :|
      SeenAt(h, keyStep, applicationStep, a.keyId, c.sha(a.secret), a.resolution,
             a.at - c.ttl - c.delay + 1, a.at, c.delay);
  }

  // ----- consequences for revocation and for wrong secrets -----

  lemma {:induction false} KeyRowsPersist(c: Config, states: seq<State>, steps: seq<Step>, m: nat, n: nat, k: string)
    requires IsTrace(c, states, steps) && m <= n <= |steps| && k in states[m].db.keys
    ensures k in states[n].db.keys && states[n].db.keys[k].keyHash == states[m].db.keys[k].keyHash
    ensures states[n].db.keys[k].active ==> states[m].db.keys[k].active
  {
    if m < n {
      KeyRowsPersist(c, states, steps, m, n - 1, k);
      assert Follows(c, states, steps, n - 1);
      var e := steps[n - 1];
      if e.action.CommitCall? { KeyRowsOnlyDie(c.sha, states[n - 1].db, e.action.call, k); }
    }
  }

  lemma {:induction false} TimeMovesOn(c: Config, states: seq<State>, steps: seq<Step>, m: nat, n: nat)
    requires IsTrace(c, states, steps) && m <= n < |steps|
    ensures steps[m].now <= steps[n].now
  {
    if m < n {
      TimeMovesOn(c, states, steps, m, n - 1);
      assert Follows(c, states, steps, n - 1) && Follows(c, states, steps, n);
    }
  }

  /** A key that is inactive after step `m` is accepted at most for `ttl + delay` longer, interleaved or not. */
  lemma RevokedDiesInTime(c: Config, states: seq<State>, steps: seq<Step>, m: nat, n: nat, a: Accept)
    requires IsTrace(c, states, steps) && m < |steps| && n <= |steps| && a in states[n].accepts
    requires a.keyId in states[m + 1].db.keys && !states[m + 1].db.keys[a.keyId].active
    ensures a.at < steps[m].now + c.ttl + c.delay
  {
    var keyStep, applicationStep := BoundedStaleness(c, states, steps, n, a);
    if m <= keyStep {
      KeyRowsPersist(c, states, steps, m + 1, keyStep + 1, a.keyId);
    } else {
      TimeMovesOn(c, states, steps, keyStep, m);
    }
  }

  /** No interleaving and no stale entry ever accepts a secret whose hash is not the stored one. */
  lemma WrongSecretNeverAccepted(c: Config, states: seq<State>, steps: seq<Step>, n: nat, a: Accept)
    requires IsTrace(c, states, steps) && n <= |steps| && a in states[n].accepts
    ensures a.keyId in states[n].db.keys && states[n].db.keys[a.keyId].keyHash == c.sha(a.secret)
    ensures GetKeyId(a.secret) == Some(a.keyId)
  {
    var keyStep, applicationStep := BoundedStaleness(c, states, steps, n, a);
    KeyRowsPersist(c, states, steps, keyStep + 1, n, a.keyId);
    InvAlways(c, states, steps, n);
    var i :| 0 <= i < |states[n].accepts| && states[n].accepts[i] == a;
    assert AcceptOk(c, states[n].history, states[n].accepts[i]);
  }

  // ----- when a revoked key dies at once -----

  predicate PastKeyRead(s: State, p: nat, k: string) {
    p in s.flights && !s.flights[p].Missed? && s.flights[p].keyId == k
  }

  /** No verification of the key is past its key read with time left to store. */
  ghost predicate NoneUnderWay(c: Config, s: State, k: string) {
    forall p :: PastKeyRead(s, p, k) ==> s.flights[p].since + c.delay < s.now
  }

  predicate Revoked(s: State, k: string) { k in s.db.keys && !s.db.keys[k].active }

  /** Nothing accepted between the two states was for this key. */
  ghost predicate NotAccepted(s: State, s': State, k: string) {
    |s.accepts| <= |s'.accepts| && forall i :: |s.accepts| <= i < |s'.accepts| ==> s'.accepts[i].keyId != k
  }

  predicate InvalidatedAt(steps: seq<Step>, d: nat, k: string) { d < |steps| && steps[d].action == Invalidate(k) }

  /** However the run goes on, no answer accepts the key once its entry has been deleted. */
  ghost predicate DiesAtOnce(c: Config, s: State, k: string) {
    forall states, steps, d :: Continues(c, s, states, steps) && InvalidatedAt(steps, d, k) ==>
                                 NotAccepted(states[d], states[|steps|], k)
  }

  lemma RevokedIsFinal(c: Config, s: State, e: Step, k: string)
    requires Enabled(c, s, e) && Revoked(s, k)
    ensures Revoked(Next(c, s, e), k)
  {
    if e.action.CommitCall? { KeyRowsOnlyDie(c.sha, s.db, e.action.call, k); }
  }

  /** A verification of a revoked key gets past its key read no more. */
  lemma NoneStarts(c: Config, s: State, e: Step, k: string)
    requires Enabled(c, s, e) && Revoked(s, k) && NoneUnderWay(c, s, k)
    ensures NoneUnderWay(c, Next(c, s, e), k)
  {
    var s' := Next(c, s, e);
    forall p | PastKeyRead(s', p, k) ensures s'.flights[p].since + c.delay < s'.now {
      assert PastKeyRead(s, p, k) && s'.flights[p].since == s.flights[p].since;
    }
  }

  lemma NoneAcceptedNow(c: Config, s: State, e: Step, k: string)
    requires Enabled(c, s, e) && NoneUnderWay(c, s, k) && k !in s.cache
    ensures k !in Next(c, s, e).cache && NotAccepted(s, Next(c, s, e), k)
  {
    if e.action.SetCache? { assert !PastKeyRead(s, e.action.pid, k); }
  }

  lemma {:induction false} StaysRevoked(c: Config, s: State, states: seq<State>, steps: seq<Step>, n: nat, k: string)
    requires Continues(c, s, states, steps) && n <= |steps| && Revoked(s, k) && NoneUnderWay(c, s, k)
    ensures Revoked(states[n], k) && NoneUnderWay(c, states[n], k)
  {
    if n > 0 {
      StaysRevoked(c, s, states, steps, n - 1, k);
      assert Follows(c, states, steps, n - 1);
      RevokedIsFinal(c, states[n - 1], steps[n - 1], k);
      NoneStarts(c, states[n - 1], steps[n - 1], k);
    }
  }

  lemma {:induction false} StaysDeleted(
      c: Config, s: State, states: seq<State>, steps: seq<Step>, d: nat, n: nat, k: string)
    requires Continues(c, s, states, steps) && d < n <= |steps| && Revoked(s, k) && NoneUnderWay(c, s, k)
    requires InvalidatedAt(steps, d, k)
    ensures k !in states[n].cache && NotAccepted(states[d], states[n], k)
  {
    assert Follows(c, states, steps, n - 1);
    if d < n - 1 {
      StaysDeleted(c, s, states, steps, d, n - 1, k);
      StaysRevoked(c, s, states, steps, n - 1, k);
      NoneAcceptedNow(c, states[n - 1], steps[n - 1], k);
      AcceptsGrow(c, states[n - 1], steps[n - 1]);
    }
  }

  /** What a verification past its key read has seen is still on record, its application too. */
  ghost predicate Rooted(s: State) {
    && (forall k :: k in s.db.keys ==> s.db.keys[k].application in s.db.applications)
    && (forall p :: p in s.flights && !s.flights[p].Missed? ==>
          var f := s.flights[p];
          && f.keyId in s.db.keys
          && s.db.keys[f.keyId].application == f.row.application
          && s.db.keys[f.keyId].keyHash == f.row.keyHash)
  }

  lemma KeysStayRooted(sha: Sha, db: Database, call: Call)
    requires forall k :: k in db.keys ==> db.keys[k].application in db.applications
    ensures var db' := Commit(sha, db, call); forall k :: k in db'.keys ==> db'.keys[k].application in db'.applications
  {
  }

  lemma RootedStep(c: Config, s: State, e: Step)
    requires Enabled(c, s, e) && Rooted(s)
    ensures Rooted(Next(c, s, e))
  {
    var s' := Next(c, s, e);
    if e.action.CommitCall? {
      KeysStayRooted(c.sha, s.db, e.action.call);
      forall p | p in s'.flights && !s'.flights[p].Missed?
        ensures var f := s'.flights[p];
                && f.keyId in s'.db.keys
                && s'.db.keys[f.keyId].application == f.row.application
                && s'.db.keys[f.keyId].keyHash == f.row.keyHash
      {
        KeyRowsOnlyDie(c.sha, s.db, e.action.call, s.flights[p].keyId);
      }
    }
  }

  lemma {:induction false} RootedAlways(c: Config, states: seq<State>, steps: seq<Step>, n: nat)
    requires IsTrace(c, states, steps) && n <= |steps|
    ensures Rooted(states[n])
  {
    if n > 0 {
      RootedAlways(c, states, steps, n - 1);
      assert Follows(c, states, steps, n - 1);
      RootedStep(c, states[n - 1], steps[n - 1]);
    }
  }

  /** A run goes on from its last state. */
  lemma Extended(c: Config, s: State, states: seq<State>, steps: seq<Step>, e: Step)
    requires Continues(c, s, states, steps) && Enabled(c, states[|steps|], e)
    ensures Continues(c, s, states + [Next(c, states[|steps|], e)], steps + [e])
  {
    var states', steps' := states + [Next(c, states[|steps|], e)], steps + [e];
    forall n | 0 <= n < |steps'| ensures Follows(c, states', steps', n) {
      if n < |steps| { assert Follows(c, states, steps, n); }
    }
  }

  /** A verification past its key read reaches the point of storing, if need be after its application has been
      made active again. */
  lemma ReachesStore(c: Config, s: State, p: nat, k: string) returns (states: seq<State>, steps: seq<Step>)
    requires Rooted(s) && PastKeyRead(s, p, k)
    ensures Continues(c, s, states, steps)
    ensures var s' := states[|steps|];
            && s'.now == s.now && PastKeyRead(s', p, k) && s'.flights[p].BothRead?
            && s'.flights[p].since == s.flights[p].since
  {
    states, steps := [s], [];
    if s.flights[p].KeyRead? {
      var app := s.flights[p].row.application;
      var reactivate := Step(s.now, CommitCall(UpdateApplication(app, Update(None, Some(true)))));
      Extended(c, s, states, steps, reactivate);
      var s1 := Next(c, s, reactivate);
      states, steps := states + [s1], steps + [reactivate];
      var read := Step(s.now, ReadApplication(p));
      Extended(c, s, states, steps, read);
      states, steps := states + [Next(c, s1, read)], steps + [read];
    }
  }

  /** A verification under way accepts the key after its entry has been deleted. */
  lemma UnderWayIsAccepted(c: Config, s: State, p: nat, k: string)
    requires Rooted(s) && PastKeyRead(s, p, k) && s.now <= s.flights[p].since + c.delay
    ensures !DiesAtOnce(c, s, k)
  {
    var states, steps := ReachesStore(c, s, p, k);
    var d, deletion, store := |steps|, Step(s.now, Invalidate(k)), Step(s.now, SetCache(p));
    var s1 := states[d];
    var s2 := Next(c, s1, deletion);
    var s3 := Next(c, s2, store);
    Extended(c, s, states, steps, deletion);
    Extended(c, s, states + [s2], steps + [deletion], store);
    var states', steps' := states + [s2] + [s3], steps + [deletion] + [store];
    assert InvalidatedAt(steps', d, k) && states'[d] == s1 && states'[|steps'|] == s3;
    assert s3.accepts[|s1.accepts|].keyId == k;
  }

  /** A revoked key dies with the deletion of its entry, whatever else interleaves, if and only if no verification
      of it is past its key read with time left to store. */
  lemma DiesAtOnceIff(c: Config, states: seq<State>, steps: seq<Step>, n: nat, k: string)
    requires IsTrace(c, states, steps) && n <= |steps| && Revoked(states[n], k)
    ensures DiesAtOnce(c, states[n], k) <==> NoneUnderWay(c, states[n], k)
  {
    var s := states[n];
    if NoneUnderWay(c, s, k) {
      forall states', steps', d | Continues(c, s, states', steps') && InvalidatedAt(steps', d, k)
        ensures NotAccepted(states'[d], states'[|steps'|], k)
      {
        StaysDeleted(c, s, states', steps', d, |steps'|, k);
      }
    } else {
      RootedAlways(c, states, steps, n);
      var p :| PastKeyRead(s, p, k) && s.flights[p].since + c.delay >= s.now;
      UnderWayIsAccepted(c, s, p, k);
    }
  }

  /** And for how long it lives otherwise: on any run, a verification that has read both rows before the
      revocation and stores after the deletion leaves an entry that accepts the key for a whole TTL. */
  lemma LateStoreOutlivesInvalidation(
      c: Config, states: seq<State>, steps: seq<Step>, n: nat, p: nat, fullKey: string, start: int)
    requires IsTrace(c, states, steps) && n <= |steps|
    requires p in states[n].flights && states[n].flights[p].BothRead?
    requires states[n].now <= start <= states[n].flights[p].since + c.delay
    requires GetKeyId(fullKey) == Some(states[n].flights[p].keyId)
    ensures var s, f := states[n], states[n].flights[p];
            var s1 := Next(c, s, Step(start, CommitCall(RevokeKey(f.row.application, f.keyId))));
            var s2 := Next(c, s1, Step(start, Invalidate(f.keyId)));
            var s3 := Next(c, s2, Step(start, SetCache(p)));
            && Revoked(s3, f.keyId)
            && forall now :: start <= now < start + c.ttl ==>
                 CachedAnswer(c.sha, s3.db, s3.cache, fullKey, f.secret, now) == Accepted(f.resolution)
  {
    RootedAlways(c, states, steps, n);
    InvAlways(c, states, steps, n);
    assert FlightOk(c, states[n], states[n].flights[p]);
  }
}
