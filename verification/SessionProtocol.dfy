/**
 The session table under interleaved requests.

 A rotation reads and checks a row in one step and writes it by id in a later one; a login counts,
 picks the oldest session and writes in three. Any number of requests may be between their steps.
 Each step is one committed statement, or the read before it.
 */
module SessionProtocol {
  import opened Prelude
  import opened Sessions

  type Pid = nat

  /** What a request in flight remembers between its steps. */
  datatype Pending =
    | Rotating(row: RowId, presented: Hash, next: Hash, expiresAt: int)
    | Counted(req: CreateRequest, count: nat)
    | Picked(req: CreateRequest, victim: Option<RowId>)

  datatype State = State(table: Table, pending: map<Pid, Pending>, issued: set<Hash>)

  const Initial: State := State(map[], map[], {})

  datatype Step =
    | RotateRead(pid: Pid, presented: Hash, next: Hash, expiresAt: int, now: int)
    | RotateWrite(pid: Pid)
    | CreateCount(pid: Pid, req: CreateRequest, now: int)
    | CreatePick(pid: Pid, oldest: Option<RowId>, now: int)
    | CreateWrite(pid: Pid, id: RowId, now: int)
    | Logout(hash: Hash)
    | RevokeOne(target: RowId, owner: string)
    | RevokeAll(user: string)

  function NewToken(p: Pending): Hash { if p.Rotating? then p.next else p.req.hash }

  /** Tokens are fresh when a request starts, row ids when they are inserted; the database picks an oldest row. */
  ghost predicate Enabled(max: int, s: State, e: Step) {
    match e
    case RotateRead(pid, _, next, _, _) => pid !in s.pending && next !in s.issued
    case RotateWrite(pid) => pid in s.pending && s.pending[pid].Rotating?
    case CreateCount(pid, req, _) => pid !in s.pending && req.hash !in s.issued
    case CreatePick(pid, oldest, now) =>
      && pid in s.pending && s.pending[pid].Counted?
      && var req := s.pending[pid].req;
         if s.pending[pid].count >= max
         then IsOldest(s.table, Active(s.table, req.user, Some(req.tenant), now), oldest)
         else oldest.None?
    case CreateWrite(pid, id, _) => pid in s.pending && s.pending[pid].Picked? && id !in s.table
    case _ => true
  }

  function Inserted(t: Table, req: CreateRequest, victim: Option<RowId>, id: RowId, now: int): Table {
    if req.hash in Hashes(t) then t
    else
      var kept := if victim.Some? then Revoke(t, {victim.value}) else t;
      kept[id := Row(req.tenant, req.user, req.hash, false, req.expiresAt, now)]
  }

  ghost function Next(max: int, s: State, e: Step): State
    requires Enabled(max, s, e)
  {
    match e
    case RotateRead(pid, presented, next, expiresAt, now) =>
      var row := RowOf(s.table, presented);
      if row.Some? && Usable(s.table[row.value], now)
      then State(s.table, s.pending[pid := Rotating(row.value, presented, next, expiresAt)], s.issued + {next})
      else s.(issued := s.issued + {next})
    case RotateWrite(pid) =>
      var p := s.pending[pid];
      var written := if CanRewrite(s.table, p.row, p.next)
                     then Rewritten(s.table, p.row, p.next, p.expiresAt) else s.table;
      State(written, s.pending - {pid}, s.issued)
    case CreateCount(pid, req, now) =>
      var count := |Active(s.table, req.user, Some(req.tenant), now)|;
      State(s.table, s.pending[pid := Counted(req, count)], s.issued + {req.hash})
    case CreatePick(pid, oldest, now) =>
      s.(pending := s.pending[pid := Picked(s.pending[pid].req, oldest)])
    case CreateWrite(pid, id, now) =>
      var p := s.pending[pid];
      State(Inserted(s.table, p.req, p.victim, id, now), s.pending - {pid}, s.issued)
    case Logout(h) => s.(table := Revoke(s.table, HoldersOf(s.table, h)))
    case RevokeOne(i, owner) =>
      if i in s.table && s.table[i].user == owner then s.(table := Revoke(s.table, {i})) else s
    case RevokeAll(user) => s.(table := Revoke(s.table, RowsOfUser(s.table, user)))
  }

  /** `states` is a run: it starts at `states[0]` and each state follows by the step of the same index. */
  ghost predicate IsTrace(max: int, states: seq<State>, steps: seq<Step>) {
    && |states| == |steps| + 1
    && forall n :: 0 <= n < |steps| ==> Follows(max, states, steps, n)
  }

  ghost predicate Follows(max: int, states: seq<State>, steps: seq<Step>, n: nat)
    requires n < |steps| && |states| == |steps| + 1
  {
    Enabled(max, states[n], steps[n]) && states[n + 1] == Next(max, states[n], steps[n])
  }

  // ----- the invariant -----

  /** Stored tokens are issued and distinct; tokens on their way to the table are issued, stored nowhere
      and wanted by one request only. */
  ghost predicate Inv(s: State) {
    && UniqueHashes(s.table)
    && Hashes(s.table) <= s.issued
    && (forall p :: p in s.pending ==> NewToken(s.pending[p]) in s.issued && NewToken(s.pending[p]) !in Hashes(s.table))
    && (forall p, q :: p in s.pending && q in s.pending && p != q ==> NewToken(s.pending[p]) != NewToken(s.pending[q]))
    && (forall p :: p in s.pending && s.pending[p].Rotating? ==> s.pending[p].row in s.table)
  }

  function TokensOf(s: State, e: Step): set<Hash> {
    match e
    case RotateWrite(pid) => if pid in s.pending then {NewToken(s.pending[pid])} else {}
    case CreateWrite(pid, _, _) => if pid in s.pending then {NewToken(s.pending[pid])} else {}
    case _ => {}
  }

  /** Only a write brings a token into the table, and it brings its own. */
  lemma StoredTokens(max: int, s: State, e: Step)
    requires Enabled(max, s, e)
    ensures Hashes(Next(max, s, e).table) <= Hashes(s.table) + TokensOf(s, e)
  {
    var t, t' := s.table, Next(max, s, e).table;
    forall i | i in t' ensures t'[i].hash in Hashes(t) + TokensOf(s, e) {
      if i in t { assert t[i].hash in Hashes(t); }
    }
  }

  /** No step removes a row, gives it to someone else or clears its revocation. */
  lemma RowsPersist(max: int, s: State, e: Step, i: RowId)
    requires Enabled(max, s, e) && i in s.table
    ensures var t' := Next(max, s, e).table;
            i in t' && t'[i].user == s.table[i].user && (s.table[i].revoked ==> t'[i].revoked)
  {
  }

  lemma InsertKeepsHashesUnique(t: Table, req: CreateRequest, victim: Option<RowId>, id: RowId, now: int)
    requires UniqueHashes(t) && id !in t
    ensures UniqueHashes(Inserted(t, req, victim, id, now))
  {
    if req.hash !in Hashes(t) { NotStored(t, req.hash); }
  }

  lemma RewriteKeepsHashesUnique(t: Table, row: RowId, next: Hash, expiresAt: int)
    requires UniqueHashes(t) && CanRewrite(t, row, next)
    ensures UniqueHashes(Rewritten(t, row, next, expiresAt))
  {
  }

  lemma WritesKeepHashesUnique(max: int, s: State, e: Step)
    requires Inv(s) && Enabled(max, s, e)
    ensures UniqueHashes(Next(max, s, e).table)
  {
    match e
    case CreateWrite(pid, id, now) =>
      InsertKeepsHashesUnique(s.table, s.pending[pid].req, s.pending[pid].victim, id, now);
    case RotateWrite(pid) =>
      var p := s.pending[pid];
      if CanRewrite(s.table, p.row, p.next) { RewriteKeepsHashesUnique(s.table, p.row, p.next, p.expiresAt); }
    case _ =>
  }

  lemma PendingStep(max: int, s: State, e: Step, p: Pid)
    requires Inv(s) && Enabled(max, s, e) && p in Next(max, s, e).pending
    ensures var s' := Next(max, s, e);
            && NewToken(s'.pending[p]) in s'.issued
            && (p in s.pending ==> NewToken(s'.pending[p]) == NewToken(s.pending[p]))
            && (p !in s.pending ==> NewToken(s'.pending[p]) !in s.issued)
            && (s'.pending[p].Rotating? ==> s'.pending[p].row in s.table)
            && NewToken(s'.pending[p]) !in TokensOf(s, e)
  {
  }

  lemma InvIsInductive(max: int, s: State, e: Step)
    requires Inv(s) && Enabled(max, s, e)
    ensures Inv(Next(max, s, e))
  {
    var s' := Next(max, s, e);
    WritesKeepHashesUnique(max, s, e);
    StoredTokens(max, s, e);
    forall p | p in s'.pending
      ensures NewToken(s'.pending[p]) in s'.issued && NewToken(s'.pending[p]) !in Hashes(s'.table)
      ensures s'.pending[p].Rotating? ==> s'.pending[p].row in s'.table
    {
      PendingStep(max, s, e, p);
      if s'.pending[p].Rotating? { RowsPersist(max, s, e, s'.pending[p].row); }
    }
    forall p, q | p in s'.pending && q in s'.pending && p != q
      ensures NewToken(s'.pending[p]) != NewToken(s'.pending[q])
    {
      PendingStep(max, s, e, p);
      PendingStep(max, s, e, q);
    }
  }

  /** In every reachable state the stored hashes are pairwise distinct. */
  lemma {:induction false} InvAlways(max: int, states: seq<State>, steps: seq<Step>, n: nat)
    requires IsTrace(max, states, steps) && states[0] == Initial && n <= |steps|
    ensures Inv(states[n])
  {
    if n > 0 {
      InvAlways(max, states, steps, n - 1);
      assert Follows(max, states, steps, n - 1);
      InvIsInductive(max, states[n - 1], steps[n - 1]);
    }
  }

  // ----- at most one validating token per session -----

  /** Two tokens that validate to the same session are the same token, and a token validates to one session only. */
  lemma OneTokenPerSession(s: State, i: RowId, j: RowId, h: Hash, h': Hash, now: int)
    requires Inv(s) && i in s.table && j in s.table
    requires s.table[i].hash == h && Usable(s.table[i], now)
    requires s.table[j].hash == h' && Usable(s.table[j], now)
    ensures i == j <==> h == h'
    ensures RowOf(s.table, h) == Some(i)
  {
    RowOfUnique(s.table, i);
  }

  // ----- revocation is final -----

  lemma {:induction false} RevokedForever(max: int, states: seq<State>, steps: seq<Step>, m: nat, n: nat, i: RowId)
    requires IsTrace(max, states, steps) && m <= n <= |steps|
    requires i in states[m].table && states[m].table[i].revoked
    ensures i in states[n].table && states[n].table[i].revoked
  {
    if m < n {
      RevokedForever(max, states, steps, m, n - 1, i);
      assert Follows(max, states, steps, n - 1);
      RowsPersist(max, states[n - 1], steps[n - 1], i);
    }
  }

  /** Once a session is revoked no token validates to it, whatever rotate-writes land on its row afterwards. */
  lemma RevokedNeverValidates(
      max: int, states: seq<State>, steps: seq<Step>, m: nat, n: nat, i: RowId, h: Hash, now: int)
    requires IsTrace(max, states, steps) && states[0] == Initial && m <= n <= |steps|
    requires i in states[m].table && states[m].table[i].revoked
    requires i in states[n].table && states[n].table[i].hash == h
    ensures !Validates(states[n].table, h, now)
  {
    RevokedForever(max, states, steps, m, n, i);
    InvAlways(max, states, steps, n);
  }

  /** Issued, on no request's way to the table, and stored in row `i` if anywhere. */
  ghost predicate OnlyIn(s: State, h: Hash, i: RowId) {
    && h in s.issued
    && (forall p :: p in s.pending ==> NewToken(s.pending[p]) != h)
    && (forall j :: j in s.table && s.table[j].hash == h ==> j == i)
  }

  lemma OnlyInStep(max: int, s: State, e: Step, h: Hash, i: RowId)
    requires Inv(s) && Enabled(max, s, e) && OnlyIn(s, h, i)
    ensures OnlyIn(Next(max, s, e), h, i)
  {
    var s' := Next(max, s, e);
    forall p | p in s'.pending ensures NewToken(s'.pending[p]) != h {
      PendingStep(max, s, e, p);
    }
    forall j | j in s'.table && s'.table[j].hash == h ensures j == i {
      assert j in s.table && s.table[j].hash == h;
    }
  }

  lemma {:induction false} OnlyInForever(
      max: int, states: seq<State>, steps: seq<Step>, m: nat, n: nat, h: Hash, i: RowId)
    requires IsTrace(max, states, steps) && states[0] == Initial && m <= n <= |steps| && OnlyIn(states[m], h, i)
    ensures OnlyIn(states[n], h, i)
  {
    if m < n {
      OnlyInForever(max, states, steps, m, n - 1, h, i);
      InvAlways(max, states, steps, n - 1);
      assert Follows(max, states, steps, n - 1);
      OnlyInStep(max, states[n - 1], steps[n - 1], h, i);
    }
  }

  /** Logging out is final: the token of a stored session never validates again, even if a rotation that read
      the session before the logout writes it afterwards. */
  lemma LogoutIsFinal(max: int, states: seq<State>, steps: seq<Step>, m: nat, n: nat, h: Hash, now: int)
    requires IsTrace(max, states, steps) && states[0] == Initial && m < n <= |steps|
    requires steps[m] == Logout(h) && h in Hashes(states[m].table)
    ensures !Validates(states[n].table, h, now)
  {
    var t := states[m].table;
    var i :| i in t && t[i].hash == h;
    InvAlways(max, states, steps, m);
    assert Follows(max, states, steps, m);
    assert OnlyIn(states[m], h, i);
    assert states[m + 1].table[i].revoked;
    OnlyInForever(max, states, steps, m, n, h, i);
    RevokedForever(max, states, steps, m + 1, n, i);
  }

  /** Revoking a user's sessions touches theirs, all of them, and nobody else's. */
  lemma RevokeAllStep(max: int, s: State, user: string, i: RowId)
    requires i in s.table
    ensures var t' := Next(max, s, RevokeAll(user)).table;
            && t'.Keys == s.table.Keys
            && t'[i] == if s.table[i].user == user then s.table[i].(revoked := true) else s.table[i]
  {
  }

  /** It is final: no session the user had then validates ever again, by the token it had or by any later one,
      whatever requests were under way. */
  lemma RevokeAllIsFinal(
      max: int, states: seq<State>, steps: seq<Step>, m: nat, n: nat, user: string, i: RowId, now: int)
    requires IsTrace(max, states, steps) && states[0] == Initial && m < n <= |steps| && steps[m] == RevokeAll(user)
    requires i in states[m].table && states[m].table[i].user == user
    ensures i in states[n].table && !Validates(states[n].table, states[n].table[i].hash, now)
    ensures !Validates(states[n].table, states[m].table[i].hash, now)
  {
    var h := states[m].table[i].hash;
    InvAlways(max, states, steps, m);
    assert Follows(max, states, steps, m);
    RevokeAllStep(max, states[m], user, i);
    assert h in Hashes(states[m].table);
    assert OnlyIn(states[m], h, i);
    OnlyInForever(max, states, steps, m, n, h, i);
    RevokedForever(max, states, steps, m + 1, n, i);
    RevokedNeverValidates(max, states, steps, m + 1, n, i, states[n].table[i].hash, now);
  }

  // ----- replaced tokens are gone -----

  /** Issued, stored nowhere and on no request's way to the table. */
  predicate Retired(s: State, h: Hash) {
    h in s.issued && h !in Hashes(s.table) && forall p :: p in s.pending ==> NewToken(s.pending[p]) != h
  }

  lemma RetiredStep(max: int, s: State, e: Step, h: Hash)
    requires Inv(s) && Enabled(max, s, e) && Retired(s, h)
    ensures Retired(Next(max, s, e), h)
  {
    StoredTokens(max, s, e);
    var s' := Next(max, s, e);
    forall p | p in s'.pending ensures NewToken(s'.pending[p]) != h {
      PendingStep(max, s, e, p);
    }
    assert h in s'.issued;
  }

  lemma {:induction false} RetiredForever(max: int, states: seq<State>, steps: seq<Step>, m: nat, n: nat, h: Hash)
    requires IsTrace(max, states, steps) && states[0] == Initial && m <= n <= |steps|
    requires Retired(states[m], h)
    ensures Retired(states[n], h)
  {
    if m < n {
      RetiredForever(max, states, steps, m, n - 1, h);
      InvAlways(max, states, steps, n - 1);
      assert Follows(max, states, steps, n - 1);
      RetiredStep(max, states[n - 1], steps[n - 1], h);
    }
  }

  /** A write that changes a session's hash retires the one it replaced. */
  lemma ReplacingRetires(max: int, s: State, e: Step, i: RowId)
    requires Inv(s) && Enabled(max, s, e)
    requires i in s.table && i in Next(max, s, e).table && Next(max, s, e).table[i].hash != s.table[i].hash
    ensures Retired(Next(max, s, e), s.table[i].hash)
  {
    var s', h := Next(max, s, e), s.table[i].hash;
    assert h in Hashes(s.table);
    forall j | j in s'.table ensures s'.table[j].hash != h {
      assert e.RotateWrite? && s.pending[e.pid].row == i;
    }
    forall p | p in s'.pending ensures NewToken(s'.pending[p]) != h {
      PendingStep(max, s, e, p);
    }
  }

  /** A token replaced in any session never validates again, for any session, at any later step or time. */
  lemma ReplacedNeverValidates(max: int, states: seq<State>, steps: seq<Step>, m: nat, n: nat, i: RowId, now: int)
    requires IsTrace(max, states, steps) && states[0] == Initial && m < n <= |steps|
    requires i in states[m].table && i in states[m + 1].table
    requires states[m + 1].table[i].hash != states[m].table[i].hash
    ensures !Validates(states[n].table, states[m].table[i].hash, now)
  {
    var h := states[m].table[i].hash;
    InvAlways(max, states, steps, m);
    assert Follows(max, states, steps, m);
    ReplacingRetires(max, states[m], steps[m], i);
    RetiredForever(max, states, steps, m + 1, n, h);
    NotStored(states[n].table, h);
  }

  lemma NotStored(t: Table, h: Hash)
    requires h !in Hashes(t)
    ensures forall i :: i in t ==> t[i].hash != h
  {
    forall i | i in t ensures t[i].hash != h { assert t[i].hash in Hashes(t); }
  }

  // ----- single use -----

  /** The step completes a rotation that presented `h`. */
  ghost predicate Spends(s: State, e: Step, h: Hash) {
    e.RotateWrite? && e.pid in s.pending && s.pending[e.pid].Rotating? && s.pending[e.pid].presented == h
  }

  /** The row still holds the presented hash when the rotation writes it. */
  ghost predicate WritesCurrent(s: State, e: Step) {
    && e.RotateWrite? && e.pid in s.pending && s.pending[e.pid].Rotating?
    && s.pending[e.pid].row in s.table
    && s.table[s.pending[e.pid].row].hash == s.pending[e.pid].presented
  }

  /** A rotate-write always takes effect: the unique constraint never refuses a token on its way to the table. */
  lemma WriteTakesEffect(max: int, s: State, pid: Pid)
    requires Inv(s) && pid in s.pending && s.pending[pid].Rotating?
    ensures var p := s.pending[pid];
            && p.row in s.table
            && s.table[p.row].hash != p.next
            && Next(max, s, RotateWrite(pid)).table == Rewritten(s.table, p.row, p.next, p.expiresAt)
  {
    NotStored(s.table, s.pending[pid].next);
  }

  /** With read and write apart, a rotation hands over exactly if the session is unrevoked when it is written. */
  lemma WriteHandsOverIff(max: int, s: State, pid: Pid, now: int)
    requires Inv(s) && pid in s.pending && s.pending[pid].Rotating? && now <= s.pending[pid].expiresAt
    ensures var p := s.pending[pid];
            && p.row in s.table
            && (Validates(Next(max, s, RotateWrite(pid)).table, p.next, now) <==> !s.table[p.row].revoked)
  {
    var p, t' := s.pending[pid], Next(max, s, RotateWrite(pid)).table;
    WriteTakesEffect(max, s, pid);
    NotStored(s.table, p.next);
    assert t'[p.row].hash == p.next;
  }

  /** The row of a rotation in flight still holds the token it presented, or that token is gone for good. */
  ghost predicate CurrentOrRetired(s: State, p: Pid)
    requires p in s.pending && s.pending[p].Rotating?
  {
    var r := s.pending[p];
    r.row in s.table && (s.table[r.row].hash == r.presented || Retired(s, r.presented))
  }

  /** A rotation in flight after a step was there before it, or has just read its row. */
  lemma RotationInFlight(max: int, s: State, e: Step, p: Pid)
    requires Inv(s) && Enabled(max, s, e)
    requires p in Next(max, s, e).pending && Next(max, s, e).pending[p].Rotating?
    ensures var r, s' := Next(max, s, e).pending[p], Next(max, s, e);
            && r.row in s.table && r.row in s'.table
            && (if p in s.pending then s.pending[p] == r else s'.table == s.table && s.table[r.row].hash == r.presented)
  {
  }

  lemma CurrentOrRetiredStep(max: int, s: State, e: Step, p: Pid)
    requires Inv(s) && Enabled(max, s, e) && p in Next(max, s, e).pending && Next(max, s, e).pending[p].Rotating?
    requires p in s.pending && s.pending[p].Rotating? ==> CurrentOrRetired(s, p)
    ensures CurrentOrRetired(Next(max, s, e), p)
  {
    var s', r := Next(max, s, e), Next(max, s, e).pending[p];
    RotationInFlight(max, s, e, p);
    if p in s.pending {
      if Retired(s, r.presented) {
        RetiredStep(max, s, e, r.presented);
      } else if s'.table[r.row].hash != r.presented {
        ReplacingRetires(max, s, e, r.row);
      }
    }
  }

  lemma {:induction false} CurrentOrRetiredAlways(max: int, states: seq<State>, steps: seq<Step>, n: nat, p: Pid)
    requires IsTrace(max, states, steps) && states[0] == Initial && n <= |steps|
    requires p in states[n].pending && states[n].pending[p].Rotating?
    ensures CurrentOrRetired(states[n], p)
  {
    if n > 0 {
      InvAlways(max, states, steps, n - 1);
      assert Follows(max, states, steps, n - 1);
      var s := states[n - 1];
      if p in s.pending && s.pending[p].Rotating? {
        CurrentOrRetiredAlways(max, states, steps, n - 1, p);
      }
      CurrentOrRetiredStep(max, s, steps[n - 1], p);
    }
  }

  /** A completed rotation retires the token it presented, whatever its row held by then. */
  lemma SpendingRetires(max: int, states: seq<State>, steps: seq<Step>, n: nat, h: Hash)
    requires IsTrace(max, states, steps) && states[0] == Initial && n < |steps| && Spends(states[n], steps[n], h)
    ensures Retired(states[n + 1], h)
  {
    var s, e := states[n], steps[n];
    InvAlways(max, states, steps, n);
    CurrentOrRetiredAlways(max, states, steps, n, e.pid);
    assert Follows(max, states, steps, n);
    if Retired(s, h) {
      RetiredStep(max, s, e, h);
    } else {
      WriteTakesEffect(max, s, e.pid);
      ReplacingRetires(max, s, e, s.pending[e.pid].row);
    }
  }

  /** Two completed rotations of one token: the later one overwrote a hash that was not the one it had read. */
  lemma SecondSpendIsStale(max: int, states: seq<State>, steps: seq<Step>, m: nat, n: nat, h: Hash)
    requires IsTrace(max, states, steps) && states[0] == Initial && m < n < |steps|
    requires Spends(states[m], steps[m], h) && Spends(states[n], steps[n], h)
    ensures !WritesCurrent(states[n], steps[n])
  {
    SpendingRetires(max, states, steps, m, h);
    RetiredForever(max, states, steps, m + 1, n, h);
    NotStored(states[n].table, h);
  }

  /** Every write overwrites the hash it read: what `UPDATE ... WHERE refresh_token_hash = old` would enforce. */
  ghost predicate NoStaleWrites(states: seq<State>, steps: seq<Step>, n: nat)
    requires |states| == |steps| + 1 && n <= |steps|
  {
    forall i :: 0 <= i < n && steps[i].RotateWrite? ==> WritesCurrent(states[i], steps[i])
  }

  /** Until the first stale write, a row that no longer holds the token a rotation presented lost it to an
      earlier rotation of the same token. */
  lemma {:induction false} LostToAnEarlierSpend(
      max: int, states: seq<State>, steps: seq<Step>, n: nat, p: Pid) returns (i: nat)
    requires IsTrace(max, states, steps) && states[0] == Initial && n <= |steps| && NoStaleWrites(states, steps, n)
    requires p in states[n].pending && states[n].pending[p].Rotating?
    requires states[n].pending[p].row in states[n].table
    requires states[n].table[states[n].pending[p].row].hash != states[n].pending[p].presented
    ensures i < n && Spends(states[i], steps[i], states[n].pending[p].presented)
  {
    var s, e, r := states[n - 1], steps[n - 1], states[n].pending[p];
    InvAlways(max, states, steps, n - 1);
    assert Follows(max, states, steps, n - 1);
    RotationInFlight(max, s, e, p);
    if s.table[r.row].hash != r.presented {
      i := LostToAnEarlierSpend(max, states, steps, n - 1, p);
    } else {
      i := n - 1;
      HashChangesByWrite(max, s, e, r.row);
      assert WritesCurrent(s, e);
    }
  }

  lemma HashChangesByWrite(max: int, s: State, e: Step, i: RowId)
    requires Enabled(max, s, e) && i in s.table && i in Next(max, s, e).table
    requires Next(max, s, e).table[i].hash != s.table[i].hash
    ensures e.RotateWrite? && s.pending[e.pid].row == i
  {
  }

  /** The first stale write of a run completes a second rotation of some token. */
  lemma {:induction false} StaleWriteSpendsTwice(
      max: int, states: seq<State>, steps: seq<Step>, n: nat) returns (i: nat, j: nat, h: Hash)
    requires IsTrace(max, states, steps) && states[0] == Initial && n < |steps|
    requires steps[n].RotateWrite? && !WritesCurrent(states[n], steps[n])
    ensures i < j <= n && Spends(states[i], steps[i], h) && Spends(states[j], steps[j], h)
  {
    if !NoStaleWrites(states, steps, n) {
      var k :| 0 <= k < n && steps[k].RotateWrite? && !WritesCurrent(states[k], steps[k]);
      i, j, h := StaleWriteSpendsTwice(max, states, steps, k);
    } else {
      InvAlways(max, states, steps, n);
      assert Follows(max, states, steps, n);
      j, h := n, states[n].pending[steps[n].pid].presented;
      i := LostToAnEarlierSpend(max, states, steps, n, steps[n].pid);
    }
  }

  /** No token completes two rotations. */
  ghost predicate SingleUse(states: seq<State>, steps: seq<Step>)
    requires |states| == |steps| + 1
  {
    forall m, n, h :: 0 <= m < n < |steps| ==> !(Spends(states[m], steps[m], h) && Spends(states[n], steps[n], h))
  }

  /** Tokens are single-use on a run, however its requests interleave, if and only if it has no stale write. */
  lemma SingleUseIffNoStaleWrites(max: int, states: seq<State>, steps: seq<Step>)
    requires IsTrace(max, states, steps) && states[0] == Initial
    ensures SingleUse(states, steps) <==> NoStaleWrites(states, steps, |steps|)
  {
    if !NoStaleWrites(states, steps, |steps|) {
      var n :| 0 <= n < |steps| && steps[n].RotateWrite? && !WritesCurrent(states[n], steps[n]);
      var i, j, h := StaleWriteSpendsTwice(max, states, steps, n);
    } else {
      forall m, n, h | 0 <= m < n < |steps| && Spends(states[m], steps[m], h)
        ensures !Spends(states[n], steps[n], h)
      {
        if Spends(states[n], steps[n], h) { SecondSpendIsStale(max, states, steps, m, n, h); }
      }
    }
  }

  /** With them it is not: in every state, two refreshes that read a usable token before either writes both
      complete, and the first client's new token is dead on arrival. */
  lemma InterleavedRefreshesBothComplete(
      max: int, s: State, i: RowId, p: Pid, q: Pid, b: Hash, c: Hash, expiresAt: int, now: int)
    requires Inv(s) && i in s.table && Usable(s.table[i], now) && now <= expiresAt
    requires p !in s.pending && q !in s.pending && p != q
    requires b !in s.issued && c !in s.issued && b != c
    ensures var a := s.table[i].hash;
            var s1 := Next(max, s, RotateRead(p, a, b, expiresAt, now));
            var s2 := Next(max, s1, RotateRead(q, a, c, expiresAt, now));
            && Enabled(max, s2, RotateWrite(p)) && Spends(s2, RotateWrite(p), a)
            && var s3 := Next(max, s2, RotateWrite(p));
            && Enabled(max, s3, RotateWrite(q)) && Spends(s3, RotateWrite(q), a)
            && var s4 := Next(max, s3, RotateWrite(q));
            !Validates(s4.table, b, now) && Validates(s4.table, c, now)
  {
    var a := s.table[i].hash;
    RowOfUnique(s.table, i);
    var s1 := Next(max, s, RotateRead(p, a, b, expiresAt, now));
    InvIsInductive(max, s, RotateRead(p, a, b, expiresAt, now));
    var s2 := Next(max, s1, RotateRead(q, a, c, expiresAt, now));
    InvIsInductive(max, s1, RotateRead(q, a, c, expiresAt, now));
    WriteTakesEffect(max, s2, p);
    var s3 := Next(max, s2, RotateWrite(p));
    InvIsInductive(max, s2, RotateWrite(p));
    WriteTakesEffect(max, s3, q);
    var s4 := Next(max, s3, RotateWrite(q));
    ReplacingRetires(max, s3, RotateWrite(q), i);
    NotStored(s4.table, b);
    assert s4.table[i].hash == c && Usable(s4.table[i], now);
  }

  // ----- serialised requests are the interleaved steps run back to back -----

  lemma RotationBackToBack(max: int, s: State, pid: Pid, presented: Hash, next: Hash, expiresAt: int, now: int)
    requires Inv(s) && pid !in s.pending && next !in s.issued
    ensures var s1 := Next(max, s, RotateRead(pid, presented, next, expiresAt, now));
            var s2 := if pid in s1.pending then Next(max, s1, RotateWrite(pid)) else s1;
            s2.table == Rotated(s.table, presented, next, expiresAt, now) && s2.pending == s.pending
  {
    forall i | i in s.table ensures s.table[i].hash != next { assert s.table[i].hash in Hashes(s.table); }
  }

  lemma LoginBackToBack(max: int, s: State, pid: Pid, req: CreateRequest, id: RowId, oldest: Option<RowId>, at: Clock)
    requires Inv(s) && pid !in s.pending && req.hash !in s.issued && id !in s.table
    requires IsOldest(s.table, Active(s.table, req.user, Some(req.tenant), at.pickedAt), oldest)
    ensures var s1 := Next(max, s, CreateCount(pid, req, at.countedAt));
            var picked := if s1.pending[pid].count >= max then oldest else None;
            var s2 := Next(max, s1, CreatePick(pid, picked, at.pickedAt));
            var s3 := Next(max, s2, CreateWrite(pid, id, at.createdAt));
            s3.table == Created(s.table, max, req, id, at, oldest) && s3.pending == s.pending
  {
  }

  /** Two logins of one user that count before either writes; neither finds anyone to push out. */
  ghost function BothPicked(max: int, s: State, p: Pid, q: Pid, a: CreateRequest, b: CreateRequest, now: int): State
    requires p !in s.pending && q !in s.pending && p != q && a.hash !in s.issued && b.hash !in s.issued
             && a.hash != b.hash
    requires |Active(s.table, a.user, Some(a.tenant), now)| < max && a.user == b.user && a.tenant == b.tenant
    ensures BothPicked(max, s, p, q, a, b, now) ==
            State(s.table, s.pending[p := Picked(a, None)][q := Picked(b, None)], s.issued + {a.hash, b.hash})
  {
    var s1 := Next(max, s, CreateCount(p, a, now));
    var s2 := Next(max, s1, CreateCount(q, b, now));
    var s3 := Next(max, s2, CreatePick(p, None, now));
    Next(max, s3, CreatePick(q, None, now))
  }

  lemma InsertAddsItsHash(t: Table, req: CreateRequest, id: RowId, now: int)
    requires req.hash !in Hashes(t) && id !in t
    ensures Hashes(Inserted(t, req, None, id, now)) <= Hashes(t) + {req.hash}
  {
    var t' := Inserted(t, req, None, id, now);
    forall i | i in t' ensures t'[i].hash in Hashes(t) + {req.hash} {
      if i != id { assert t[i].hash in Hashes(t); }
    }
  }

  lemma InsertAddsOne(t: Table, req: CreateRequest, id: RowId, now: int)
    requires req.hash !in Hashes(t) && id !in t && now < req.expiresAt
    ensures |Active(Inserted(t, req, None, id, now), req.user, Some(req.tenant), now)| ==
            |Active(t, req.user, Some(req.tenant), now)| + 1
  {
    assert Active(Inserted(t, req, None, id, now), req.user, Some(req.tenant), now)
        == Active(t, req.user, Some(req.tenant), now) + {id};
  }

  /** Interleaved logins do exceed the limit: from every state with one free place, two logins that count
      before either writes both stay. */
  lemma InterleavedLoginsExceedLimit(
      max: int, s: State, p: Pid, q: Pid, a: CreateRequest, b: CreateRequest, i: RowId, j: RowId, now: int)
    requires Inv(s) && |Active(s.table, a.user, Some(a.tenant), now)| == max - 1
    requires a.user == b.user && a.tenant == b.tenant && now < a.expiresAt && now < b.expiresAt
    requires p !in s.pending && q !in s.pending && p != q
    requires a.hash !in s.issued && b.hash !in s.issued && a.hash != b.hash
    requires i !in s.table && j !in s.table && i != j
    ensures var s5 := Next(max, BothPicked(max, s, p, q, a, b, now), CreateWrite(p, i, now));
            && Enabled(max, s5, CreateWrite(q, j, now))
            && |Active(Next(max, s5, CreateWrite(q, j, now)).table, a.user, Some(a.tenant), now)| == max + 1
  {
    InsertAddsOne(s.table, a, i, now);
    InsertAddsItsHash(s.table, a, i, now);
    InsertAddsOne(Inserted(s.table, a, None, i, now), b, j, now);
  }
}
