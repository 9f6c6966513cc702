/**
 The sliding-window algorithm shared by the gateway's two rate limiters.

 A bucket is a Redis sorted set of request stamps with an expiry time. A request takes its
 stamp first and its pipeline (purge, add, count, expire) runs later as one atomic step, so
 stamps can reach a bucket out of order.
 */
module SlidingWindow {
  import opened Prelude

  const WINDOW: int := 60 * SECOND

  // ----- the store -----

  /** A sorted set whose member is the text of its score, so members are the scores themselves. */
  datatype ZSet = ZSet(members: set<int>, expireAt: Option<int>)

  type Store = map<string, ZSet>

  predicate Expired(z: ZSet, now: int) { z.expireAt.Some? && z.expireAt.value <= now }

  function Live(store: Store, key: string, now: int): set<int> {
    if key in store && !Expired(store[key], now) then store[key].members else {}
  }

  function Unpurged(members: set<int>, stamp: int): set<int> {
    set s | s in members && !(0 <= s <= stamp - WINDOW)
  }

  function MembersAfter(store: Store, key: string, stamp: int, runAt: int): set<int> {
    Unpurged(Live(store, key, runAt), stamp) + {stamp}
  }

  function Pipeline(store: Store, r: Request): Store {
    store[r.key := ZSet(MembersAfter(store, r.key, r.stamp, r.runAt), Some(r.runAt + WINDOW))]
  }

  // ----- the request log -----

  /** A request, with the bucket it is counted in and the limit of its path. */
  datatype Request = Request(key: string, limit: int, stamp: int, runAt: int)

  /** The store after the pipelines of the first `n` requests ran in order on an empty database. */
  function After(log: seq<Request>, n: nat): Store
    requires n <= |log|
  {
    if n == 0 then map[] else Pipeline(After(log, n - 1), log[n - 1])
  }

  function MembersAt(log: seq<Request>, i: nat): set<int>
    requires i < |log|
  {
    MembersAfter(After(log, i), log[i].key, log[i].stamp, log[i].runAt)
  }

  predicate Accepted(log: seq<Request>, i: nat)
    requires i < |log|
  {
    |MembersAt(log, i)| <= log[i].limit
  }

  /** Request `i` is in the bucket, its own limit is at most `limit`, its stamp is in [lo, hi), it was accepted. */
  predicate AcceptedIn(log: seq<Request>, i: int, key: string, limit: int, lo: int, hi: int) {
    0 <= i < |log| && log[i].key == key && log[i].limit <= limit && lo <= log[i].stamp < hi && Accepted(log, i)
  }

  function AcceptedStamps(log: seq<Request>, key: string, limit: int, lo: int, hi: int): set<int> {
    set i | 0 <= i < |log| && AcceptedIn(log, i, key, limit, lo, hi) :: log[i].stamp
  }

  /** Pipelines run in log order, each between its stamp and `delay` after it. */
  ghost predicate Delayed(log: seq<Request>, delay: int) {
    && (forall i :: 0 <= i < |log| ==> 0 <= log[i].stamp <= log[i].runAt <= log[i].stamp + delay)
    && (forall i, j :: 0 <= i < j < |log| ==> log[i].runAt <= log[j].runAt)
  }

  /** The store still holds the stamp of `r`, for at least `WINDOW` after its pipeline ran. */
  ghost predicate Keeps(store: Store, r: Request) {
    && r.key in store
    && r.stamp in store[r.key].members
    && store[r.key].expireAt.Some?
    && r.runAt + WINDOW <= store[r.key].expireAt.value
  }

  // ----- nothing the window still needs is ever lost -----

  lemma {:induction false} Retained(log: seq<Request>, n: nat, i: nat, lo: int)
    requires i < n <= |log|
    requires forall k :: 0 <= k < n ==> 0 <= log[k].stamp <= log[k].runAt < lo + WINDOW
    requires forall j, k :: 0 <= j < k < n ==> log[j].runAt <= log[k].runAt
    requires lo <= log[i].stamp
    ensures Keeps(After(log, n), log[i])
  {
    if i < n - 1 {
      Retained(log, n - 1, i, lo);
      if log[i].key == log[n - 1].key {
        assert log[i].stamp in Live(After(log, n - 1), log[i].key, log[n - 1].runAt);
      }
    }
  }

  /** A stamp of the window is among the members its bucket counts at any later accepted request of the window. */
  lemma CountedAt(log: seq<Request>, delay: int, i: nat, last: nat, lo: int)
    requires Delayed(log, delay) && i <= last < |log| && log[i].key == log[last].key
    requires lo <= log[i].stamp && log[last].stamp < lo + WINDOW - delay
    ensures log[i].stamp in MembersAt(log, last)
  {
    if i < last {
      Retained(log, last, i, lo);
      assert log[i].stamp in Live(After(log, last), log[i].key, log[last].runAt);
    }
  }

  lemma {:induction false} LastAccepted(log: seq<Request>, n: nat, key: string, limit: int, lo: int, hi: int)
    returns (last: int)
    requires n <= |log|
    ensures last < n && (0 <= last ==> AcceptedIn(log, last, key, limit, lo, hi))
    ensures forall i :: 0 <= i < n && AcceptedIn(log, i, key, limit, lo, hi) ==> i <= last
  {
    if n == 0 {
      last := -1;
    } else if AcceptedIn(log, n - 1, key, limit, lo, hi) {
      last := n - 1;
    } else {
      last := LastAccepted(log, n - 1, key, limit, lo, hi);
    }
  }

  lemma AcceptedAreCounted(log: seq<Request>, delay: int, key: string, limit: int, lo: int, hi: int, last: nat)
    requires Delayed(log, delay) && hi == lo + WINDOW - delay
    requires last < |log| && log[last].key == key && log[last].stamp < hi
    requires forall i :: 0 <= i < |log| && AcceptedIn(log, i, key, limit, lo, hi) ==> i <= last
    ensures AcceptedStamps(log, key, limit, lo, hi) <= MembersAt(log, last)
  {
    forall i | 0 <= i < |log| && AcceptedIn(log, i, key, limit, lo, hi)
      ensures log[i].stamp in MembersAt(log, last)
    {
      CountedAt(log, delay, i, last, lo);
    }
  }

  lemma NoneAccepted(log: seq<Request>, key: string, limit: int, lo: int, hi: int)
    requires forall i :: 0 <= i < |log| ==> !AcceptedIn(log, i, key, limit, lo, hi)
    ensures AcceptedStamps(log, key, limit, lo, hi) == {}
  {
  }

  lemma WithinLimit(log: seq<Request>, i: nat, key: string, limit: int, lo: int, hi: int)
    requires AcceptedIn(log, i, key, limit, lo, hi)
    ensures |MembersAt(log, i)| <= limit
  {
  }

  /** The members counted at the last accepted request of the window cover every accepted stamp in it. */
  lemma AcceptedAreCovered(log: seq<Request>, delay: int, key: string, limit: int, lo: int, hi: int)
    returns (cover: set<int>)
    requires Delayed(log, delay) && hi == lo + WINDOW - delay
    ensures AcceptedStamps(log, key, limit, lo, hi) <= cover && |cover| <= Max(0, limit)
  {
    var last := LastAccepted(log, |log|, key, limit, lo, hi);
    if last < 0 {
      NoneAccepted(log, key, limit, lo, hi);
      cover := {};
    } else {
      AcceptedAreCounted(log, delay, key, limit, lo, hi, last);
      WithinLimit(log, last, key, limit, lo, hi);
      cover := MembersAt(log, last);
    }
  }

  /** The rate limit: whatever the delays, and whichever other paths share the bucket, the accepted stamps
      inside a window of `WINDOW - delay` number at most the limit of the paths they were accepted for. */
  lemma DelayedWindowBound(log: seq<Request>, delay: int, key: string, limit: int, lo: int)
    requires Delayed(log, delay)
    ensures |AcceptedStamps(log, key, limit, lo, lo + WINDOW - delay)| <= Max(0, limit)
  {
    var cover := AcceptedAreCovered(log, delay, key, limit, lo, lo + WINDOW - delay);
    SubsetCard(AcceptedStamps(log, key, limit, lo, lo + WINDOW - delay), cover);
  }

  /** With any delay the window cannot be widened: two requests limited to one are both accepted,
      the second stamped `WINDOW - delay` after the first. */
  lemma WindowCannotBeWidened(key: string, delay: int)
    requires 0 < delay < WINDOW
    ensures var log := [Request(key, 1, 0, 0), Request(key, 1, WINDOW - delay, WINDOW)];
            Delayed(log, delay) && AcceptedStamps(log, key, 1, 0, WINDOW - delay + 1) == {0, WINDOW - delay}
  {
    var log := [Request(key, 1, 0, 0), Request(key, 1, WINDOW - delay, WINDOW)];
    assert MembersAt(log, 0) == {0};
    assert After(log, 1) == Pipeline(After(log, 0), log[0]);
    assert MembersAt(log, 1) == {WINDOW - delay};
    assert AcceptedIn(log, 0, key, 1, 0, WINDOW - delay + 1) && AcceptedIn(log, 1, key, 1, 0, WINDOW - delay + 1);
  }

  // ----- without delay the sorted set is exactly the log -----

  ghost predicate Instant(log: seq<Request>) {
    && (forall i :: 0 <= i < |log| ==> 0 <= log[i].stamp == log[i].runAt)
    && (forall i, j :: 0 <= i < j < |log| ==> log[i].stamp < log[j].stamp)
  }

  predicate InBucket(r: Request, key: string, since: int) { r.key == key && since < r.stamp }

  /** How many of the first `n` requests, accepted or refused, are in the bucket and stamped after `since`. */
  function RequestsSince(log: seq<Request>, n: nat, key: string, since: int): nat
    requires n <= |log|
  {
    if n == 0 then 0
    else RequestsSince(log, n - 1, key, since) + (if InBucket(log[n - 1], key, since) then 1 else 0)
  }

  function StampsSince(log: seq<Request>, n: nat, key: string, since: int): set<int>
    requires n <= |log|
  {
    set i | 0 <= i < n && InBucket(log[i], key, since) :: log[i].stamp
  }

  lemma {:induction false} StampsCount(log: seq<Request>, n: nat, key: string, since: int)
    requires Instant(log) && n <= |log|
    ensures |StampsSince(log, n, key, since)| == RequestsSince(log, n, key, since)
  {
    if n == 0 {
      assert StampsSince(log, n, key, since) == {};
    } else {
      StampsCount(log, n - 1, key, since);
      var before, last := StampsSince(log, n - 1, key, since), log[n - 1];
      assert last.stamp !in before;
      if InBucket(last, key, since) {
        assert StampsSince(log, n, key, since) == before + {last.stamp};
      } else {
        assert StampsSince(log, n, key, since) == before;
      }
    }
  }

  lemma {:induction false} MemberIsLogged(log: seq<Request>, n: nat, key: string, s: int) returns (i: nat)
    requires n <= |log| && key in After(log, n) && s in After(log, n)[key].members
    ensures i < n && log[i].key == key && log[i].stamp == s
  {
    if log[n - 1].key == key && log[n - 1].stamp == s {
      i := n - 1;
    } else {
      i := MemberIsLogged(log, n - 1, key, s);
    }
  }

  lemma MembersAreTheWindow(log: seq<Request>, i: nat)
    requires Instant(log) && i < |log|
    ensures MembersAt(log, i) == StampsSince(log, i + 1, log[i].key, log[i].stamp - WINDOW)
  {
    var key, since := log[i].key, log[i].stamp - WINDOW;
    var window := StampsSince(log, i + 1, key, since);
    forall s | s in window ensures s in MembersAt(log, i) {
      var j :| 0 <= j < i + 1 && InBucket(log[j], key, since) && log[j].stamp == s;
      CountedAt(log, 0, j, i, since + 1);
    }
    forall s | s in MembersAt(log, i) ensures s in window {
      var j := i;
      if s != log[i].stamp {
        j := MemberIsLogged(log, i, key, s);
      }
      assert InBucket(log[j], key, since);
    }
  }

  /** The sorted set refines the log: a request is accepted exactly when the bucket's requests of the
      last `WINDOW`, this one included, stay within the limit. Purging and expiry lose nothing. */
  lemma AcceptedIffLogWithinLimit(log: seq<Request>, i: nat)
    requires Instant(log) && i < |log|
    ensures Accepted(log, i) <==>
            RequestsSince(log, i + 1, log[i].key, log[i].stamp - WINDOW) <= log[i].limit
  {
    MembersAreTheWindow(log, i);
    StampsCount(log, i + 1, log[i].key, log[i].stamp - WINDOW);
  }

  lemma {:induction false} ExpiryIsARun(log: seq<Request>, n: nat, key: string) returns (i: nat)
    requires n <= |log| && key in After(log, n)
    ensures i < n && log[i].key == key && After(log, n)[key].expireAt == Some(log[i].runAt + WINDOW)
  {
    if log[n - 1].key == key {
      i := n - 1;
    } else {
      i := ExpiryIsARun(log, n - 1, key);
    }
  }

  /** Silence readmits: when no pipeline of the bucket ran in the last `WINDOW`, the request is accepted. */
  lemma SilenceReadmits(log: seq<Request>, i: nat)
    requires i < |log| && log[i].limit >= 1
    requires forall j :: 0 <= j < i && log[j].key == log[i].key ==> log[j].runAt + WINDOW <= log[i].runAt
    ensures Accepted(log, i)
  {
    if log[i].key in After(log, i) {
      var j := ExpiryIsARun(log, i, log[i].key);
    }
    assert MembersAt(log, i) == {log[i].stamp};
  }

  lemma {:induction false} AfterPrefix(log: seq<Request>, more: seq<Request>, n: nat)
    requires n <= |log|
    ensures After(log + more, n) == After(log, n)
  {
    if n > 0 {
      AfterPrefix(log, more, n - 1);
    }
  }

  // ----- the algorithm, command by command -----

  /** A Redis database of sorted sets. */
  class SortedSets {
    var store: Store

    constructor ()
      ensures store == map[]
    {
      store := map[];
    }

    method ZRemRangeByScore(key: string, min: int, max: int, now: int)
      modifies this
      ensures store - {key} == old(store) - {key}
      ensures Live(store, key, now) == set s | s in old(Live(store, key, now)) && !(min <= s <= max)
    {
      var kept := set s | s in Live(store, key, now) && !(min <= s <= max);
      if kept == {} {
        store := store - {key};
      } else {
        store := store[key := store[key].(members := kept)];
      }
    }

    method ZAdd(key: string, member: int, now: int)
      modifies this
      ensures store - {key} == old(store) - {key}
      ensures key in store && !Expired(store[key], now)
      ensures store[key].members == old(Live(store, key, now)) + {member}
    {
      if key in store && !Expired(store[key], now) {
        store := store[key := store[key].(members := store[key].members + {member})];
      } else {
        store := store[key := ZSet({member}, None)];
      }
    }

    method ZCard(key: string, now: int) returns (count: nat)
      ensures count == |Live(store, key, now)|
    {
      count := |Live(store, key, now)|;
    }

    method Expire(key: string, duration: int, now: int)
      requires key in store && !Expired(store[key], now)
      modifies this
      ensures store == old(store)[key := old(store)[key].(expireAt := Some(now + duration))]
    {
      store := store[key := store[key].(expireAt := Some(now + duration))];
    }

    /** The atomic pipeline of one request: purge, add, count, expire. */
    method RunPipeline(r: Request) returns (count: nat)
      modifies this
      ensures store == Pipeline(old(store), r)
      ensures count == |MembersAfter(old(store), r.key, r.stamp, r.runAt)|
    {
      ZRemRangeByScore(r.key, 0, r.stamp - WINDOW, r.runAt);
      assert Live(store, r.key, r.runAt) == Unpurged(old(Live(store, r.key, r.runAt)), r.stamp);
      ZAdd(r.key, r.stamp, r.runAt);
      count := ZCard(r.key, r.runAt);
      Expire(r.key, WINDOW, r.runAt);
      assert store - {r.key} == old(store) - {r.key};
      forall k | k in store || k in old(store)
        ensures k in Pipeline(old(store), r) <==> k in store
        ensures k in store ==> store[k] == Pipeline(old(store), r)[k]
      {
        if k != r.key {
          assert k in store - {r.key} <==> k in old(store) - {r.key};
          if k in store { assert (store - {r.key})[k] == (old(store) - {r.key})[k]; }
        }
      }
    }
  }
}
