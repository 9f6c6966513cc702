/** Shared vocabulary: optional values, results, the time unit, and facts about finite sets. */
module Prelude {

  datatype Option<+T> = None | Some(value: T)

  /** An HTTP answer: a value, or the status code the request ended with. */
  datatype Result<+T> = Ok(value: T) | Err(status: int)

  /** Instants and durations are whole microseconds. */
  const SECOND: int := 1_000_000

  type Positive = n: int | n > 0 witness 1

  function Max(a: int, b: int): int { if a < b then b else a }

  lemma {:induction false} SubsetCard<T>(a: set<T>, b: set<T>)
    requires a <= b
    ensures |a| <= |b|
    ensures |a| == |b| ==> a == b
  {
    assert b == a + (b - a);
    assert |b| == |a| + |b - a|;
    if |a| == |b| {
      assert b - a == {};
    }
  }
}
