/**
  The `mode` of Python's `statistics` module, with the semantics it has had
  since Python 3.8: the most common value wins, ties go to the value whose
  first occurrence comes first, and only an empty input raises
  `StatisticsError` (modelled as `None`).

  Before Python 3.8 `mode` also raised when no single value was the most
  common; that policy is NOT the one modelled here.
*/
module Statistics {
  import opened Wrappers

  /** Number of occurrences of `v` in `xs`. */
  function Count<T(==)>(xs: seq<T>, v: T): nat
  {
    multiset(xs)[v]
  }

  /** Position of the first occurrence of `v` in `xs`. */
  function IndexOf<T(==)>(xs: seq<T>, v: T): (k: nat)
    requires v in xs
    ensures k < |xs| && xs[k] == v
    ensures forall j :: 0 <= j < k ==> xs[j] != v
  {
    if xs[0] == v then 0 else 1 + IndexOf(xs[1..], v)
  }

  /** `m` occurs in `xs`, no value of `xs` occurs more often, and `m` occurs
      no later than the first occurrence of any other equally common value. */
  ghost predicate IsFirstMode<T>(xs: seq<T>, m: T)
  {
    && m in xs
    && (forall i :: 0 <= i < |xs| ==> Count(xs, xs[i]) <= Count(xs, m))
    && (forall i :: 0 <= i < |xs| && Count(xs, xs[i]) == Count(xs, m) ==> IndexOf(xs, m) <= i)
  }

  /** Left-to-right scan keeping the first value of highest count seen so far;
      a later value replaces it only when strictly more common. */
  function Scan<T(==)>(xs: seq<T>, i: nat, best: T): (m: T)
    requires 0 < i <= |xs|
    requires best in xs && IndexOf(xs, best) < i
    requires forall j :: 0 <= j < i ==> Count(xs, xs[j]) <= Count(xs, best)
    requires forall j :: 0 <= j < i && Count(xs, xs[j]) == Count(xs, best) ==> IndexOf(xs, best) <= j
    ensures IsFirstMode(xs, m)
    decreases |xs| - i
  {
    if i == |xs| then best
    else if Count(xs, xs[i]) > Count(xs, best) then Scan(xs, i + 1, xs[i])
    else Scan(xs, i + 1, best)
  }

  /** `statistics.mode`: `None` exactly when the input is empty (the raising
      case), otherwise the first-encountered most common value. */
  function Mode<T(==)>(xs: seq<T>): (r: Option<T>)
    ensures r.None? <==> |xs| == 0
    ensures r.Some? ==> IsFirstMode(xs, r.value)
  {
    if |xs| == 0 then None else Some(Scan(xs, 1, xs[0]))
  }

  /** The first-encountered mode is unique, so `IsFirstMode` is an independent
      definition that pins down `Mode` completely. */
  lemma FirstModeUnique<T>(xs: seq<T>, a: T, b: T)
    requires IsFirstMode(xs, a) && IsFirstMode(xs, b)
    ensures a == b
  {
    var ia, ib := IndexOf(xs, a), IndexOf(xs, b);
    assert Count(xs, xs[ia]) == Count(xs, b);
    assert Count(xs, xs[ib]) == Count(xs, a);
  }

  lemma ModeIsFirstMode<T>(xs: seq<T>, m: T)
    requires IsFirstMode(xs, m)
    ensures Mode(xs) == Some(m)
  {
    FirstModeUnique(xs, Mode(xs).value, m);
  }

  /** In a sequence without repetitions every value occurs at most once. */
  lemma {:induction false} DistinctCountAtMostOne<T>(xs: seq<T>, v: T)
    requires forall i, j :: 0 <= i < j < |xs| ==> xs[i] != xs[j]
    ensures Count(xs, v) <= 1
  {
    if |xs| > 0 {
      assert xs == [xs[0]] + xs[1..];
      assert multiset(xs) == multiset{xs[0]} + multiset(xs[1..]);
      DistinctCountAtMostOne(xs[1..], v);
      if xs[0] == v {
        assert v !in xs[1..];
      }
    }
  }

  /** With no repeated value, every value is a mode and the first one wins:
      the result is the first element, not `None`. */
  lemma ModeOfDistinct<T>(xs: seq<T>)
    requires |xs| > 0
    requires forall i, j :: 0 <= i < j < |xs| ==> xs[i] != xs[j]
    ensures Mode(xs) == Some(xs[0])
  {
    forall i | 0 <= i < |xs| ensures Count(xs, xs[i]) <= Count(xs, xs[0]) {
      DistinctCountAtMostOne(xs, xs[i]);
    }
    ModeIsFirstMode(xs, xs[0]);
  }

  /** A sequence holding a single repeated value has that value as its mode. */
  lemma ModeOfConstant<T>(xs: seq<T>, v: T)
    requires |xs| > 0
    requires forall i :: 0 <= i < |xs| ==> xs[i] == v
    ensures Mode(xs) == Some(v)
  {
    var k := IndexOf(xs, Mode(xs).value);
  }
}
