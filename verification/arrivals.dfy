/**
  Estimating the typical gap between arrival timestamps, and inferring a
  frequency label from epoch timestamps with that estimate as a fallback.

  Timestamps are epoch seconds as exact reals. The calendar-aware frequency
  detector and the epoch-to-datetime conversion belong to outside libraries
  and are passed in as uninterpreted functions.
*/
module Arrivals {
  import opened Wrappers
  import opened Statistics
  import opened Rounding

  /** Series of this length or shorter are too short to estimate from. */
  const ShortSeries := 5
  /** Gap (seconds) used when no estimate is available. */
  const DefaultDt := 60.0
  /** Number of points in the synthetic series handed to the detector. */
  const GridLength := 20

  function Abs(x: real): real
  {
    if x < 0.0 then -x else x
  }

  /** Absolute differences of consecutive timestamps (`abs` over `np.diff`). */
  function Diffs(t: seq<real>): (g: seq<real>)
    ensures |g| == if |t| == 0 then 0 else |t| - 1
    ensures forall i :: 0 <= i < |g| ==> g[i] == Abs(t[i+1] - t[i])
    ensures forall i :: 0 <= i < |g| ==> g[i] >= 0.0
  {
    if |t| < 2 then [] else [Abs(t[1] - t[0])] + Diffs(t[1..])
  }

  /** Every value rounded to a whole number, in order. */
  function Rounded(xs: seq<real>): (r: seq<real>)
    ensures |r| == |xs|
  {
    seq(|xs|, i requires 0 <= i < |xs| => Round(xs[i]))
  }

  /** `approx_mode`: the mode of the rounded values, or `None` when `mode`
      raises, which with first-encountered tie-breaking means empty input. */
  function ApproxMode(xs: seq<real>): (r: Option<real>)
    ensures r.None? <==> |xs| == 0
    ensures r.Some? ==> exists i :: 0 <= i < |xs| && Round(xs[i]) == r.value
    ensures r.Some? ==> IsFirstMode(Rounded(xs), r.value)
  {
    var m := Mode(Rounded(xs));
    if m.Some? then
      ghost var k := IndexOf(Rounded(xs), m.value);
      assert Rounded(xs)[k] == Round(xs[k]);
      m
    else m
  }

  /** Python truthiness of a number that may be `None`. */
  predicate Truthy(x: Option<real>)
  {
    x.Some? && x.value != 0.0
  }

  /** Python's `x or d` on a number that may be `None`: `x` itself when it
      is truthy, and `d` otherwise. */
  function Or(x: Option<real>, d: real): (r: Option<real>)
    ensures r.Some?
    ensures Truthy(x) ==> r == x
    ensures !Truthy(x) ==> r.value == d
    ensures Truthy(r) || r.value == d
  {
    if Truthy(x) then x else Some(d)
  }

  /** `approx_dt`: the most common whole-second gap, or `defaultDt` when the
      series is too short or that gap is `None` or zero. Never `None`. */
  function ApproxDt(t: seq<real>, defaultDt: real): (r: Option<real>)
    ensures r.Some?
    ensures |t| <= ShortSeries ==> r.value == defaultDt
    ensures |t| > ShortSeries && !Truthy(ApproxMode(Diffs(t))) ==> r.value == defaultDt
    ensures |t| > ShortSeries && Truthy(ApproxMode(Diffs(t))) ==> r == ApproxMode(Diffs(t))
    ensures r.value == defaultDt || r.value in Rounded(Diffs(t))
    ensures r.value == 0.0 ==> defaultDt == 0.0
    ensures defaultDt >= 0.0 ==> r.value >= 0.0
  {
    if |t| > ShortSeries then
      var g := Diffs(t);
      var m := ApproxMode(g);
      if Truthy(m) then
        ghost var i :| 0 <= i < |g| && Round(g[i]) == m.value;
        RoundNonNegative(g[i]);
        assert Rounded(g)[i] == m.value;
        Or(m, defaultDt)
      else Or(m, defaultDt)
    else Some(defaultDt)
  }

  /** Every timestamp moved by the same offset. */
  function Shift(t: seq<real>, c: real): (s: seq<real>)
    ensures |s| == |t|
    ensures forall i :: 0 <= i < |t| ==> s[i] - t[i] == c
  {
    seq(|t|, i requires 0 <= i < |t| => t[i] + c)
  }

  /** The estimate depends only on the gaps: it is unchanged when the whole
      series is moved in time. */
  lemma {:induction false} ApproxDtShiftInvariant(t: seq<real>, c: real, defaultDt: real)
    ensures ApproxDt(Shift(t, c), defaultDt) == ApproxDt(t, defaultDt)
  {
    var s := Shift(t, c);
    var gs, gt := Diffs(s), Diffs(t);
    forall i | 0 <= i < |gt| ensures gs[i] == gt[i] {
      assert s[i+1] - s[i] == t[i+1] - t[i];
    }
    assert gs == gt;
  }

  /** Six or more identical timestamps give `defaultDt`, not a zero gap. */
  lemma ConstantSeriesYieldsDefault(t: seq<real>, defaultDt: real)
    requires |t| > ShortSeries
    requires forall i :: 0 <= i < |t| ==> t[i] == t[0]
    ensures ApproxDt(t, defaultDt) == Some(defaultDt)
  {
    var r := Rounded(Diffs(t));
    forall i | 0 <= i < |r| ensures r[i] == 0.0 {
      assert Diffs(t)[i] == Abs(t[i+1] - t[i]) == 0.0;
      RoundWhole(0);
    }
    ModeOfConstant(r, 0.0);
  }

  /** When every gap has the same whole-second size `g > 0`, whatever the
      direction, the estimate is `g`. */
  lemma RegularSeriesYieldsSpacing(t: seq<real>, g: int, defaultDt: real)
    requires |t| > ShortSeries && g > 0
    requires forall i :: 0 <= i < |t| - 1 ==> Abs(t[i+1] - t[i]) == g as real
    ensures ApproxDt(t, defaultDt) == Some(g as real)
  {
    var r := Rounded(Diffs(t));
    forall i | 0 <= i < |r| ensures r[i] == g as real {
      assert Diffs(t)[i] == Abs(t[i+1] - t[i]) == g as real;
      assert r[i] == Round(Diffs(t)[i]);
      RoundWhole(g);
    }
    ModeOfConstant(r, g as real);
  }

  /** With all rounded gaps distinct there is no repeated gap, yet the
      estimate is the first rounded gap; only when that gap rounds to 0 is it
      replaced by `defaultDt`. */
  lemma DistinctGapsYieldFirstGap(t: seq<real>, defaultDt: real)
    requires |t| > ShortSeries
    requires forall i, j :: 0 <= i < j < |t| - 1 ==> Rounded(Diffs(t))[i] != Rounded(Diffs(t))[j]
    ensures Round(Abs(t[1] - t[0])) != 0.0 ==> ApproxDt(t, defaultDt) == Some(Round(Abs(t[1] - t[0])))
    ensures Round(Abs(t[1] - t[0])) == 0.0 ==> ApproxDt(t, defaultDt) == Some(defaultDt)
  {
    EstimateFromDistinctGaps(t, defaultDt, Rounded(Diffs(t)));
  }

  /** The synthetic series `[0, dt, 2*dt, ..., 19*dt]`, anchored at epoch 0. */
  function Synthetic(dt: real): (s: seq<real>)
    ensures |s| == GridLength
    ensures s[0] == 0.0
    ensures forall j :: 0 <= j < GridLength - 1 ==> s[j+1] - s[j] == dt
  {
    seq(GridLength, j requires 0 <= j < GridLength => j as real * dt)
  }

  /** With a positive spacing the synthetic timestamps strictly increase. */
  lemma {:induction false} SyntheticIncreasing(dt: real, i: int, j: int)
    requires dt > 0.0
    requires 0 <= i < j < GridLength
    ensures Synthetic(dt)[i] < Synthetic(dt)[j]
  {
    if i + 1 < j {
      SyntheticIncreasing(dt, i, j - 1);
    }
    assert Synthetic(dt)[j] - Synthetic(dt)[j-1] == dt;
  }

  /** Estimating on a synthetic series recovers its whole-second spacing. */
  lemma EstimateOfSynthetic(g: int, defaultDt: real)
    requires g > 0
    ensures ApproxDt(Synthetic(g as real), defaultDt) == Some(g as real)
  {
    RegularSeriesYieldsSpacing(Synthetic(g as real), g, defaultDt);
  }

  /** Element-wise conversion of epoch timestamps to datetimes. */
  function ToDatetimes<D>(t: seq<real>, toDatetime: real -> D): (d: seq<D>)
    ensures |d| == |t|
  {
    seq(|t|, i requires 0 <= i < |t| => toDatetime(t[i]))
  }

  /** `infer_freq_from_epoch`: detect directly; if that yields nothing, detect
      on a synthetic series spaced by the estimated gap. */
  function InferFreqFromEpoch<D>(t: seq<real>, toDatetime: real -> D,
                                 inferFreq: seq<D> -> Option<string>): (r: Option<string>)
    ensures inferFreq(ToDatetimes(t, toDatetime)).Some? ==> r == inferFreq(ToDatetimes(t, toDatetime))
    ensures inferFreq(ToDatetimes(t, toDatetime)).None? ==>
              r == inferFreq(ToDatetimes(Synthetic(ApproxDt(t, DefaultDt).value), toDatetime))
  {
    var direct := inferFreq(ToDatetimes(t, toDatetime));
    if direct.None? then
      var dt := ApproxDt(t, DefaultDt);
      if dt.Some? then inferFreq(ToDatetimes(Synthetic(dt.value), toDatetime))
      else None
    else direct
  }

  /** When direct detection fails, the result is detection on a strictly
      increasing 20-point grid from epoch 0 whose spacing is either the
      default 60 seconds or one of the series' rounded gaps. */
  lemma FallbackGrid<D>(t: seq<real>, toDatetime: real -> D, inferFreq: seq<D> -> Option<string>)
    requires inferFreq(ToDatetimes(t, toDatetime)).None?
    ensures exists g: real ::
              && (g == DefaultDt || g in Rounded(Diffs(t)))
              && g > 0.0
              && InferFreqFromEpoch(t, toDatetime, inferFreq) == inferFreq(ToDatetimes(Synthetic(g), toDatetime))
  {
    var g := ApproxDt(t, DefaultDt).value;
    assert g == DefaultDt || g in Rounded(Diffs(t));
    assert g > 0.0;
    assert InferFreqFromEpoch(t, toDatetime, inferFreq) == inferFreq(ToDatetimes(Synthetic(g), toDatetime));
  }

  /** A series of five or fewer points that defeats direct detection is
      always judged on the 60-second grid, whatever its timestamps. */
  lemma ShortSeriesUsesDefaultGrid<D>(t: seq<real>, toDatetime: real -> D, inferFreq: seq<D> -> Option<string>)
    requires |t| <= ShortSeries
    requires inferFreq(ToDatetimes(t, toDatetime)).None?
    ensures InferFreqFromEpoch(t, toDatetime, inferFreq) == inferFreq(ToDatetimes(Synthetic(DefaultDt), toDatetime))
  {
  }

  /** The result is `None` exactly when both detection attempts fail: the
      `None` returned when the estimate is missing is never reached. */
  lemma NoneOnlyWhenBothFail<D>(t: seq<real>, toDatetime: real -> D, inferFreq: seq<D> -> Option<string>)
    ensures InferFreqFromEpoch(t, toDatetime, inferFreq).None? <==>
              && inferFreq(ToDatetimes(t, toDatetime)).None?
              && inferFreq(ToDatetimes(Synthetic(ApproxDt(t, DefaultDt).value), toDatetime)).None?
  {
  }

  /** Seven points one minute apart: the estimate is 60 seconds. */
  lemma MinutelyExample(defaultDt: real)
    ensures ApproxDt([0.0, 60.0, 120.0, 180.0, 240.0, 300.0, 360.0], defaultDt) == Some(60.0)
  {
    RegularSeriesYieldsSpacing([0.0, 60.0, 120.0, 180.0, 240.0, 300.0, 360.0], 60, defaultDt);
  }

  /** Rounding whole-second gaps changes nothing. */
  lemma WholeGaps(t: seq<real>, gaps: seq<real>)
    requires |t| == |gaps| + 1
    requires forall i :: 0 <= i < |gaps| ==> gaps[i].Floor as real == gaps[i]
    requires forall i :: 0 <= i < |gaps| ==> Abs(t[i+1] - t[i]) == gaps[i]
    ensures Rounded(Diffs(t)) == gaps
  {
    var g := Diffs(t);
    forall i | 0 <= i < |gaps| ensures Rounded(g)[i] == gaps[i] {
      assert Abs(t[i+1] - t[i]) == gaps[i];
      assert g[i] == Abs(t[i+1] - t[i]);
      assert Rounded(g)[i] == Round(g[i]);
      RoundWhole(gaps[i].Floor);
    }
  }

  /** For six or more timestamps the estimate is the mode of the rounded
      gaps, or `defaultDt` when that mode is falsy. */
  lemma EstimateFromRoundedGaps(t: seq<real>, defaultDt: real, rounded: seq<real>)
    requires |t| > ShortSeries
    requires Rounded(Diffs(t)) == rounded
    ensures ApproxDt(t, defaultDt) == Or(Mode(rounded), defaultDt)
  {
  }

  /** `DistinctGapsYieldFirstGap` for a given list of rounded gaps: with six
      or more timestamps and no repeated rounded gap, the estimate is the
      first rounded gap unless that is falsy. */
  lemma EstimateFromDistinctGaps(t: seq<real>, defaultDt: real, rounded: seq<real>)
    requires |t| > ShortSeries
    requires Rounded(Diffs(t)) == rounded
    requires forall i, j :: 0 <= i < j < |rounded| ==> rounded[i] != rounded[j]
    ensures ApproxDt(t, defaultDt) == Or(Some(rounded[0]), defaultDt)
  {
    ModeOfDistinct(rounded);
  }

  /** Prime gaps 2, 3, 5, 7, 11, 13: no gap repeats, and the estimate is the
      first gap, 2 seconds, not the default. */
  lemma PrimeGapsExample(defaultDt: real)
    ensures ApproxDt([0.0, 2.0, 5.0, 10.0, 17.0, 28.0, 41.0], defaultDt) == Some(2.0)
  {
    var t := [0.0, 2.0, 5.0, 10.0, 17.0, 28.0, 41.0];
    var rounded := [2.0, 3.0, 5.0, 7.0, 11.0, 13.0];
    WholeGaps(t, rounded);
    EstimateFromDistinctGaps(t, defaultDt, rounded);
  }

  /** Gaps 3, 2, 5, 7, 11: no gap repeats, and the estimate is the first gap,
      3 seconds, not the smallest one. */
  lemma FirstNotSmallestExample(defaultDt: real)
    ensures ApproxDt([0.0, 3.0, 5.0, 10.0, 17.0, 28.0], defaultDt) == Some(3.0)
  {
    var t := [0.0, 3.0, 5.0, 10.0, 17.0, 28.0];
    var rounded := [3.0, 2.0, 5.0, 7.0, 11.0];
    WholeGaps(t, rounded);
    EstimateFromDistinctGaps(t, defaultDt, rounded);
  }

  /** Gaps 0.25, 2, 3, 5, 7 round to 0, 2, 3, 5, 7: no rounded gap repeats,
      the mode is the first one, 0, and being falsy it gives `defaultDt`. */
  lemma ZeroFirstGapExample(defaultDt: real)
    ensures ApproxDt([0.0, 0.25, 2.25, 5.25, 10.25, 17.25], defaultDt) == Some(defaultDt)
  {
    var t := [0.0, 0.25, 2.25, 5.25, 10.25, 17.25];
    var rounded := [0.0, 2.0, 3.0, 5.0, 7.0];
    RoundHalfEvenUnique(0.25, 0);
    forall i | 0 <= i < |rounded| ensures Rounded(Diffs(t))[i] == rounded[i] {
      if i > 0 {
        RoundWhole(rounded[i].Floor);
      }
    }
    EstimateFromDistinctGaps(t, defaultDt, rounded);
  }

  /** Gaps 5, 3, 3, 5, 1: 5 and 3 both occur twice, and the tie goes to 5,
      the one met first, not to the smaller 3. */
  lemma TieGoesToFirstExample(defaultDt: real)
    ensures ApproxDt([0.0, 5.0, 8.0, 11.0, 16.0, 17.0], defaultDt) == Some(5.0)
  {
    var t := [0.0, 5.0, 8.0, 11.0, 16.0, 17.0];
    WholeGaps(t, [5.0, 3.0, 3.0, 5.0, 1.0]);
    EstimateFromRoundedGaps(t, defaultDt, [5.0, 3.0, 3.0, 5.0, 1.0]);
    TieExampleMode();
  }

  /** In `[5, 3, 3, 5, 1]` the values 5 and 3 both occur twice; 5 occurs
      first and is the mode. */
  lemma TieExampleMode()
    ensures Mode([5.0, 3.0, 3.0, 5.0, 1.0]) == Some(5.0)
  {
    var r := [5.0, 3.0, 3.0, 5.0, 1.0];
    var m := multiset(r);
    assert m == multiset{5.0} + multiset{3.0} + multiset{3.0} + multiset{5.0} + multiset{1.0};
    assert m[5.0] == 2 && m[3.0] == 2 && m[1.0] == 1;
    assert forall i :: 0 <= i < |r| ==> Count(r, r[i]) <= Count(r, 5.0);
    assert IndexOf(r, 5.0) == 0;
    ModeIsFirstMode(r, 5.0);
  }
}
