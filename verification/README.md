# Arrival-interval estimation and frequency inference

A Dafny model of the arrival-interval estimator of `timemachines` and of the
frequency inference that falls back on it
(`timemachines/skaters/utilities/arrivals.py`):

- `approx_mode` rounds every value and takes the statistical mode, or `None`
  when `statistics.mode` raises;
- `approx_dt` estimates the typical gap between arrivals. It returns
  `default_dt` for series of five points or fewer. Otherwise it takes the
  modal rounded absolute gap, and replaces it with `default_dt` when that
  mode is falsy (`None` or `0`);
- `infer_freq_from_epoch` asks a calendar-aware detector for a frequency
  label. If there is none, it asks again on the 20 synthetic timestamps
  `0, dt, ..., 19*dt`, where `dt` is the estimate.

Modules:

- `Wrappers` (`wrappers.dfy`): `Option`, standing for Python's "value or `None`".
- `Statistics` (`statistics.dfy`): `statistics.mode` as it behaves since
  Python 3.8. The most common value wins, and a tie goes to the value that
  occurs first. Only an empty input raises; that case is modelled as `None`.
  `IsFirstMode` is an independent definition of this result, and
  `FirstModeUnique` shows that it determines the result.
- `Rounding` (`rounding.dfy`): Python `round(x, 0)` in exact arithmetic,
  with ties going to the even neighbour. `IsRounded` is an independent
  definition of the result, and `RoundUnique` shows that it determines it.
- `Arrivals` (`arrivals.dfy`): the gaps, `approx_mode`, `approx_dt`, the
  synthetic series and `infer_freq_from_epoch`, with their properties.

Timestamps are epoch seconds as exact `real`s. The epoch-to-datetime
conversion is a parameter `toDatetime: real -> D`, applied element-wise.
The detector `pd.infer_freq` is a parameter `inferFreq: seq<D> -> Option<string>`.
Nothing is assumed about either.

Tie policy: `mode` changed behaviour in Python 3.8. This model uses the 3.8+
rule: ties go to the first-encountered value, and only an empty input
raises. Under Python < 3.8, `mode` also raised when no single value was
most common. So a series whose rounded gaps are all distinct would have
fallen back to `default_dt`. Under 3.8+ such a series yields its first
rounded gap, unless that gap rounds to 0, which is falsy and gives
`default_dt` (`DistinctGapsYieldFirstGap`, `PrimeGapsExample`,
`ZeroFirstGapExample`). The first-encountered rule is not the
smallest-value rule: gaps 3, 2, 5, 7, 11 yield 3 (`FirstNotSmallestExample`),
and gaps 5, 3, 3, 5, 1, where 5 and 3 tie, yield 5 (`TieGoesToFirstExample`).

A series of three to five points that defeats direct detection is judged on
the 60-second grid `0, 60, ..., 1140`, whatever its timestamps
(`ShortSeriesUsesDefaultGrid`). With one or two points, `pd.infer_freq`
raises before the fallback is reached (see "Left out"). The code has no
check for a non-positive estimate, and none is needed: with the default of
60 the estimate is always positive (`FallbackGrid`).

## Model

| member | source | states |
|---|---|---|
| Statistics.Mode | timemachines/skaters/utilities/arrivals.py:72-75 | `None` exactly on empty input (the only case in which `mode` raises); otherwise a value of the input that no other value outnumbers and that occurs no later than any equally common value |
| Statistics.Scan | timemachines/skaters/utilities/arrivals.py:73 | a left-to-right scan in which only a strictly more common value displaces the current one ends at the first-encountered mode |
| Statistics.FirstModeUnique | timemachines/skaters/utilities/arrivals.py:73 | two values that both satisfy the first-encountered-mode definition are equal, so the definition pins down `mode` |
| Statistics.ModeIsFirstMode | timemachines/skaters/utilities/arrivals.py:73 | any value that satisfies the definition is exactly what `Mode` returns |
| Statistics.DistinctCountAtMostOne | timemachines/skaters/utilities/arrivals.py:73 | in a sequence without repetitions no value is counted more than once |
| Statistics.ModeOfDistinct | timemachines/skaters/utilities/arrivals.py:73 | on a non-empty input without repetitions, `mode` returns the first element and does not raise |
| Statistics.ModeOfConstant | timemachines/skaters/utilities/arrivals.py:73 | on a non-empty input that repeats one value, `mode` returns that value |
| Rounding.RoundHalfEven | timemachines/skaters/utilities/arrivals.py:71 | the result is an integer within one half of the input, and it is even when the input lies exactly halfway |
| Rounding.Round | timemachines/skaters/utilities/arrivals.py:71 | `round(x, 0)` is a whole number within one half of `x`, and even when `x` lies exactly halfway |
| Rounding.RoundUnique | timemachines/skaters/utilities/arrivals.py:71 | any whole number within one half of `x` that is even on a tie equals `round(x, 0)` |
| Rounding.RoundHalfEvenUnique | timemachines/skaters/utilities/arrivals.py:71 | any integer within one half of the input that is even on a tie is the rounded value |
| Rounding.RoundNonNegative | timemachines/skaters/utilities/arrivals.py:71 | rounding a non-negative value gives a non-negative value |
| Rounding.RoundWhole | timemachines/skaters/utilities/arrivals.py:71 | rounding a whole number returns it unchanged |
| Arrivals.Diffs | timemachines/skaters/utilities/arrivals.py:64 | one gap fewer than timestamps (none for an empty series); gap `i` is the absolute difference of timestamps `i+1` and `i`, so every gap is non-negative |
| Arrivals.ApproxMode | timemachines/skaters/utilities/arrivals.py:69-75 | `None` exactly on empty input; otherwise the rounded value of some input, and the first-encountered mode of the rounded list |
| Arrivals.Or | timemachines/skaters/utilities/arrivals.py:64 | Python's `x or d`: never `None`; `x` itself when it is truthy (not `None` and not 0), `d` otherwise; so the result is falsy only when it is `d` |
| Arrivals.ApproxDt | timemachines/skaters/utilities/arrivals.py:59-66 | never `None`; exactly `defaultDt` for at most five timestamps, whatever their values, and whenever the modal gap is `None` or zero; otherwise exactly the modal gap, which is one of the rounded gaps; zero only if `defaultDt` is zero; non-negative whenever `defaultDt` is |
| Arrivals.ApproxDtShiftInvariant | timemachines/skaters/utilities/arrivals.py:64 | adding the same constant to every timestamp leaves the estimate unchanged |
| Arrivals.ConstantSeriesYieldsDefault | timemachines/skaters/utilities/arrivals.py:64 | six or more identical timestamps yield `defaultDt` rather than the genuine modal gap 0 |
| Arrivals.RegularSeriesYieldsSpacing | timemachines/skaters/utilities/arrivals.py:63-64 | six or more timestamps whose gaps all have the same whole size `g > 0`, in either direction, yield `g` |
| Arrivals.DistinctGapsYieldFirstGap | timemachines/skaters/utilities/arrivals.py:64 | when the rounded gaps are pairwise distinct, the estimate is the first rounded gap if that is non-zero, and `defaultDt` if it is zero |
| Arrivals.EstimateFromDistinctGaps | timemachines/skaters/utilities/arrivals.py:64 | the same for a given list of pairwise distinct rounded gaps: the estimate is `x or defaultDt` applied to the first of them |
| Arrivals.Synthetic | timemachines/skaters/utilities/arrivals.py:52 | the fallback series has 20 points, starts at epoch 0, and consecutive points differ by `dt` |
| Arrivals.SyntheticIncreasing | timemachines/skaters/utilities/arrivals.py:52 | with positive spacing the fallback timestamps strictly increase |
| Arrivals.EstimateOfSynthetic | timemachines/skaters/utilities/arrivals.py:52 | the estimator applied to the fallback grid of a whole spacing `g > 0` returns `g` |
| Arrivals.InferFreqFromEpoch | timemachines/skaters/utilities/arrivals.py:40-56 | a label from direct detection is returned unchanged; otherwise the result is detection on the 20-point grid spaced by the estimate, and the `None` branch for a missing estimate is never taken |
| Arrivals.FallbackGrid | timemachines/skaters/utilities/arrivals.py:49-52 | after a failed direct detection, the second detection runs on a grid whose spacing is positive and is either 60 seconds or one of the series' rounded gaps |
| Arrivals.ShortSeriesUsesDefaultGrid | timemachines/skaters/utilities/arrivals.py:49-52 | a series of at most five points on which direct detection returns no label is judged on the 60-second grid, whatever its values; with the real detector this applies to three to five points, since fewer than three raise |
| Arrivals.NoneOnlyWhenBothFail | timemachines/skaters/utilities/arrivals.py:48-56 | the result is `None` if and only if both detection attempts return `None` |
| Arrivals.MinutelyExample | timemachines/skaters/utilities/arrivals.py:59-66 | `[0, 60, ..., 360]` yields 60 |
| Arrivals.PrimeGapsExample | timemachines/skaters/utilities/arrivals.py:59-75 | the series with gaps 2, 3, 5, 7, 11, 13 yields 2, not the default |
| Arrivals.FirstNotSmallestExample | timemachines/skaters/utilities/arrivals.py:59-75 | the series with gaps 3, 2, 5, 7, 11 yields 3, the first gap and not the smallest |
| Arrivals.ZeroFirstGapExample | timemachines/skaters/utilities/arrivals.py:59-75 | the series with gaps 0.25, 2, 3, 5, 7, whose rounded gaps are distinct and start with 0, yields the default |
| Arrivals.TieGoesToFirstExample | timemachines/skaters/utilities/arrivals.py:59-75 | the series with gaps 5, 3, 3, 5, 1 yields 5: of the tied values 5 and 3, the first met wins |
| Arrivals.WholeGaps | timemachines/skaters/utilities/arrivals.py:64 | whole-second gaps are unchanged by rounding |
| Arrivals.EstimateFromRoundedGaps | timemachines/skaters/utilities/arrivals.py:63-64 | for six or more timestamps the estimate is `mode or defaultDt` over the rounded gaps |

## Left out

- `epoch_to_naive_datetime` and `naive_datetime_to_epoch` (lines 17-29) wrap `datetime` and `pytz` and dispatch on the argument's runtime type. The epoch-to-datetime direction is the opaque parameter `toDatetime`, applied element-wise. The reverse direction is not used by the modelled code.
- `is_valid_freq` (lines 32-37) has no logic of its own. It only reports whether `pd.date_range` raises.
- `pd.infer_freq` is calendar-aware detection inside pandas. It is the uninterpreted parameter `inferFreq`, and `pd.DatetimeIndex` is folded into it.
- Arrivals.InferFreqFromEpoch: exceptions raised by the two outside calls are not modelled. `inferFreq` returns a label or `None`, and `toDatetime` is total. In the code, `pd.infer_freq` raises `ValueError` on fewer than three dates, so a series of one or two points raises at line 48 and never reaches the fallback. `datetime.utcfromtimestamp` (line 22, reached from lines 46 and 52) raises on out-of-range timestamps, for example when `19*dt` lies past the year 9999.
- `approx_mode`'s `ndigits` argument: only its default, 0, is modelled. It is the only value the code passes (line 64). Rounding to other precisions is left out.
- `EPOCH`, `RECENT` and `RECENT_SECONDS` (lines 9-11) are not used by the modelled code.
- Floating point: timestamps, gaps and rounding use exact reals, so representation error and `-0.0` are not modelled. `round` on a NumPy float scales by a power of ten and rounds half to even. `Rounding.Round` does the same in exact arithmetic.
- The `mode` of Python versions before 3.8, which also raises on a tie for most common, is not modelled. See the tie policy above.
- Arrivals.ApproxDt: `defaultDt` is a number. The source would also accept `None` as `default_dt`, and the result could then be `None`. No caller passes `None`.
