/**
 The dynamic-range percentile heuristic of `CImage` (`findMinMaxPercentile`).

 Given a single-channel buffer, it finds the actual minimum and maximum, then
 picks the stored samples whose normalised position `(v - min) / range` lies
 nearest to 0.1 and nearest to 0.9. Ties go to the earliest sample. An empty
 buffer and a constant buffer both give `(0, 0)`.

 Samples are mathematical integers, which covers the unsigned 16-bit gray
 instantiation exactly (the subtraction `aMax - aMin` is done after integer
 promotion, so it never wraps). The `double` arithmetic is modelled with
 `real`, that is, without rounding.

 The reference result `PercentileBounds` compares samples by their integer
 `Gap`, ten times the range times the real distance; `GapScalesDistance` and
 `NearestByGapIffByDistance` show that this orders samples exactly as the
 real distances the method computes do.
 */
module Percentile {
  import ImageDescriptor

  /** Normalised position of the low output: the 10th percentile. */
  const LOW_TARGET: real := 0.1

  /** Normalised position of the high output: the 90th percentile. */
  const HIGH_TARGET: real := 0.9

  /** Initial "closest distance so far" of the selection pass. */
  const SENTINEL: real := 9999.0

  /** The two values written through the `min` and `max` out-pointers. */
  datatype Bounds = Bounds(min: int, max: int)

  /** Which of the two selections: nearest to 0.1 or nearest to 0.9. */
  datatype Target = Low | High

  /** The normalised position a selection aims at. */
  function Point(t: Target): real
  {
    match t
    case Low => LOW_TARGET
    case High => HIGH_TARGET
  }

  function Abs(x: real): (r: real)
    ensures r >= 0.0
    ensures r == x || r == -x
  {
    if x < 0.0 then -x else x
  }

  /** The smallest of the samples from index `i` on. */
  function MinFrom(s: seq<int>, i: nat): (m: int)
    requires i < |s|
    ensures exists j :: i <= j < |s| && s[j] == m
    ensures forall j :: i <= j < |s| ==> m <= s[j]
    decreases |s| - i
  {
    if i == |s| - 1 then s[i]
    else
      var rest := MinFrom(s, i + 1);
      if s[i] <= rest then s[i] else rest
  }

  /** The largest of the samples from index `i` on. */
  function MaxFrom(s: seq<int>, i: nat): (m: int)
    requires i < |s|
    ensures exists j :: i <= j < |s| && s[j] == m
    ensures forall j :: i <= j < |s| ==> s[j] <= m
    decreases |s| - i
  {
    if i == |s| - 1 then s[i]
    else
      var rest := MaxFrom(s, i + 1);
      if s[i] >= rest then s[i] else rest
  }

  /** The smallest sample of a non-empty buffer. */
  function Min(s: seq<int>): int
    requires |s| > 0
  {
    MinFrom(s, 0)
  }

  /** The largest sample of a non-empty buffer. */
  function Max(s: seq<int>): int
    requires |s| > 0
  {
    MaxFrom(s, 0)
  }

  /** Where `v` sits between `lo` (position 0) and `lo + range` (position 1). */
  function Position(v: int, lo: int, range: int): real
    requires range != 0
  {
    (v as real - lo as real) / range as real
  }

  /** How far the position of `v` lies from the target point, as the source computes it. */
  function Distance(v: int, lo: int, range: int, t: Target): real
    requires range != 0
  {
    Abs(Position(v, lo, range) - Point(t))
  }

  function IntAbs(x: int): (r: nat)
    ensures r == x || r == -x
  {
    if x < 0 then -x else x
  }

  /** `10 * range` times the distance of `v` from the target point, in integers. */
  function Gap(v: int, lo: int, range: int, t: Target): nat
  {
    match t
    case Low => IntAbs(10 * (v - lo) - range)
    case High => IntAbs(10 * (v - lo) - 9 * range)
  }

  /** For a positive range, the real distance is the gap divided by `10 * range`. */
  lemma GapScalesDistance(v: int, lo: int, range: int, t: Target)
    requires range > 0
    ensures Distance(v, lo, range, t) == Gap(v, lo, range, t) as real / (10 * range) as real
  {
    var tenths := if t == Low then 1 else 9;
    var x := 10 * (v - lo) - tenths * range;
    var c := (10 * range) as real;
    assert Point(t) == tenths as real / 10.0;
    OverCommonDenominator((v - lo) as real, range as real, tenths as real);
    assert Position(v, lo, range) - Point(t) == x as real / c;
    if x < 0 {
      assert Abs(x as real / c) == (-x) as real / c;
    }
  }

  /** `a / r - k / 10` over the common denominator `10 * r`. */
  lemma OverCommonDenominator(a: real, r: real, k: real)
    requires r > 0.0
    ensures a / r - k / 10.0 == (10.0 * a - k * r) / (10.0 * r)
  {
    assert a / r == (10.0 * a) / (10.0 * r);
    assert k / 10.0 == (k * r) / (10.0 * r);
  }

  /** Dividing by one positive number keeps the order of two numbers. */
  lemma QuotientOrder(a: real, b: real, c: real)
    requires c > 0.0
    ensures a / c < b / c <==> a < b
  {
    assert a / c * c == a && b / c * c == b;
    if a / c < b / c {
      assert a / c * c < b / c * c;
    }
  }

  /** For a positive range, one sample is strictly nearer the target than another exactly when its gap is smaller. */
  lemma DistanceOrder(v: int, w: int, lo: int, range: int, t: Target)
    requires range > 0
    ensures Distance(v, lo, range, t) < Distance(w, lo, range, t) <==> Gap(v, lo, range, t) < Gap(w, lo, range, t)
  {
    GapScalesDistance(v, lo, range, t);
    GapScalesDistance(w, lo, range, t);
    QuotientOrder(Gap(v, lo, range, t) as real, Gap(w, lo, range, t) as real, (10 * range) as real);
  }

  /** The gap of every sample, in buffer order. */
  function Gaps(s: seq<int>, lo: int, range: int, t: Target): (g: seq<int>)
    ensures |g| == |s|
    ensures forall i {:trigger g[i]} :: 0 <= i < |s| ==> g[i] == Gap(s[i], lo, range, t)
  {
    seq(|s|, i requires 0 <= i < |s| => Gap(s[i], lo, range, t))
  }

  /**
   Among the indices `lo <= j < hi`, `k` holds a smallest entry of `d`, and
   every entry before it in that range is strictly larger.
   */
  ghost predicate IsFirstMinimum(d: seq<int>, lo: int, hi: int, k: int)
  {
    && 0 <= lo <= k < hi <= |d|
    && (forall j :: lo <= j < hi ==> d[k] <= d[j])
    && (forall j :: lo <= j < k ==> d[k] < d[j])
  }

  /** At most one index is the first minimum of a range. */
  lemma FirstMinimumUnique(d: seq<int>, lo: int, hi: int, k1: int, k2: int)
    requires IsFirstMinimum(d, lo, hi, k1) && IsFirstMinimum(d, lo, hi, k2)
    ensures k1 == k2
  {
    var a, b := if k1 <= k2 then k1 else k2, if k1 <= k2 then k2 else k1;
    assert d[a] <= d[b];
    if a < b {
      assert false;
    }
  }

  /** The first minimum of `d` from index `i` on, found by reducing from the front. */
  function ArgMinFrom(d: seq<int>, i: nat): (k: nat)
    requires i < |d|
    ensures IsFirstMinimum(d, i, |d|, k)
    decreases |d| - i
  {
    if i == |d| - 1 then i
    else
      var k := ArgMinFrom(d, i + 1);
      if d[i] <= d[k] then i else k
  }

  /** `k` indexes a sample with the smallest gap, and every sample before it has a larger one. */
  ghost predicate IsFirstNearest(s: seq<int>, lo: int, range: int, t: Target, k: int)
  {
    IsFirstMinimum(Gaps(s, lo, range, t), 0, |s|, k)
  }

  /**
   `k` indexes a sample whose real distance to the target point is smallest,
   and every sample before it is strictly farther: the sample a strict-`<`
   scan over the source's distances ends up holding.
   */
  ghost predicate IsFirstNearestByDistance(s: seq<int>, lo: int, range: int, t: Target, k: int)
    requires range != 0
  {
    && 0 <= k < |s|
    && (forall j :: 0 <= j < |s| ==> Distance(s[k], lo, range, t) <= Distance(s[j], lo, range, t))
    && (forall j :: 0 <= j < k ==> Distance(s[k], lo, range, t) < Distance(s[j], lo, range, t))
  }

  /** For a positive range, first nearest by gap and first nearest by real distance are the same index. */
  lemma NearestByGapIffByDistance(s: seq<int>, lo: int, range: int, t: Target, k: int)
    requires range > 0
    ensures IsFirstNearest(s, lo, range, t, k) <==> IsFirstNearestByDistance(s, lo, range, t, k)
  {
    if 0 <= k < |s| {
      var g := Gaps(s, lo, range, t);
      forall j | 0 <= j < |s|
        ensures Distance(s[k], lo, range, t) <= Distance(s[j], lo, range, t) <==> g[k] <= g[j]
        ensures Distance(s[k], lo, range, t) < Distance(s[j], lo, range, t) <==> g[k] < g[j]
      {
        DistanceOrder(s[k], s[j], lo, range, t);
        DistanceOrder(s[j], s[k], lo, range, t);
      }
    }
  }

  /** The index of the first sample nearest to the target point. */
  function ArgNearest(s: seq<int>, lo: int, range: int, t: Target): (k: nat)
    requires |s| > 0
    ensures k < |s|
    ensures IsFirstNearest(s, lo, range, t, k)
  {
    ArgMinFrom(Gaps(s, lo, range, t), 0)
  }

  /** `ArgNearest` returns exactly the first nearest index, and no other. */
  lemma ArgNearestIsFirstNearest(s: seq<int>, lo: int, range: int, t: Target, k: int)
    requires |s| > 0
    ensures ArgNearest(s, lo, range, t) == k <==> IsFirstNearest(s, lo, range, t, k)
  {
    if IsFirstNearest(s, lo, range, t, k) {
      FirstMinimumUnique(Gaps(s, lo, range, t), 0, |s|, k, ArgNearest(s, lo, range, t));
    }
  }

  /** A quotient of a non-negative numerator by a denominator at least as large. */
  lemma QuotientInUnit(x: real, y: real)
    requires 0.0 <= x <= y && 0.0 < y
    ensures 0.0 <= x / y <= 1.0
  {
    assert x / y * y == x;
  }

  /** Every sample sits in the unit interval once normalised by the actual range. */
  lemma PositionInUnit(s: seq<int>, i: int)
    requires 0 <= i < |s|
    requires Max(s) - Min(s) != 0
    ensures 0.0 <= Position(s[i], Min(s), Max(s) - Min(s)) <= 1.0
  {
    QuotientInUnit(s[i] as real - Min(s) as real, (Max(s) - Min(s)) as real);
  }

  /** A sample's distance to either target is below the sentinel the selection pass starts from. */
  lemma DistanceBelowSentinel(s: seq<int>, i: int, t: Target)
    requires 0 <= i < |s|
    requires Max(s) - Min(s) != 0
    ensures Distance(s[i], Min(s), Max(s) - Min(s), t) < SENTINEL
  {
    PositionInUnit(s, i);
  }

  /** The buffer holds at least two distinct samples. */
  ghost predicate HasSpread(s: seq<int>)
  {
    exists i, j :: 0 <= i < |s| && 0 <= j < |s| && s[i] != s[j]
  }

  /** The result the heuristic promises, stated without its loops. */
  function PercentileBounds(s: seq<int>): Bounds
  {
    if |s| == 0 then Bounds(0, 0)
    else
      var lo := Min(s);
      var range := Max(s) - lo;
      if range == 0 then Bounds(0, 0)
      else Bounds(s[ArgNearest(s, lo, range, Low)], s[ArgNearest(s, lo, range, High)])
  }

  /** For a buffer with a positive actual range, the outputs are the samples at the two first-nearest indices. */
  lemma SpreadBounds(s: seq<int>, lo: int, range: int)
    requires |s| > 0
    requires lo == Min(s) && range == Max(s) - Min(s) && range > 0
    ensures PercentileBounds(s) == Bounds(s[ArgNearest(s, lo, range, Low)], s[ArgNearest(s, lo, range, High)])
  {
  }

  /** The actual range is zero exactly when the buffer is constant, and otherwise positive. */
  lemma RangeZeroIffConstant(s: seq<int>)
    requires |s| > 0
    ensures Max(s) - Min(s) >= 0
    ensures Max(s) - Min(s) == 0 <==> !HasSpread(s)
  {
    assert Min(s) <= s[0] <= Max(s);
    if Max(s) - Min(s) == 0 {
      forall i, j | 0 <= i < |s| && 0 <= j < |s|
        ensures s[i] == s[j]
      {
        assert Min(s) <= s[i] <= Max(s) && Min(s) <= s[j] <= Max(s);
      }
    } else {
      var i :| 0 <= i < |s| && s[i] == Min(s);
      var j :| 0 <= j < |s| && s[j] == Max(s);
      assert s[i] != s[j];
    }
  }

  /** An empty buffer and a buffer of identical samples both give `(0, 0)`. */
  lemma DegenerateBuffersGiveZero(s: seq<int>)
    requires !HasSpread(s)
    ensures PercentileBounds(s) == Bounds(0, 0)
  {
    if |s| > 0 {
      RangeZeroIffConstant(s);
    }
  }

  /**
   With at least two distinct samples, each output is a stored sample: the
   first one nearest to its target point by the source's real distance.
   */
  lemma SpreadBuffersPickFirstNearest(s: seq<int>)
    requires HasSpread(s)
    ensures Max(s) - Min(s) > 0
    ensures exists k :: IsFirstNearestByDistance(s, Min(s), Max(s) - Min(s), Low, k) && PercentileBounds(s).min == s[k]
    ensures exists k :: IsFirstNearestByDistance(s, Min(s), Max(s) - Min(s), High, k) && PercentileBounds(s).max == s[k]
  {
    RangeZeroIffConstant(s);
    var lo, range := Min(s), Max(s) - Min(s);
    var kLow, kHigh := ArgNearest(s, lo, range, Low), ArgNearest(s, lo, range, High);
    NearestSampleIsFirstByDistance(s, lo, range, Low);
    NearestSampleIsFirstByDistance(s, lo, range, High);
    assert PercentileBounds(s) == Bounds(s[kLow], s[kHigh]);
  }

  /** The sample `ArgNearest` picks is the first nearest by the source's real distance. */
  lemma NearestSampleIsFirstByDistance(s: seq<int>, lo: int, range: int, t: Target)
    requires |s| > 0 && range > 0
    ensures IsFirstNearestByDistance(s, lo, range, t, ArgNearest(s, lo, range, t))
  {
    NearestByGapIffByDistance(s, lo, range, t, ArgNearest(s, lo, range, t));
  }

  /**
   With at least two distinct samples, both outputs lie nearer their targets
   than the sentinel, so the selection pass always overwrites both pointers.
   */
  lemma OutputsBeatSentinel(s: seq<int>)
    requires HasSpread(s)
    ensures Max(s) - Min(s) != 0
    ensures Distance(PercentileBounds(s).min, Min(s), Max(s) - Min(s), Low) < SENTINEL
    ensures Distance(PercentileBounds(s).max, Min(s), Max(s) - Min(s), High) < SENTINEL
  {
    RangeZeroIffConstant(s);
    var lo, range := Min(s), Max(s) - Min(s);
    DistanceBelowSentinel(s, ArgNearest(s, lo, range, Low), Low);
    DistanceBelowSentinel(s, ArgNearest(s, lo, range, High), High);
  }

  /**
   The first nearest sample is no farther from the target point than any
   sample, and it is the only sample that is first nearest by real distance.
   */
  lemma NearestSampleIsNearest(s: seq<int>, lo: int, range: int, t: Target, k: int)
    requires range > 0 && 0 <= k < |s|
    ensures Distance(s[ArgNearest(s, lo, range, t)], lo, range, t) <= Distance(s[k], lo, range, t)
    ensures IsFirstNearestByDistance(s, lo, range, t, k) ==> ArgNearest(s, lo, range, t) == k
  {
    var n := ArgNearest(s, lo, range, t);
    NearestByGapIffByDistance(s, lo, range, t, n);
    NearestByGapIffByDistance(s, lo, range, t, k);
    ArgNearestIsFirstNearest(s, lo, range, t, k);
  }

  /**
   The low output is no farther from 0.1 than any sample, and the high output
   no farther from 0.9; of equally near samples the earliest one is taken.
   */
  lemma OutputsAreNearest(s: seq<int>, k: int)
    requires HasSpread(s)
    requires 0 <= k < |s|
    ensures Max(s) - Min(s) > 0
    ensures Distance(PercentileBounds(s).min, Min(s), Max(s) - Min(s), Low)
         <= Distance(s[k], Min(s), Max(s) - Min(s), Low)
    ensures Distance(PercentileBounds(s).max, Min(s), Max(s) - Min(s), High)
         <= Distance(s[k], Min(s), Max(s) - Min(s), High)
    ensures IsFirstNearestByDistance(s, Min(s), Max(s) - Min(s), Low, k) ==> PercentileBounds(s).min == s[k]
    ensures IsFirstNearestByDistance(s, Min(s), Max(s) - Min(s), High, k) ==> PercentileBounds(s).max == s[k]
  {
    RangeZeroIffConstant(s);
    SpreadBounds(s, Min(s), Max(s) - Min(s));
    NearestSampleIsNearest(s, Min(s), Max(s) - Min(s), Low, k);
    NearestSampleIsNearest(s, Min(s), Max(s) - Min(s), High, k);
  }

  /** `r` is `s` with every sample moved by the same offset `c`. */
  ghost predicate IsShift(s: seq<int>, r: seq<int>, c: int)
  {
    |r| == |s| && forall i {:trigger r[i]} :: 0 <= i < |s| ==> r[i] == s[i] + c
  }

  /** Shifting every sample shifts the actual minimum and maximum by the same offset. */
  lemma ShiftMovesExtremes(s: seq<int>, r: seq<int>, c: int)
    requires |s| > 0 && IsShift(s, r, c)
    ensures Min(r) == Min(s) + c
    ensures Max(r) == Max(s) + c
  {
    var i :| 0 <= i < |s| && s[i] == Min(s);
    var j :| 0 <= j < |s| && r[j] == Min(r);
    assert Min(r) <= r[i] && Min(s) <= s[j];
    var i' :| 0 <= i' < |s| && s[i'] == Max(s);
    var j' :| 0 <= j' < |s| && r[j'] == Max(r);
    assert r[i'] <= Max(r) && s[j'] <= Max(s);
  }

  /** Shifting the samples and the reference point together leaves every gap unchanged. */
  lemma ShiftKeepsGaps(s: seq<int>, r: seq<int>, c: int, lo: int, range: int, t: Target)
    requires IsShift(s, r, c)
    ensures Gaps(r, lo + c, range, t) == Gaps(s, lo, range, t)
  {
    var a, b := Gaps(r, lo + c, range, t), Gaps(s, lo, range, t);
    assert forall i | 0 <= i < |s| :: a[i] == b[i];
  }

  /** Shifting the samples and the reference point together keeps the first nearest index. */
  lemma ShiftKeepsArgNearest(s: seq<int>, r: seq<int>, c: int, lo: int, range: int, t: Target)
    requires |s| > 0 && IsShift(s, r, c)
    ensures ArgNearest(r, lo + c, range, t) == ArgNearest(s, lo, range, t)
  {
    ShiftKeepsGaps(s, r, c, lo, range, t);
  }

  /**
   Positions are taken relative to the actual minimum, so adding one offset to
   every sample of a non-constant buffer moves both outputs by that offset.
   */
  lemma ShiftMovesOutputs(s: seq<int>, r: seq<int>, c: int)
    requires HasSpread(s) && IsShift(s, r, c)
    ensures PercentileBounds(r) == Bounds(PercentileBounds(s).min + c, PercentileBounds(s).max + c)
  {
    RangeZeroIffConstant(s);
    ShiftMovesExtremes(s, r, c);
    var lo, range := Min(s), Max(s) - Min(s);
    var kLow, kHigh := ArgNearest(s, lo, range, Low), ArgNearest(s, lo, range, High);
    calc {
      PercentileBounds(r);
    == { SpreadBounds(r, lo + c, range); }
      Bounds(r[ArgNearest(r, lo + c, range, Low)], r[ArgNearest(r, lo + c, range, High)]);
    == { ShiftKeepsArgNearest(s, r, c, lo, range, Low); ShiftKeepsArgNearest(s, r, c, lo, range, High); }
      Bounds(r[kLow], r[kHigh]);
    == { assert r[kLow] == s[kLow] + c && r[kHigh] == s[kHigh] + c; }
      Bounds(s[kLow] + c, s[kHigh] + c);
    == { SpreadBounds(s, lo, range); }
      Bounds(PercentileBounds(s).min + c, PercentileBounds(s).max + c);
    }
  }

  /** A shifted constant buffer is still constant, so it still gives `(0, 0)` and not the shifted pair. */
  lemma ShiftKeepsConstantAtZero(s: seq<int>, r: seq<int>, c: int)
    requires !HasSpread(s) && IsShift(s, r, c)
    ensures PercentileBounds(r) == Bounds(0, 0)
  {
    assert !HasSpread(r) by {
      forall i, j | 0 <= i < |r| && 0 <= j < |r|
        ensures r[i] == r[j]
      {
        assert s[i] == s[j];
      }
    }
    DegenerateBuffersGiveZero(r);
  }

  /** First pass (`Image.h` lines 119-127): the actual minimum and maximum. */
  method ScanRange(data: seq<int>) returns (aMin: int, aMax: int)
    requires 0 < |data| < ImageDescriptor.SIZE_BOUND
    ensures aMin == Min(data) && aMax == Max(data)
  {
    aMin, aMax := data[0], data[0];
    ghost var iMin, iMax := 0, 0;
    var i := 1;
    while i < |data|
      invariant 1 <= i <= |data|
      invariant 0 <= iMin < i && data[iMin] == aMin
      invariant 0 <= iMax < i && data[iMax] == aMax
      invariant forall j :: 0 <= j < i ==> aMin <= data[j] <= aMax
    {
      if data[i] > aMax {
        aMax, iMax := data[i], i;
      }
      if data[i] < aMin {
        aMin, iMin := data[i], i;
      }
      i := i + 1;
    }
  }

  /**
   The state of one selection after `i` samples: nothing has beaten the
   sentinel yet, or `k` is the first nearest of the samples seen, `value` is
   the sample stored at `k` and `closest` its real distance.
   */
  ghost predicate Tracks(data: seq<int>, lo: int, range: int, t: Target, i: int, k: int, value: int, closest: real)
    requires range != 0
  {
    if i == 0 then closest == SENTINEL
    else
      && IsFirstMinimum(Gaps(data, lo, range, t), 0, i, k)
      && k < |data| && value == data[k] && closest == Distance(data[k], lo, range, t)
  }

  /**
   One strict-`<` step of the selection pass keeps `Tracks`, given that the
   new sample's distance `p` is below the sentinel.
   */
  lemma TracksStep(data: seq<int>, lo: int, range: int, t: Target, i: int, k: int, value: int, closest: real, p: real)
    requires 0 <= i < |data| && range > 0
    requires p == Distance(data[i], lo, range, t) && p < SENTINEL
    requires Tracks(data, lo, range, t, i, k, value, closest)
    ensures p < closest ==> Tracks(data, lo, range, t, i + 1, i, data[i], p)
    ensures !(p < closest) ==> Tracks(data, lo, range, t, i + 1, k, value, closest)
  {
    if i > 0 {
      DistanceOrder(data[i], data[k], lo, range, t);
    }
  }

  /**
   Second pass (`Image.h` lines 135-152): the first samples nearest to 0.1 and
   to 0.9. `callerMin` and `callerMax` are what the out-pointers held before
   the pass; a pointer is overwritten only when a sample beats the closest
   distance so far, which starts at the sentinel.
   */
  method SelectNearest(data: seq<int>, aMin: int, range: int, callerMin: int, callerMax: int)
    returns (min: int, max: int)
    requires 0 < |data| < ImageDescriptor.SIZE_BOUND
    requires aMin == Min(data) && range == Max(data) - Min(data) && range != 0
    ensures min == data[ArgNearest(data, aMin, range, Low)]
    ensures max == data[ArgNearest(data, aMin, range, High)]
  {
    RangeZeroIffConstant(data);
    min, max := callerMin, callerMax;
    var closestMinP, closestMaxP := SENTINEL, SENTINEL;
    ghost var kMin, kMax := 0, 0;
    var i := 0;
    while i < |data|
      invariant 0 <= i <= |data|
      invariant Tracks(data, aMin, range, Low, i, kMin, min, closestMinP)
      invariant Tracks(data, aMin, range, High, i, kMax, max, closestMaxP)
    {
      var percentile := Position(data[i], aMin, range);
      var minP := Abs(percentile - LOW_TARGET);
      var maxP := Abs(percentile - HIGH_TARGET);
      DistanceBelowSentinel(data, i, Low);
      DistanceBelowSentinel(data, i, High);
      TracksStep(data, aMin, range, Low, i, kMin, min, closestMinP, minP);
      TracksStep(data, aMin, range, High, i, kMax, max, closestMaxP, maxP);
      if minP < closestMinP {
        min := data[i];
        closestMinP := minP;
        kMin := i;
      }
      if maxP < closestMaxP {
        max := data[i];
        closestMaxP := maxP;
        kMax := i;
      }
      i := i + 1;
    }
    ArgNearestIsFirstNearest(data, aMin, range, Low, kMin);
    ArgNearestIsFirstNearest(data, aMin, range, High, kMax);
  }

  /**
   The whole heuristic (`Image.h` lines 112-153). `callerMin` and `callerMax`
   are what the out-pointers held before the call; the result shows they are
   always overwritten.
   */
  method FindMinMaxPercentile(data: seq<int>, callerMin: int, callerMax: int) returns (min: int, max: int)
    requires |data| < ImageDescriptor.SIZE_BOUND
    ensures Bounds(min, max) == PercentileBounds(data)
  {
    if |data| == 0 {
      return 0, 0;
    }
    var aMin, aMax := ScanRange(data);
    var range := aMax - aMin;
    if range == 0 {
      return 0, 0;
    }
    min, max := SelectNearest(data, aMin, range, callerMin, callerMax);
  }
}
