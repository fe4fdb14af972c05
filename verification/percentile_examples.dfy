/**
 Worked inputs for the percentile heuristic: a ramp of distinct samples and
 two orderings of the same samples that tie.
 */
module PercentileExamples {
  import opened Percentile

  /** The buffer holds `0, 1, ..., |s| - 1` in that order. */
  ghost predicate IsRamp(s: seq<int>)
  {
    forall i :: 0 <= i < |s| ==> s[i] == i
  }

  /** The ramp `0..99` has actual minimum 0 and actual maximum 99. */
  lemma RampExtremes(s: seq<int>)
    requires |s| == 100 && IsRamp(s)
    ensures Min(s) == 0 && Max(s) == 99
  {
    assert Min(s) <= s[0] && s[99] <= Max(s);
  }

  /**
   The distinct samples `0..99` give the stored samples 10 and 89: nearest
   samples, not interpolated percentiles, and not the symmetric pair (10, 90).
   */
  lemma RampGivesNearestSamples(s: seq<int>)
    requires |s| == 100 && IsRamp(s)
    ensures PercentileBounds(s) == Bounds(10, 89)
  {
    RampExtremes(s);
    assert IsFirstNearest(s, 0, 99, Low, 10);
    assert IsFirstNearest(s, 0, 99, High, 89);
    ArgNearestIsFirstNearest(s, 0, 99, Low, 10);
    ArgNearestIsFirstNearest(s, 0, 99, High, 89);
  }

  /** On the ramp `0..99`, 89 is strictly nearer to position 0.9 than 90 is, by the source's real distance. */
  lemma RampHighIsNotNinety(s: seq<int>)
    requires |s| == 100 && IsRamp(s)
    ensures Distance(89, 0, 99, High) < Distance(90, 0, 99, High)
    ensures IsFirstNearestByDistance(s, 0, 99, High, 89)
    ensures !IsFirstNearestByDistance(s, 0, 99, High, 90)
  {
    DistanceOrder(89, 90, 0, 99, High);
    assert IsFirstNearest(s, 0, 99, High, 89);
    NearestByGapIffByDistance(s, 0, 99, High, 89);
    NearestByGapIffByDistance(s, 0, 99, High, 90);
  }

  /** Both three-sample buffers below range from 0 to 10. */
  lemma TieExtremes(s: seq<int>)
    requires |s| == 3 && s[2] == 10
    requires (s[0] == 0 && s[1] == 2) || (s[0] == 2 && s[1] == 0)
    ensures Min(s) == 0 && Max(s) == 10
  {
    assert Min(s) <= s[0] && Min(s) <= s[1] && s[2] <= Max(s);
  }

  /**
   Samples 0 and 2 of the buffer `0, 2, 10` sit at positions 0 and 0.2, both
   exactly 0.1 from position 0.1 (in binary64 as well); the low output is 0,
   the one that comes first.
   */
  lemma TieGoesToFirstSample(s: seq<int>)
    requires s == [0, 2, 10]
    ensures Distance(0, 0, 10, Low) == Distance(2, 0, 10, Low)
    ensures PercentileBounds(s) == Bounds(0, 10)
  {
    GapScalesDistance(0, 0, 10, Low);
    GapScalesDistance(2, 0, 10, Low);
    TieExtremes(s);
    assert IsFirstNearest(s, 0, 10, Low, 0);
    assert IsFirstNearest(s, 0, 10, High, 2);
    ArgNearestIsFirstNearest(s, 0, 10, Low, 0);
    ArgNearestIsFirstNearest(s, 0, 10, High, 2);
  }

  /**
   The same samples with the tied pair swapped, `2, 0, 10`: the low output
   becomes 2, so the result depends on the order of tied samples.
   */
  lemma TieDependsOnOrder(t: seq<int>)
    requires t == [2, 0, 10]
    ensures PercentileBounds(t) == Bounds(2, 10)
  {
    TieExtremes(t);
    assert IsFirstNearest(t, 0, 10, Low, 0);
    assert IsFirstNearest(t, 0, 10, High, 2);
    ArgNearestIsFirstNearest(t, 0, 10, Low, 0);
    ArgNearestIsFirstNearest(t, 0, 10, High, 2);
  }
}
