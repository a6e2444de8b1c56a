/** Classification of a day's count into one of five shades: the intensity
    bucket found from the year's cut points, and the colour token for it. */
module Classify {

  /** The intensity found by scanning the cut points from index `i` on: one
      less than the first index whose cut point exceeds `count`, or the last
      index if none does. */
  function IntensityFrom(cuts: seq<nat>, count: nat, i: nat): (r: nat)
    requires 0 < i <= |cuts|
    requires forall k :: 0 <= k < i ==> cuts[k] <= count
    ensures i - 1 <= r < |cuts|
    ensures forall k :: 0 <= k <= r ==> cuts[k] <= count
    ensures r + 1 < |cuts| ==> count < cuts[r + 1]
    decreases |cuts| - i
  {
    if i == |cuts| then i - 1
    else if count < cuts[i] then i - 1
    else IntensityFrom(cuts, count, i + 1)
  }

  /** The intensity of `count` under `cuts`: the index of the last cut point
      of the leading run of cut points not above `count`. The scan would
      underflow on an empty list or a count below the first cut point, so
      both are excluded. */
  function Intensity(cuts: seq<nat>, count: nat): (r: nat)
    requires |cuts| > 0 && cuts[0] <= count
    ensures r < |cuts|
    ensures forall k :: 0 <= k <= r ==> cuts[k] <= count
    ensures r + 1 < |cuts| ==> count < cuts[r + 1]
  {
    IntensityFrom(cuts, count, 1)
  }

  /** The three facts above determine the intensity. */
  lemma IntensityUnique(cuts: seq<nat>, count: nat, r: nat)
    requires |cuts| > 0 && cuts[0] <= count
    requires r < |cuts| && (forall k :: 0 <= k <= r ==> cuts[k] <= count)
    requires r + 1 < |cuts| ==> count < cuts[r + 1]
    ensures r == Intensity(cuts, count)
  {
  }

  /** `get_intensity`: scans the cut points for the first one above the
      count. */
  method GetIntensity(cuts: seq<nat>, count: nat) returns (r: nat)
    requires |cuts| > 0 && cuts[0] <= count
    ensures r == Intensity(cuts, count)
  {
    for i := 0 to |cuts|
      invariant forall k :: 0 <= k < i ==> cuts[k] <= count
    {
      if count < cuts[i] {
        IntensityUnique(cuts, count, i - 1);
        return i - 1;
      }
    }
    IntensityUnique(cuts, count, |cuts| - 1);
    return |cuts| - 1;
  }

  /** A larger count never gets a lower intensity. */
  lemma IntensityMonotone(cuts: seq<nat>, a: nat, b: nat)
    requires |cuts| > 0 && cuts[0] <= a <= b
    ensures Intensity(cuts, a) <= Intensity(cuts, b)
  {
  }

  /** With the cut points `[0, 1, ...]` that `quartiles` returns, only a zero
      count gets intensity 0, and five cut points give at most intensity 4. */
  lemma IntensityZero(cuts: seq<nat>, count: nat)
    requires |cuts| >= 2 && cuts[0] == 0 && cuts[1] == 1
    ensures Intensity(cuts, count) == 0 <==> count == 0
    ensures |cuts| == 5 ==> Intensity(cuts, count) <= 4
  {
    var r := Intensity(cuts, count);
    if r > 0 {
      assert cuts[1] <= count;
    }
  }

  /** The cut points of the tests, and the intensities they give. */
  lemma IntensityExamples()
    ensures var cuts := [0, 1, 11, 22, 32];
      && Intensity(cuts, 0) == 0 && Intensity(cuts, 1) == 1 && Intensity(cuts, 10) == 1
      && Intensity(cuts, 18) == 2 && Intensity(cuts, 22) == 3 && Intensity(cuts, 32) == 4
      && Intensity(cuts, 100) == 4
  {
    var cuts := [0, 1, 11, 22, 32];
    IntensityUnique(cuts, 0, 0);
    IntensityUnique(cuts, 1, 1);
    IntensityUnique(cuts, 10, 1);
    IntensityUnique(cuts, 18, 2);
    IntensityUnique(cuts, 22, 3);
    IntensityUnique(cuts, 32, 4);
    IntensityUnique(cuts, 100, 4);
  }

  /** The colour of a day without a shade. */
  const Neutral: string := "var(--color-calendar-graph-day-bg)"

  /** `map_color`: the CSS token for an intensity. */
  function Color(intensity: nat): string {
    match intensity
    case 1 => "var(--color-calendar-graph-day-L1-bg)"
    case 2 => "var(--color-calendar-graph-day-L2-bg)"
    case 3 => "var(--color-calendar-graph-day-L3-bg)"
    case 4 => "var(--color-calendar-graph-day-L4-bg)"
    case _ => Neutral
  }

  /** Intensities 1 to 4 get their own shade each; every other intensity,
      0 included, gets the neutral colour. */
  lemma ColorShades(i: nat, j: nat)
    ensures Color(i) == Neutral <==> !(1 <= i <= 4)
    ensures 1 <= i <= 4 && 1 <= j <= 4 && Color(i) == Color(j) ==> i == j
  {
    var tokens := [Neutral, Color(1), Color(2), Color(3), Color(4)];
    forall a, b | 0 <= a < b < 5
      ensures tokens[a] != tokens[b]
    {
      if a == 0 {
        assert |tokens[a]| != |tokens[b]|;
      } else {
        assert tokens[a][32] != tokens[b][32];
      }
    }
    if 1 <= i <= 4 {
      assert Color(i) == tokens[i];
      assert Color(i) != tokens[0];
    }
    if 1 <= i <= 4 && 1 <= j <= 4 {
      assert Color(i) == tokens[i] && Color(j) == tokens[j];
    }
  }
}
