/** The five cut points of a year: `[0, 1, q25, q50, q75]`, where the
    quartiles are read from a quantile sketch filled with `0 .. max - 1`. */
module Quartiles {
  import opened Results
  import opened Sorting

  /** A quantile query against the values inserted into a sketch, for a
      quantile `phi` in (0, 1). The sketch may have no answer. The CKMS
      algorithm behind it is not modelled: any query function may be passed. */
  type Query = (seq<nat>, real) -> Option<nat>

  /** The quantile sketch: the values inserted so far, in insertion order. */
  class Sketch {
    var inserted: seq<nat>

    constructor ()
      ensures inserted == []
    {
      inserted := [];
    }

    method Insert(x: nat)
      modifies this
      ensures inserted == old(inserted) + [x]
    {
      inserted := inserted + [x];
    }

    /** Asks the sketch for the `phi` quantile of what it holds. */
    function Ask(query: Query, phi: real): Option<nat>
      reads this
    {
      query(inserted, phi)
    }
  }

  /** The largest element, if any. */
  function Max(s: seq<nat>): (m: Option<nat>)
    ensures m.None? <==> s == []
    ensures m.Some? ==> m.value in s && forall x :: x in s ==> x <= m.value
  {
    if s == [] then None
    else
      var rest := Max(s[1..]);
      assert forall x :: x in s ==> x == s[0] || x in s[1..];
      if rest.None? || rest.value < s[0] then Some(s[0]) else rest
  }

  /** The maximum depends only on which values occur. */
  lemma MaxSameElements(a: seq<nat>, b: seq<nat>)
    requires forall x :: x in a <==> x in b
    ensures Max(a) == Max(b)
  {
    if a != [] {
      assert Max(a).value in b && Max(b).value in a;
    }
  }

  /** `0, 1, ..., n - 1`. */
  function UpTo(n: nat): (r: seq<nat>)
    ensures |r| == n && forall i :: 0 <= i < n ==> r[i] == i
  {
    seq(n, (i: nat) => i)
  }

  /** The cut points computed from the maximum of the input, if there is
      one: `[0, 1]` followed by the three quartiles of `0 .. max - 1`. */
  function CutsOf(max: Option<nat>, query: Query): (r: Result<seq<nat>>)
    ensures max.None? ==> r == Failure(NoMaximum)
    ensures max.Some? && r.Failure? ==> r.error == NoQuartile
    ensures r.Success? ==> |r.value| == 5 && r.value[0] == 0 && r.value[1] == 1
    ensures max.Some? ==> (r.Success? <==>
      forall phi :: phi in {0.25, 0.5, 0.75} ==> query(UpTo(max.value), phi).Some?)
    ensures r.Success? ==> r.value[2..] == [query(UpTo(max.value), 0.25).value,
                                           query(UpTo(max.value), 0.5).value,
                                           query(UpTo(max.value), 0.75).value]
  {
    if max.None? then Failure(NoMaximum)
    else
      var values := UpTo(max.value);
      match (query(values, 0.25), query(values, 0.5), query(values, 0.75))
      case (Some(q1), Some(q2), Some(q3)) => Success([0, 1, q1, q2, q3])
      case _ => Failure(NoQuartile)
  }

  /** What `quartiles(input)` returns. Only the maximum of the input is used,
      never the input values themselves. */
  function QuartilesOf(input: seq<nat>, query: Query): Result<seq<nat>> {
    CutsOf(Max(input), query)
  }

  /** `quartiles`: fails on an empty input; otherwise inserts `0 .. max - 1`
      into a fresh sketch and asks it for the three quartiles, failing if
      any query has no answer. */
  method ComputeQuartiles(input: seq<nat>, query: Query) returns (r: Result<seq<nat>>)
    ensures r == QuartilesOf(input, query)
  {
    var max := Max(input);
    if max.None? {
      return Failure(NoMaximum);
    }
    var sketch := new Sketch();
    for i := 0 to max.value
      invariant sketch.inserted == UpTo(i)
    {
      sketch.Insert(i);
    }
    var q1 := sketch.Ask(query, 0.25);
    var q2 := sketch.Ask(query, 0.5);
    var q3 := sketch.Ask(query, 0.75);
    if q1.None? || q2.None? || q3.None? {
      return Failure(NoQuartile);
    }
    return Success([0, 1, q1.value, q2.value, q3.value]);
  }

  /** Two inputs with the same maximum `m` (an element of both that no
      element exceeds), or two empty inputs, get the same cut points. */
  lemma QuartilesDependOnMaximum(a: seq<nat>, b: seq<nat>, m: nat, query: Query)
    requires (a == [] && b == []) || (m in a && m in b && (forall x :: x in a ==> x <= m) && (forall x :: x in b ==> x <= m))
    ensures QuartilesOf(a, query) == QuartilesOf(b, query)
  {
    if a != [] {
      assert Max(a).value == m;
      assert Max(b).value == m;
    }
  }

  /** A quantile query answered exactly for values inserted in ascending
      order, as `quartiles` inserts them: the value of rank `floor(phi * n)`
      among the `n` values, counting from 0. */
  function ExactQuery(values: seq<nat>, phi: real): (r: Option<nat>)
    ensures r.Some? <==> values != [] && 0.0 <= phi < 1.0
    ensures r.Some? ==> r.value in values
  {
    if values == [] || !(0.0 <= phi < 1.0) then None
    else
      var k := (phi * |values| as real).Floor;
      FloorBelow(phi, |values|);
      Some(values[k])
  }

  lemma FloorBelow(phi: real, n: nat)
    requires 0.0 <= phi < 1.0 && n > 0
    ensures 0 <= (phi * n as real).Floor < n
  {
    var m := n as real;
    var x := phi * m;
    assert 0.0 <= x;
    assert x < m by {
      assert m - x == (1.0 - phi) * m;
      assert (1.0 - phi) * m > 0.0;
    }
    assert x.Floor as real <= x;
  }

  lemma ExactUpTo(n: nat, phi: real, k: nat)
    requires 0.0 <= phi < 1.0 && k < n && phi * n as real == k as real
    ensures ExactQuery(UpTo(n), phi) == Some(k)
  {
  }

  /** With exact queries, an input whose maximum is `4 * q` for a positive
      `q` gets the cut points `[0, 1, q, 2q, 3q]`. */
  lemma ExactCuts(input: seq<nat>, q: nat)
    requires 4 * q in input && forall x :: x in input ==> x <= 4 * q
    requires q > 0
    ensures QuartilesOf(input, ExactQuery) == Success([0, 1, q, 2 * q, 3 * q])
  {
    var n := 4 * q;
    assert Max(input).value == n;
    ExactUpTo(n, 0.25, q);
    ExactUpTo(n, 0.5, 2 * q);
    ExactUpTo(n, 0.75, 3 * q);
  }

  /** With exact queries, `[0, 1, 2, 3, 4, 5, 100]` gives `[0, 1, 25, 50, 75]`. */
  lemma QuartilesExample()
    ensures QuartilesOf([0, 1, 2, 3, 4, 5, 100], ExactQuery) == Success([0, 1, 25, 50, 75])
  {
    ExactCuts([0, 1, 2, 3, 4, 5, 100], 25);
  }

  /** A sketch with nothing inserted answers no exact query: a list whose
      maximum is 0 has no cut points. */
  lemma AllZeroHasNoCuts(input: seq<nat>)
    requires input != [] && forall x :: x in input ==> x == 0
    ensures QuartilesOf(input, ExactQuery) == Failure(NoQuartile)
  {
    assert Max(input).value == 0;
  }
}
