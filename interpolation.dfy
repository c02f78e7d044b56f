/** The characterisation script's table lookup: the bracketing indices of a slew and a
    load on the two axes, then a direct, linear or bilinear blend of the table entries,
    over exact reals. Anything Python would raise on (a zero-width bracket, a row or an
    entry that is not there) makes the lookup give 0.0. */
module Interpolation {
  import opened Wrappers
  import opened LookupTables

  /** Where the bracket search that starts at `k` stops: the first position from `k` on
      that is the last one or whose successor is not below `x`. */
  function LowerFrom(index: seq<real>, x: real, k: nat): (r: nat)
    requires k < |index|
    ensures k <= r < |index|
    ensures forall m :: k < m <= r ==> index[m] < x
    ensures r == |index| - 1 || x <= index[r + 1]
    decreases |index| - k
  {
    if k < |index| - 1 && index[k + 1] < x then LowerFrom(index, x, k + 1) else k
  }

  /** The lower bracketing index of `x`: the least `k` that is the last index or whose
      successor is at least `x`. */
  function Lower(index: seq<real>, x: real): (r: nat)
    requires |index| > 0
    ensures r < |index|
    ensures forall m :: 0 < m <= r ==> index[m] < x
    ensures r == |index| - 1 || x <= index[r + 1]
  {
    LowerFrom(index, x, 0)
  }

  /** `min(lo + 1, len(index) - 1)`: the next index, or `lo` itself at the last one. */
  function Upper(index: seq<real>, lo: nat): (r: nat)
    requires lo < |index|
    ensures r < |index|
    ensures r == lo || r == lo + 1
    ensures r == lo <==> lo == |index| - 1
  {
    if lo + 1 < |index| - 1 then lo + 1 else |index| - 1
  }

  /** Where the bracket search stops, stated without the search. */
  predicate StopsAt(index: seq<real>, x: real, k: nat) {
    k < |index| && (forall m :: 0 < m <= k ==> index[m] < x) &&
    (k == |index| - 1 || x <= index[k + 1])
  }

  /** The search stops at exactly one place, which is `Lower`. */
  lemma LowerIsLeast(index: seq<real>, x: real, k: nat)
    requires |index| > 0
    ensures StopsAt(index, x, k) <==> k == Lower(index, x)
  {
  }

  /** A slew above every entry of the axis is clamped to its last entry. */
  lemma ClampAbove(index: seq<real>, x: real)
    requires |index| > 0
    requires forall k :: 0 <= k < |index| ==> index[k] < x
    ensures Lower(index, x) == |index| - 1
    ensures Upper(index, Lower(index, x)) == |index| - 1
  {
  }

  /** `values[i][j]`, or `None` where Python raises `IndexError`. */
  function At(values: seq<seq<real>>, i: nat, j: nat): (r: Option<real>)
    ensures r.Some? <==> i < |values| && j < |values[i]|
    ensures r.Some? ==> r.value == values[i][j]
  {
    if i < |values| && j < |values[i]| then Some(values[i][j]) else None
  }

  /** Python's `/` on floats, which raises `ZeroDivisionError` for a zero divisor. */
  function Div(a: real, b: real): (r: Option<real>)
    ensures r.Some? <==> b != 0.0
    ensures r.Some? ==> r.value * b == a
  {
    if b == 0.0 then None else Some(a / b)
  }

  /** `a * (1 - t) + b * t` */
  function Lerp(a: real, b: real, t: real): (r: real)
    ensures t == 0.0 ==> r == a
    ensures t == 1.0 ==> r == b
  {
    a * (1.0 - t) + b * t
  }

  /** The blend of the four cases, for the bracket `i1, i2` on the slew axis and `j1, j2`
      on the load axis; `None` where Python raises. */
  function Blend(t: LookupTable, i1: nat, i2: nat, j1: nat, j2: nat, slew: real, load: real): Option<real>
    requires i1 < |t.index1| && i2 < |t.index1| && j1 < |t.index2| && j2 < |t.index2|
  {
    if i1 == i2 && j1 == j2 then At(t.values, i1, j1)
    else if i1 == i2 then
      var u := Div(load - t.index2[j1], t.index2[j2] - t.index2[j1]);
      var v11 := At(t.values, i1, j1);
      var v12 := At(t.values, i1, j2);
      if u.None? || v11.None? || v12.None? then None
      else Some(Lerp(v11.value, v12.value, u.value))
    else if j1 == j2 then
      var u := Div(slew - t.index1[i1], t.index1[i2] - t.index1[i1]);
      var v11 := At(t.values, i1, j1);
      var v21 := At(t.values, i2, j1);
      if u.None? || v11.None? || v21.None? then None
      else Some(Lerp(v11.value, v21.value, u.value))
    else
      var t1 := Div(slew - t.index1[i1], t.index1[i2] - t.index1[i1]);
      var t2 := Div(load - t.index2[j1], t.index2[j2] - t.index2[j1]);
      var v11 := At(t.values, i1, j1);
      var v12 := At(t.values, i1, j2);
      var v21 := At(t.values, i2, j1);
      var v22 := At(t.values, i2, j2);
      if t1.None? || t2.None? || v11.None? || v12.None? || v21.None? || v22.None? then None
      else Some(Bilinear(v11.value, v12.value, v21.value, v22.value, t1.value, t2.value))
  }

  /** The full bilinear formula, in the source's order of terms. */
  function Bilinear(v11: real, v12: real, v21: real, v22: real, t1: real, t2: real): (r: real)
    ensures t1 == 0.0 ==> r == Lerp(v11, v12, t2)
    ensures t1 == 1.0 ==> r == Lerp(v21, v22, t2)
  {
    v11 * (1.0 - t1) * (1.0 - t2) + v21 * t1 * (1.0 - t2) + v12 * (1.0 - t1) * t2 + v22 * t1 * t2
  }

  /** `interpolate_timing_value`: 0.0 for a table without values or without an axis,
      otherwise the blend at the bracketing indices, or 0.0 when the blend raises. */
  function Interpolated(t: LookupTable, slew: real, load: real): real {
    if t.values == [] || t.index1 == [] || t.index2 == [] then 0.0
    else
      var i1 := Lower(t.index1, slew);
      var j1 := Lower(t.index2, load);
      Blend(t, i1, Upper(t.index1, i1), j1, Upper(t.index2, j1), slew, load).GetOr(0.0)
  }

  /** The lookup, with the two bracket searches as the loops they are. */
  method InterpolateTimingValue(t: LookupTable, slew: real, load: real) returns (v: real)
    ensures v == Interpolated(t, slew, load)
  {
    if t.values == [] {
      return 0.0;
    }
    if t.index1 == [] || t.index2 == [] {
      return 0.0;
    }
    var i1 := 0;
    while i1 < |t.index1| - 1 && t.index1[i1 + 1] < slew
      invariant i1 < |t.index1|
      invariant LowerFrom(t.index1, slew, i1) == Lower(t.index1, slew)
      decreases |t.index1| - i1
    {
      i1 := i1 + 1;
    }
    var i2 := if i1 + 1 < |t.index1| - 1 then i1 + 1 else |t.index1| - 1;
    var j1 := 0;
    while j1 < |t.index2| - 1 && t.index2[j1 + 1] < load
      invariant j1 < |t.index2|
      invariant LowerFrom(t.index2, load, j1) == Lower(t.index2, load)
      decreases |t.index2| - j1
    {
      j1 := j1 + 1;
    }
    var j2 := if j1 + 1 < |t.index2| - 1 then j1 + 1 else |t.index2| - 1;
    v := Blend(t, i1, i2, j1, j2, slew, load).GetOr(0.0);
  }

  /** Every entry after the previous one is larger. */
  predicate StrictlyIncreasing(index: seq<real>) {
    forall k :: 0 <= k < |index| - 1 ==> index[k] < index[k + 1]
  }

  /** One row per slew and one entry per load in every row. */
  predicate Rectangular(t: LookupTable) {
    |t.values| == |t.index1| && forall i :: 0 <= i < |t.values| ==> |t.values[i]| == |t.index2|
  }

  /** The weight of `x` in the bracket `lo, hi`. */
  function Weight(index: seq<real>, lo: nat, hi: nat, x: real): Option<real>
    requires lo < |index| && hi < |index|
  {
    Div(x - index[lo], index[hi] - index[lo])
  }

  /** An axis entry queried exactly: a one-entry axis, or a bracket with the entry at one
      end and the weight 0 or 1 accordingly. */
  lemma AxisExact(index: seq<real>, i: nat)
    requires StrictlyIncreasing(index) && i < |index|
    ensures var lo := Lower(index, index[i]);
      var hi := Upper(index, lo);
      (lo == hi ==> i == lo) &&
      (lo != hi ==> Weight(index, lo, hi, index[i]).Some?) &&
      (lo != hi ==> ((i == lo && Weight(index, lo, hi, index[i]).value == 0.0) ||
        (i == hi && Weight(index, lo, hi, index[i]).value == 1.0)))
  {
    var x := index[i];
    var lo := Lower(index, x);
    var hi := Upper(index, lo);
    if i == 0 {
      LowerIsLeast(index, x, 0);
      if lo != hi {
        DivZero(index[hi] - index[lo]);
      }
    } else {
      IncreasingBelow(index, i - 1);
      LowerIsLeast(index, x, i - 1);
      assert lo == i - 1 && hi == i;
      DivSelf(index[i] - index[i - 1]);
    }
  }

  /** A zero numerator over a non-zero divisor. */
  lemma DivZero(d: real)
    requires d > 0.0
    ensures Div(0.0, d) == Some(0.0)
  {
  }

  /** A non-zero number over itself. */
  lemma DivSelf(d: real)
    requires d > 0.0
    ensures Div(d, d) == Some(1.0)
  {
  }

  /** Every entry up to `k` is below the one after `k`. */
  lemma {:induction false} IncreasingBelow(index: seq<real>, k: nat)
    requires StrictlyIncreasing(index) && k < |index| - 1
    ensures forall m :: 0 < m <= k ==> index[m] < index[k + 1]
    decreases k
  {
    if k > 0 {
      IncreasingBelow(index, k - 1);
    }
  }

  /** On a rectangular table with strictly increasing axes, querying a grid point gives
      the table entry there. */
  lemma ExactAtGridPoints(t: LookupTable, i: nat, j: nat)
    requires StrictlyIncreasing(t.index1) && StrictlyIncreasing(t.index2) && Rectangular(t)
    requires i < |t.index1| && j < |t.index2|
    ensures Interpolated(t, t.index1[i], t.index2[j]) == t.values[i][j]
  {
    var slew := t.index1[i];
    var load := t.index2[j];
    AxisExact(t.index1, i);
    AxisExact(t.index2, j);
    var i1 := Lower(t.index1, slew);
    var i2 := Upper(t.index1, i1);
    var j1 := Lower(t.index2, load);
    var j2 := Upper(t.index2, j1);
    assert |t.values[i1]| == |t.index2| && |t.values[i2]| == |t.index2|;
  }

  /** Below the first entry of a strictly increasing axis the search stops at once, and
      the weight is negative: the lookup extrapolates instead of clamping. */
  lemma ExtrapolatesBelow(index: seq<real>, x: real)
    requires |index| >= 2 && StrictlyIncreasing(index) && x < index[0]
    ensures Lower(index, x) == 0 && Upper(index, 0) == 1
    ensures Weight(index, 0, 1, x).Some? && Weight(index, 0, 1, x).value < 0.0
  {
    LowerIsLeast(index, x, 0);
    var d := index[1] - index[0];
    assert d > 0.0;
    assert (x - index[0]) / d < 0.0 by {
      NegativeQuotient(x - index[0], d);
    }
  }

  lemma NegativeQuotient(a: real, d: real)
    requires a < 0.0 && d > 0.0
    ensures a / d < 0.0
  {
    assert (a / d) * d == a;
  }

  /** A table of one column, queried below its first slew, gives the linear
      extrapolation through its first two rows. */
  lemma ExtrapolatedValue(t: LookupTable, slew: real, load: real)
    requires |t.index1| >= 2 && StrictlyIncreasing(t.index1) && slew < t.index1[0]
    requires |t.index2| == 1 && Rectangular(t)
    ensures Weight(t.index1, 0, 1, slew).Some? && Weight(t.index1, 0, 1, slew).value < 0.0
    ensures Interpolated(t, slew, load) ==
      Lerp(t.values[0][0], t.values[1][0], Weight(t.index1, 0, 1, slew).value)
  {
    ExtrapolatesBelow(t.index1, slew);
    assert |t.values[0]| == 1 && |t.values[1]| == 1;
  }

  /** A bracket of zero width on the slew axis raises, so the lookup gives 0.0. */
  lemma ZeroWidthBracket(t: LookupTable, slew: real, load: real)
    requires t.values != [] && t.index2 != []
    requires |t.index1| >= 2 && t.index1[0] == t.index1[1] && slew <= t.index1[1]
    ensures Interpolated(t, slew, load) == 0.0
  {
    LowerIsLeast(t.index1, slew, 0);
  }

  /** A table with no row at the lower slew index raises, so the lookup gives 0.0: the
      rows are never checked against the axis. */
  lemma MissingRowFallback(t: LookupTable, slew: real, load: real)
    requires t.values != [] && t.index1 != [] && t.index2 != []
    requires |t.values| <= Lower(t.index1, slew)
    ensures Interpolated(t, slew, load) == 0.0
  {
  }

  /** A table without values or without an axis gives 0.0. */
  lemma EmptyFallback(t: LookupTable, slew: real, load: real)
    requires t.values == [] || t.index1 == [] || t.index2 == []
    ensures Interpolated(t, slew, load) == 0.0
  {
  }
}
