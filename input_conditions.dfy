/** The input conditions of the electrical-similarity test: the range of slews and of
    loads over the delay and transition tables of every timing arc of every cell, and
    the slew-major list of every pair of sampled slew and sampled load. */
module InputConditions {
  import opened Wrappers
  import opened LookupTables

  /** The record `_extract_timing_arcs` builds for one `timing` group; a table the group
      does not have stays `None`. */
  datatype TimingArc = TimingArc(
    outputPin: string, relatedPin: string, timingSense: string, timingType: string,
    cellRise: Option<LookupTable>, cellFall: Option<LookupTable>,
    riseTransition: Option<LookupTable>, fallTransition: Option<LookupTable>,
    risePower: Option<LookupTable>, fallPower: Option<LookupTable>)

  /** The tables the range scan consults, in its order: `cell_rise`, `cell_fall`,
      `rise_transition`, `fall_transition`. The power tables are not among them. */
  function DelayTables(arc: TimingArc): (r: seq<Option<LookupTable>>)
    ensures |r| == 4
  {
    [arc.cellRise, arc.cellFall, arc.riseTransition, arc.fallTransition]
  }

  /** The delay tables of a list of arcs, arc by arc. */
  function ArcsTables(arcs: seq<TimingArc>): (r: seq<Option<LookupTable>>)
    ensures |r| == 4 * |arcs|
  {
    if arcs == [] then [] else ArcsTables(arcs[..|arcs| - 1]) + DelayTables(arcs[|arcs| - 1])
  }

  /** The delay tables of every cell's arcs, cell by cell; `cells` holds the
      `timing_arcs` list of each cell in the order of the cell map. */
  function CellsTables(cells: seq<seq<TimingArc>>): seq<Option<LookupTable>> {
    if cells == [] then [] else CellsTables(cells[..|cells| - 1]) + ArcsTables(cells[|cells| - 1])
  }

  /** A running range: `lo` is `None` for `float('inf')`, `hi` starts at 0. */
  datatype Range = Range(lo: Option<real>, hi: real)

  const Unbounded := Range(None, 0.0)

  /** `min(xs)` of a non-empty list. */
  function SeqMin(xs: seq<real>): (m: real)
    requires xs != []
    ensures m in xs && forall x :: x in xs ==> m <= x
  {
    if |xs| == 1 then xs[0]
    else
      var m := SeqMin(xs[1..]);
      assert forall x :: x in xs ==> x == xs[0] || x in xs[1..];
      if xs[0] <= m then xs[0] else m
  }

  /** `max(xs)` of a non-empty list. */
  function SeqMax(xs: seq<real>): (m: real)
    requires xs != []
    ensures m in xs && forall x :: x in xs ==> x <= m
  {
    if |xs| == 1 then xs[0]
    else
      var m := SeqMax(xs[1..]);
      assert forall x :: x in xs ==> x == xs[0] || x in xs[1..];
      if m <= xs[0] then xs[0] else m
  }

  /** `min(lo, min(xs))` and `max(hi, max(xs))` when `xs` is non-empty, the range itself
      otherwise. */
  function WidenIf(r: Range, xs: seq<real>): (w: Range)
    ensures xs == [] ==> w == r
    ensures xs != [] ==> w.lo.Some? && w.lo.value in xs + (if r.lo.Some? then [r.lo.value] else [])
    ensures xs != [] ==> forall x :: x in xs ==> w.lo.value <= x <= w.hi
    ensures xs != [] && r.lo.Some? ==> w.lo.value <= r.lo.value
    ensures r.hi <= w.hi && (w.hi == r.hi || w.hi in xs)
  {
    if xs == [] then r
    else
      var m := SeqMin(xs);
      var lo := if r.lo.Some? && r.lo.value <= m then r.lo.value else m;
      var top := SeqMax(xs);
      Range(Some(lo), if top > r.hi then top else r.hi)
  }

  /** The range over a list of axes, widened axis by axis. */
  function AxisRange(axes: seq<seq<real>>): Range {
    if axes == [] then Unbounded else WidenIf(AxisRange(axes[..|axes| - 1]), axes[|axes| - 1])
  }

  /** The slew axis of an optional table, the empty axis for a missing table. */
  function SlewAxis(t: Option<LookupTable>): seq<real> {
    if t.Some? then t.value.index1 else []
  }

  /** The load axis of an optional table. */
  function LoadAxis(t: Option<LookupTable>): seq<real> {
    if t.Some? then t.value.index2 else []
  }

  /** The slew axes of a list of tables. */
  function SlewAxes(ts: seq<Option<LookupTable>>): (r: seq<seq<real>>)
    ensures |r| == |ts| && forall k :: 0 <= k < |ts| ==> r[k] == SlewAxis(ts[k])
  {
    seq(|ts|, k requires 0 <= k < |ts| => SlewAxis(ts[k]))
  }

  /** The load axes of a list of tables. */
  function LoadAxes(ts: seq<Option<LookupTable>>): (r: seq<seq<real>>)
    ensures |r| == |ts| && forall k :: 0 <= k < |ts| ==> r[k] == LoadAxis(ts[k])
  {
    seq(|ts|, k requires 0 <= k < |ts| => LoadAxis(ts[k]))
  }

  /** The first loop of `generate_input_conditions`: the slew range and the load range
      over every delay table. */
  function InputRanges(cells: seq<seq<TimingArc>>): (Range, Range) {
    var ts := CellsTables(cells);
    (AxisRange(SlewAxes(ts)), AxisRange(LoadAxes(ts)))
  }

  /** The range over a list of axes bounds every entry, never has an upper end below 0,
      has an upper end above 0 and any lower end only where some axis has that entry,
      and keeps its lower end infinite exactly when every axis is empty. */
  lemma AxisRangeBounds(axes: seq<seq<real>>)
    ensures var r := AxisRange(axes);
      forall k, x :: 0 <= k < |axes| && x in axes[k] ==> r.lo.Some? && r.lo.value <= x <= r.hi
    ensures AxisRange(axes).hi >= 0.0
    ensures AxisRange(axes).lo.Some? ==> exists k :: 0 <= k < |axes| && AxisRange(axes).lo.value in axes[k]
    ensures AxisRange(axes).hi > 0.0 ==> exists k :: 0 <= k < |axes| && AxisRange(axes).hi in axes[k]
    ensures AxisRange(axes).lo.None? <==> forall k :: 0 <= k < |axes| ==> axes[k] == []
  {
    AxisRangeCovers(axes);
    AxisRangeAttained(axes);
    AxisRangeEmpty(axes);
  }

  /** Every entry lies in the range, and the upper end is never below 0. */
  lemma {:induction false} AxisRangeCovers(axes: seq<seq<real>>)
    ensures var r := AxisRange(axes);
      forall k, x :: 0 <= k < |axes| && x in axes[k] ==> r.lo.Some? && r.lo.value <= x <= r.hi
    ensures AxisRange(axes).hi >= 0.0
    decreases |axes|
  {
    if axes != [] {
      var n := |axes| - 1;
      var front := axes[..n];
      AxisRangeCovers(front);
      assert forall k :: 0 <= k < n ==> front[k] == axes[k];
      assert AxisRange(axes) == WidenIf(AxisRange(front), axes[n]);
    }
  }

  /** A finite lower end is an entry of some axis, and so is an upper end above 0. */
  lemma {:induction false} AxisRangeAttained(axes: seq<seq<real>>)
    ensures AxisRange(axes).lo.Some? ==> exists k :: 0 <= k < |axes| && AxisRange(axes).lo.value in axes[k]
    ensures AxisRange(axes).hi > 0.0 ==> exists k :: 0 <= k < |axes| && AxisRange(axes).hi in axes[k]
    decreases |axes|
  {
    if axes != [] {
      var n := |axes| - 1;
      var front := axes[..n];
      AxisRangeAttained(front);
      var r := AxisRange(front);
      var w := AxisRange(axes);
      assert w == WidenIf(r, axes[n]);
      if w.lo.Some? && !(axes[n] != [] && w.lo.value in axes[n]) {
        var k :| 0 <= k < n && r.lo.value in front[k];
        assert front[k] == axes[k];
      }
      if w.hi > 0.0 && w.hi == r.hi {
        var k :| 0 <= k < n && r.hi in front[k];
        assert front[k] == axes[k];
      }
    }
  }

  /** The lower end stays infinite exactly when every axis is empty. */
  lemma {:induction false} AxisRangeEmpty(axes: seq<seq<real>>)
    ensures AxisRange(axes).lo.None? <==> forall k :: 0 <= k < |axes| ==> axes[k] == []
    decreases |axes|
  {
    if axes != [] {
      var n := |axes| - 1;
      var front := axes[..n];
      AxisRangeEmpty(front);
      assert forall k :: 0 <= k < n ==> front[k] == axes[k];
      assert AxisRange(axes) == WidenIf(AxisRange(front), axes[n]);
    }
  }

  /** Where the delay table `k` of arc `a` of cell `c` sits among the scanned tables. */
  lemma {:induction false} CellsTablesHas(cells: seq<seq<TimingArc>>, c: nat, a: nat, k: nat)
    requires c < |cells| && a < |cells[c]| && k < 4
    ensures exists p :: 0 <= p < |CellsTables(cells)| && CellsTables(cells)[p] == DelayTables(cells[c][a])[k]
    decreases |cells|
  {
    var n := |cells| - 1;
    if c < n {
      CellsTablesHas(cells[..n], c, a, k);
      var p :| 0 <= p < |CellsTables(cells[..n])| && CellsTables(cells[..n])[p] == DelayTables(cells[c][a])[k];
      assert CellsTables(cells)[p] == CellsTables(cells[..n])[p];
    } else {
      ArcsTablesHas(cells[c], a, k);
      var p :| 0 <= p < |ArcsTables(cells[c])| && ArcsTables(cells[c])[p] == DelayTables(cells[c][a])[k];
      assert CellsTables(cells)[|CellsTables(cells[..n])| + p] == ArcsTables(cells[c])[p];
    }
  }

  lemma {:induction false} ArcsTablesHas(arcs: seq<TimingArc>, a: nat, k: nat)
    requires a < |arcs| && k < 4
    ensures exists p :: 0 <= p < |ArcsTables(arcs)| && ArcsTables(arcs)[p] == DelayTables(arcs[a])[k]
    decreases |arcs|
  {
    var n := |arcs| - 1;
    if a < n {
      ArcsTablesHas(arcs[..n], a, k);
      var p :| 0 <= p < |ArcsTables(arcs[..n])| && ArcsTables(arcs[..n])[p] == DelayTables(arcs[a])[k];
      assert ArcsTables(arcs)[p] == ArcsTables(arcs[..n])[p];
    } else {
      assert ArcsTables(arcs)[4 * n + k] == DelayTables(arcs[a])[k];
    }
  }

  /** Every slew and every load of every delay table of every arc lies in the ranges the
      scan finds. */
  lemma RangesCoverDelayTables(cells: seq<seq<TimingArc>>, c: nat, a: nat, k: nat)
    requires c < |cells| && a < |cells[c]| && k < 4 && DelayTables(cells[c][a])[k].Some?
    ensures var t := DelayTables(cells[c][a])[k].value;
      var (slew, load) := InputRanges(cells);
      (forall x :: x in t.index1 ==> slew.lo.Some? && slew.lo.value <= x <= slew.hi) &&
      (forall x :: x in t.index2 ==> load.lo.Some? && load.lo.value <= x <= load.hi)
  {
    var ts := CellsTables(cells);
    CellsTablesHas(cells, c, a, k);
    var p :| 0 <= p < |ts| && ts[p] == DelayTables(cells[c][a])[k];
    AxisRangeBounds(SlewAxes(ts));
    AxisRangeBounds(LoadAxes(ts));
    assert SlewAxes(ts)[p] == ts[p].value.index1 && LoadAxes(ts)[p] == ts[p].value.index2;
  }

  /** Only the four delay and transition tables count: arcs that differ in anything else,
      the power tables included, give the same ranges. */
  lemma {:induction false} PowerTablesIgnored(cells: seq<seq<TimingArc>>, others: seq<seq<TimingArc>>)
    requires |cells| == |others|
    requires forall c :: 0 <= c < |cells| ==> |cells[c]| == |others[c]|
    requires forall c, a :: 0 <= c < |cells| && 0 <= a < |cells[c]| ==>
      DelayTables(cells[c][a]) == DelayTables(others[c][a])
    ensures CellsTables(cells) == CellsTables(others)
    ensures InputRanges(cells) == InputRanges(others)
    decreases |cells|
  {
    if cells != [] {
      var n := |cells| - 1;
      PowerTablesIgnored(cells[..n], others[..n]);
      ArcsTablesAgree(cells[n], others[n]);
    }
  }

  lemma {:induction false} ArcsTablesAgree(arcs: seq<TimingArc>, others: seq<TimingArc>)
    requires |arcs| == |others|
    requires forall a :: 0 <= a < |arcs| ==> DelayTables(arcs[a]) == DelayTables(others[a])
    ensures ArcsTables(arcs) == ArcsTables(others)
    decreases |arcs|
  {
    if arcs != [] {
      var n := |arcs| - 1;
      ArcsTablesAgree(arcs[..n], others[..n]);
    }
  }

  /** One more table scanned. */
  lemma ScanStep(seen: seq<Option<LookupTable>>, t: Option<LookupTable>)
    ensures AxisRange(SlewAxes(seen + [t])) == WidenIf(AxisRange(SlewAxes(seen)), SlewAxis(t))
    ensures AxisRange(LoadAxes(seen + [t])) == WidenIf(AxisRange(LoadAxes(seen)), LoadAxis(t))
  {
    assert SlewAxes(seen + [t])[..|seen|] == SlewAxes(seen);
    assert LoadAxes(seen + [t])[..|seen|] == LoadAxes(seen);
  }

  lemma AppendStep<T>(start: seq<T>, xs: seq<T>, k: nat)
    requires k < |xs|
    ensures start + xs[..k + 1] == (start + xs[..k]) + [xs[k]]
  {
    assert xs[..k + 1] == xs[..k] + [xs[k]];
  }

  lemma ConcatAssoc<T>(a: seq<T>, b: seq<T>, c: seq<T>)
    ensures a + (b + c) == (a + b) + c
  {
  }

  lemma CellsSnoc(cells: seq<seq<TimingArc>>, c: nat)
    requires c < |cells|
    ensures CellsTables(cells[..c + 1]) == CellsTables(cells[..c]) + ArcsTables(cells[c])
  {
    assert cells[..c + 1][..c] == cells[..c];
  }

  lemma ArcsSnoc(arcs: seq<TimingArc>, a: nat)
    requires a < |arcs|
    ensures ArcsTables(arcs[..a + 1]) == ArcsTables(arcs[..a]) + DelayTables(arcs[a])
  {
    assert arcs[..a + 1][..a] == arcs[..a];
  }

  /** The body of the range loop for one table: `min(min_slew, min(index_1))` and
      `max(max_slew, max(index_1))` when the table has a non-empty slew axis, and the
      same for the load axis. */
  method ScanTable(minSlew: Option<real>, maxSlew: real, minLoad: Option<real>, maxLoad: real,
      table: Option<LookupTable>) returns (minSlew': Option<real>, maxSlew': real,
      minLoad': Option<real>, maxLoad': real)
    ensures Range(minSlew', maxSlew') == WidenIf(Range(minSlew, maxSlew), SlewAxis(table))
    ensures Range(minLoad', maxLoad') == WidenIf(Range(minLoad, maxLoad), LoadAxis(table))
  {
    minSlew', maxSlew', minLoad', maxLoad' := minSlew, maxSlew, minLoad, maxLoad;
    if table.Some? {
      if table.value.index1 != [] {
        var m := SeqMin(table.value.index1);
        minSlew' := if minSlew.Some? && minSlew.value <= m then minSlew else Some(m);
        var top := SeqMax(table.value.index1);
        maxSlew' := if top > maxSlew then top else maxSlew;
      }
      if table.value.index2 != [] {
        var m := SeqMin(table.value.index2);
        minLoad' := if minLoad.Some? && minLoad.value <= m then minLoad else Some(m);
        var top := SeqMax(table.value.index2);
        maxLoad' := if top > maxLoad then top else maxLoad;
      }
    }
  }

  /** The innermost loop of the range scan, over the four table kinds of one arc;
      `seen` is the list of tables scanned before. */
  method ScanArc(minSlew: Option<real>, maxSlew: real, minLoad: Option<real>, maxLoad: real,
      arc: TimingArc, ghost seen: seq<Option<LookupTable>>)
      returns (minSlew': Option<real>, maxSlew': real, minLoad': Option<real>, maxLoad': real)
    requires Range(minSlew, maxSlew) == AxisRange(SlewAxes(seen))
    requires Range(minLoad, maxLoad) == AxisRange(LoadAxes(seen))
    ensures Range(minSlew', maxSlew') == AxisRange(SlewAxes(seen + DelayTables(arc)))
    ensures Range(minLoad', maxLoad') == AxisRange(LoadAxes(seen + DelayTables(arc)))
  {
    minSlew', maxSlew', minLoad', maxLoad' := minSlew, maxSlew, minLoad, maxLoad;
    var kinds := DelayTables(arc);
    assert seen + kinds[..0] == seen;
    var k := 0;
    while k < 4
      invariant k <= 4
      invariant Range(minSlew', maxSlew') == AxisRange(SlewAxes(seen + kinds[..k]))
      invariant Range(minLoad', maxLoad') == AxisRange(LoadAxes(seen + kinds[..k]))
    {
      ScanStep(seen + kinds[..k], kinds[k]);
      minSlew', maxSlew', minLoad', maxLoad' := ScanTable(minSlew', maxSlew', minLoad', maxLoad', kinds[k]);
      AppendStep(seen, kinds, k);
      k := k + 1;
    }
    assert kinds[..4] == kinds;
  }

  /** The middle loop of the range scan, over the arcs of one cell. */
  method ScanCell(minSlew: Option<real>, maxSlew: real, minLoad: Option<real>, maxLoad: real,
      arcs: seq<TimingArc>, ghost seen: seq<Option<LookupTable>>)
      returns (minSlew': Option<real>, maxSlew': real, minLoad': Option<real>, maxLoad': real)
    requires Range(minSlew, maxSlew) == AxisRange(SlewAxes(seen))
    requires Range(minLoad, maxLoad) == AxisRange(LoadAxes(seen))
    ensures Range(minSlew', maxSlew') == AxisRange(SlewAxes(seen + ArcsTables(arcs)))
    ensures Range(minLoad', maxLoad') == AxisRange(LoadAxes(seen + ArcsTables(arcs)))
  {
    minSlew', maxSlew', minLoad', maxLoad' := minSlew, maxSlew, minLoad, maxLoad;
    assert arcs[..0] == [] && seen + ArcsTables(arcs[..0]) == seen;
    var a := 0;
    while a < |arcs|
      invariant a <= |arcs|
      invariant Range(minSlew', maxSlew') == AxisRange(SlewAxes(seen + ArcsTables(arcs[..a])))
      invariant Range(minLoad', maxLoad') == AxisRange(LoadAxes(seen + ArcsTables(arcs[..a])))
    {
      minSlew', maxSlew', minLoad', maxLoad' :=
        ScanArc(minSlew', maxSlew', minLoad', maxLoad', arcs[a], seen + ArcsTables(arcs[..a]));
      ArcsSnoc(arcs, a);
      ConcatAssoc(seen, ArcsTables(arcs[..a]), DelayTables(arcs[a]));
      a := a + 1;
    }
    assert arcs[..a] == arcs;
  }

  /** The range loop of `generate_input_conditions`, over cells, arcs and the four table
      kinds in turn. */
  method ScanRanges(cells: seq<seq<TimingArc>>) returns (minSlew: Option<real>, maxSlew: real,
      minLoad: Option<real>, maxLoad: real)
    ensures (Range(minSlew, maxSlew), Range(minLoad, maxLoad)) == InputRanges(cells)
  {
    minSlew, maxSlew := None, 0.0;
    minLoad, maxLoad := None, 0.0;
    var c := 0;
    while c < |cells|
      invariant c <= |cells|
      invariant Range(minSlew, maxSlew) == AxisRange(SlewAxes(CellsTables(cells[..c])))
      invariant Range(minLoad, maxLoad) == AxisRange(LoadAxes(CellsTables(cells[..c])))
    {
      minSlew, maxSlew, minLoad, maxLoad :=
        ScanCell(minSlew, maxSlew, minLoad, maxLoad, cells[c], CellsTables(cells[..c]));
      CellsSnoc(cells, c);
      c := c + 1;
    }
    assert cells[..c] == cells;
  }

  /** Every pair of one slew and one load, slew-major. */
  function Product(slews: seq<real>, loads: seq<real>): (r: seq<(real, real)>)
    decreases |slews|
  {
    if slews == [] then []
    else Product(slews[..|slews| - 1], loads) + Pairs(slews[|slews| - 1], loads)
  }

  /** One slew with every load. */
  function Pairs(slew: real, loads: seq<real>): (r: seq<(real, real)>)
    ensures |r| == |loads| && forall j :: 0 <= j < |loads| ==> r[j] == (slew, loads[j])
  {
    seq(|loads|, j requires 0 <= j < |loads| => (slew, loads[j]))
  }

  /** `num_slew_points * num_load_points` pairs. */
  lemma {:induction false} ProductLength(slews: seq<real>, loads: seq<real>)
    ensures |Product(slews, loads)| == |slews| * |loads|
    decreases |slews|
  {
    if slews != [] {
      var n := |slews| - 1;
      ProductLength(slews[..n], loads);
      assert (n + 1) * |loads| == n * |loads| + |loads|;
    }
  }

  /** The pair of slew `i` and load `j` is at position `i * |loads| + j`. */
  lemma {:induction false} ProductAt(slews: seq<real>, loads: seq<real>, i: nat, j: nat)
    requires i < |slews| && j < |loads|
    ensures i * |loads| + j < |Product(slews, loads)|
    ensures Product(slews, loads)[i * |loads| + j] == (slews[i], loads[j])
    decreases |slews|
  {
    var n := |slews| - 1;
    var l := |loads|;
    var front := slews[..n];
    ProductLength(front, loads);
    ProductLength(slews, loads);
    var p := Product(front, loads);
    assert Product(slews, loads) == p + Pairs(slews[n], loads);
    if i < n {
      ProductAt(front, loads, i, j);
      RowBelow(i, j, n, l);
      assert front[i] == slews[i];
    } else {
      assert i * l == n * l;
    }
  }

  lemma RowBelow(i: nat, j: nat, n: nat, l: nat)
    requires i < n && j < l
    ensures i * l + j < n * l
  {
    assert (i + 1) * l <= n * l;
  }

  /** The pair loop of `generate_input_conditions`. */
  method Conditions(slews: seq<real>, loads: seq<real>) returns (conditions: seq<(real, real)>)
    ensures conditions == Product(slews, loads)
  {
    conditions := [];
    var i := 0;
    while i < |slews|
      invariant i <= |slews| && conditions == Product(slews[..i], loads)
    {
      var j := 0;
      while j < |loads|
        invariant j <= |loads| && conditions == Product(slews[..i], loads) + Pairs(slews[i], loads)[..j]
      {
        conditions := conditions + [(slews[i], loads[j])];
        j := j + 1;
      }
      assert slews[..i + 1][..i] == slews[..i];
      i := i + 1;
    }
    assert slews[..i] == slews;
  }

  /** `generate_input_conditions`: the ranges, `num_slew_points` slews and
      `num_load_points` loads sampled from them by `sample` (the logarithmic spacing, which
      is not part of this model), and every pair of the two, slew-major. */
  method GenerateInputConditions(cells: seq<seq<TimingArc>>, numSlewPoints: nat, numLoadPoints: nat,
      sample: (Range, nat) -> seq<real>) returns (conditions: seq<(real, real)>)
    requires forall r: Range, n: nat :: |sample(r, n)| == n
    ensures var (slew, load) := InputRanges(cells);
      conditions == Product(sample(slew, numSlewPoints), sample(load, numLoadPoints))
    ensures |conditions| == numSlewPoints * numLoadPoints
  {
    var minSlew, maxSlew, minLoad, maxLoad := ScanRanges(cells);
    var slews := sample(Range(minSlew, maxSlew), numSlewPoints);
    var loads := sample(Range(minLoad, maxLoad), numLoadPoints);
    conditions := Conditions(slews, loads);
    ProductLength(slews, loads);
  }
}
