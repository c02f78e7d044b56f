/** The lookup tables of the characterisation script: the two axes of a table and its
    rows of values, read from the text of the table's `index_1`, `index_2` and `values`
    attributes. Nothing checks that the rows fit the axes. */
module LookupTables {
  import opened Wrappers
  import opened Strings

  /** The text `str()` gives for each attribute of a table object; `None` for an
      attribute the object does not have. */
  datatype RawTable = RawTable(index1: Option<string>, index2: Option<string>, values: Option<string>)

  /** `table_info`: the input-slew axis, the output-load axis and the rows of values. */
  datatype LookupTable = LookupTable(index1: seq<real>, index2: seq<real>, values: seq<seq<real>>)

  /** `float(x.strip())` for one item. */
  function ItemParser(parse: FloatParser): string -> Option<real> {
    (x: string) => PyFloat(parse, Strip(x))
  }

  /** `[float(x.strip()) for x in items]`, with `conv` for `float(x.strip())`: `None` when
      some item is rejected, which raises out of the comprehension. */
  function FloatList(conv: string -> Option<real>, items: seq<string>): (r: Option<seq<real>>)
    ensures r.Some? ==> |r.value| == |items|
    decreases |items|
  {
    if items == [] then Some([])
    else
      var rest := FloatList(conv, items[1..]);
      match conv(items[0])
      case None => None
      case Some(x) =>
        if rest.None? then None else Some([x] + rest.value)
  }

  /** The list is produced exactly when every item is accepted, and holds the value of
      each item in order. */
  lemma {:induction false} FloatListItems(conv: string -> Option<real>, items: seq<string>)
    ensures FloatList(conv, items).Some? <==> forall k :: 0 <= k < |items| ==> conv(items[k]).Some?
    ensures FloatList(conv, items).Some? ==>
      forall k :: 0 <= k < |items| ==> FloatList(conv, items).value[k] == conv(items[k]).value
    decreases |items|
  {
    if items != [] {
      FloatListItems(conv, items[1..]);
      assert forall k :: 1 <= k < |items| ==> items[1..][k - 1] == items[k];
    }
  }

  /** One axis: the text stripped of quotes, split at every comma, each piece parsed. */
  function ParseIndex(conv: string -> Option<real>, text: string): Option<seq<real>> {
    FloatList(conv, Split(StripChar(text, '"'), ','))
  }

  /** `[line.strip() for line in values_str.split('\\') if line.strip()]` */
  function NonBlank(segments: seq<string>): (r: seq<string>)
    ensures |r| <= |segments|
    ensures forall k :: 0 <= k < |r| ==> r[k] != [] && r[k] == Strip(r[k])
    decreases |segments|
  {
    if segments == [] then []
    else
      var rest := NonBlank(segments[1..]);
      var line := Strip(segments[0]);
      if line == [] then rest else [line] + rest
  }

  /** The lines of a `values` text. */
  function ValueLines(text: string): seq<string> {
    NonBlank(Split(StripChar(text, '"'), '\\'))
  }

  /** The entries of one line: commas read as spaces, then split at whitespace. Every
      piece of `split()` is non-blank, so the `if x.strip()` filter keeps all of them. */
  function RowItems(line: string): seq<string> {
    SplitWs(ReplaceChar(line, ',', ' '))
  }

  /** The rows collected from `lines`, in order: `None` when some entry is rejected, and
      a line that yields no entry adds no row. */
  function Rows(conv: string -> Option<real>, lines: seq<string>): (r: Option<seq<seq<real>>>)
    ensures r.Some? ==> |r.value| <= |lines|
    ensures r.Some? ==> forall k :: 0 <= k < |r.value| ==> r.value[k] != []
    decreases |lines|
  {
    if lines == [] then Some([])
    else
      match Rows(conv, lines[..|lines| - 1])
      case None => None
      case Some(m) =>
        match FloatList(conv, RowItems(lines[|lines| - 1]))
        case None => None
        case Some(row) => Some(if row == [] then m else m + [row])
  }

  /** A rejected entry in the first lines is a rejected entry of the whole text. */
  lemma {:induction false} RowsFailureSticks(conv: string -> Option<real>, lines: seq<string>, i: nat)
    requires i <= |lines| && Rows(conv, lines[..i]).None?
    ensures Rows(conv, lines).None?
    decreases |lines| - i
  {
    if i < |lines| {
      assert lines[..i + 1][..i] == lines[..i];
      RowsFailureSticks(conv, lines, i + 1);
    } else {
      assert lines[..i] == lines;
    }
  }

  /** The row loop: `None` when `float()` raises on some entry. */
  method CollectRows(conv: string -> Option<real>, lines: seq<string>) returns (r: Option<seq<seq<real>>>)
    ensures r == Rows(conv, lines)
  {
    var matrix: seq<seq<real>> := [];
    var i := 0;
    while i < |lines|
      invariant 0 <= i <= |lines|
      invariant Rows(conv, lines[..i]) == Some(matrix)
    {
      var line := lines[i];
      assert lines[..i + 1][..i] == lines[..i];
      var row := FloatList(conv, RowItems(line));
      if row.None? {
        RowsFailureSticks(conv, lines, i + 1);
        return None;
      }
      if row.value != [] {
        matrix := matrix + [row.value];
      }
      i := i + 1;
    }
    assert lines[..i] == lines;
    r := Some(matrix);
  }

  /** An axis attribute: absent is an empty axis, present is parsed. */
  function AxisField(conv: string -> Option<real>, text: Option<string>): Option<seq<real>> {
    if text.Some? then ParseIndex(conv, text.value) else Some([])
  }

  /** The `values` attribute: absent is no rows, present is parsed. */
  function ValuesField(conv: string -> Option<real>, text: Option<string>): Option<seq<seq<real>>> {
    if text.Some? then Rows(conv, ValueLines(text.value)) else Some([])
  }

  /** The body of `_parse_lookup_table` for any entry parser `conv`: the axes and the rows are assigned in turn, so the first
      field that fails stays empty with every later one, while the earlier ones keep what
      they parsed. */
  method ParseTable(conv: string -> Option<real>, t: RawTable) returns (info: LookupTable)
    ensures AxisField(conv, t.index1).None? ==> info == LookupTable([], [], [])
    ensures AxisField(conv, t.index1).Some? ==> info.index1 == AxisField(conv, t.index1).value
    ensures AxisField(conv, t.index1).Some? && AxisField(conv, t.index2).None? ==>
      info.index2 == [] && info.values == []
    ensures AxisField(conv, t.index1).Some? && AxisField(conv, t.index2).Some? ==>
      info.index2 == AxisField(conv, t.index2).value
    ensures AxisField(conv, t.index1).Some? && AxisField(conv, t.index2).Some? ==>
      info.values == ValuesField(conv, t.values).GetOr([])
  {
    info := LookupTable([], [], []);
    if t.index1.Some? {
      var i1 := ParseIndex(conv, t.index1.value);
      if i1.None? {
        return;
      }
      info := info.(index1 := i1.value);
    }
    if t.index2.Some? {
      var i2 := ParseIndex(conv, t.index2.value);
      if i2.None? {
        return;
      }
      info := info.(index2 := i2.value);
    }
    if t.values.Some? {
      var vs := CollectRows(conv, ValueLines(t.values.value));
      if vs.None? {
        return;
      }
      info := info.(values := vs.value);
    }
  }

  /** `_parse_lookup_table`, with `float(x.strip())` for every entry. */
  method ParseLookupTable(parse: FloatParser, t: RawTable) returns (info: LookupTable)
    ensures var conv := ItemParser(parse);
      (AxisField(conv, t.index1).None? ==> info == LookupTable([], [], [])) &&
      (AxisField(conv, t.index1).Some? ==> info.index1 == AxisField(conv, t.index1).value) &&
      (AxisField(conv, t.index1).Some? && AxisField(conv, t.index2).None? ==>
        info.index2 == [] && info.values == []) &&
      (AxisField(conv, t.index1).Some? && AxisField(conv, t.index2).Some? ==>
        info.index2 == AxisField(conv, t.index2).value &&
        info.values == ValuesField(conv, t.values).GetOr([]))
  {
    info := ParseTable(ItemParser(parse), t);
  }

  /** Rows are not checked against the axes: the lines `a, b` and `c` of
      single-character entries give a first row of two entries and a second of one. */
  lemma RaggedRows(conv: string -> Option<real>, lines: seq<string>, a: string, b: string, c: string,
      x: real, y: real, z: real)
    requires |a| == 1 && |b| == 1 && |c| == 1
    requires !IsWs(a[0]) && !IsWs(b[0]) && !IsWs(c[0]) && a[0] != ',' && b[0] != ',' && c[0] != ','
    requires lines == [a + ", " + b, c]
    requires conv(a) == Some(x) && conv(b) == Some(y) && conv(c) == Some(z)
    ensures Rows(conv, lines) == Some([[x, y], [z]])
  {
    RowItemsOf(lines[0], a, b);
    RowItemOf(lines[1], c);
    FloatListCons(conv, b, [], y, []);
    assert [b] + [] == [b] && [y] + [] == [y];
    FloatListCons(conv, a, [b], x, [y]);
    assert [a] + [b] == [a, b] && [x] + [y] == [x, y];
    FloatListCons(conv, c, [], z, []);
    assert [c] + [] == [c] && [z] + [] == [z];
    RowsSnoc(conv, [], lines[0], [], [x, y]);
    assert [] + [lines[0]] == [lines[0]] && [] + [[x, y]] == [[x, y]];
    RowsSnoc(conv, [lines[0]], lines[1], [[x, y]], [z]);
    assert [lines[0]] + [lines[1]] == lines && [[x, y]] + [[z]] == [[x, y], [z]];
  }

  /** One more accepted entry in front. */
  lemma FloatListCons(conv: string -> Option<real>, x: string, xs: seq<string>, v: real, vs: seq<real>)
    requires conv(x) == Some(v) && FloatList(conv, xs) == Some(vs)
    ensures FloatList(conv, [x] + xs) == Some([v] + vs)
  {
    assert ([x] + xs)[0] == x && ([x] + xs)[1..] == xs;
  }

  /** One more line yielding a non-empty row at the end. */
  lemma RowsSnoc(conv: string -> Option<real>, lines: seq<string>, line: string,
      m: seq<seq<real>>, row: seq<real>)
    requires Rows(conv, lines) == Some(m) && FloatList(conv, RowItems(line)) == Some(row) && row != []
    ensures Rows(conv, lines + [line]) == Some(m + [row])
  {
    assert (lines + [line])[..|lines|] == lines;
  }

  /** A text of one non-blank character is a single piece. */
  lemma SplitWsOne(b: string)
    requires |b| == 1 && !IsWs(b[0])
    ensures SplitWs(b) == [b]
  {
    assert WsFrom(b, 0) == WsFrom(b, 1) == 1;
    assert b[..1] == b && b[1..] == [];
  }

  /** The line `a, b` of two single-character entries. */
  lemma RowItemsOf(line: string, a: string, b: string)
    requires |a| == 1 && |b| == 1 && !IsWs(a[0]) && !IsWs(b[0]) && a[0] != ',' && b[0] != ','
    requires line == a + ", " + b
    ensures RowItems(line) == [a, b]
  {
    var u := ReplaceChar(line, ',', ' ');
    assert u == a + "  " + b;
    assert WsFrom(u, 0) == 1 by {
      assert WsFrom(u, 1) == 1;
    }
    assert u[..1] == a;
    assert SplitWs(u) == [a] + SplitWs(u[1..]);
    assert u[1..][1..] == u[2..] && u[2..][1..] == b;
    assert SplitWs(u[1..]) == SplitWs(u[2..]) == SplitWs(b);
    SplitWsOne(b);
  }

  /** The line of one single-character entry. */
  lemma RowItemOf(line: string, a: string)
    requires |a| == 1 && !IsWs(a[0]) && a[0] != ','
    requires line == a
    ensures RowItems(line) == [a]
  {
    assert ReplaceChar(line, ',', ' ') == a;
    SplitWsOne(a);
  }
}
