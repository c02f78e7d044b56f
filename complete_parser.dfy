/** The complete scanner: a parser object that fills its library information and its
    name-to-cell dictionary from comment-free Liberty text, and then formats them with
    integer statistics. */
module CompleteParser {
  import opened Wrappers
  import opened Strings
  import opened Patterns
  import opened Braces
  import opened OrderedDicts
  import opened Histograms
  import opened LibraryInfo
  import opened Comments
  import opened CompleteCells
  import opened CellScan
  import CompleteTaxonomy

  function CellParser(parse: FloatParser): (string, string) -> CellInfo {
    (name: string, b: string) => CellSpec(parse, name, b)
  }

  /** The cells of one text: the parse of each name's body. */
  function TextCells(parse: FloatParser, content: string): ODict<string, CellInfo> {
    TextValues(content, CellParser(parse))
  }

  /** Every parsed cell has a well-formed pin dictionary. */
  lemma CellParserValid(parse: FloatParser)
    ensures forall name, body :: Valid(CellParser(parse)(name, body).pins)
  {
    forall name, body
      ensures Valid(CellParser(parse)(name, body).pins)
    {
      CellPinsValid(parse, name, body);
    }
  }

  /** Updating a well-formed cell dictionary with converted values whose pin dictionaries
      are well formed keeps it well formed. */
  lemma UpdateCellsValid(d: ODict<string, CellInfo>, b: ODict<string, string>, f: (string, string) -> CellInfo)
    requires CellsValid(d) && Valid(b)
    requires forall name, body :: Valid(f(name, body).pins)
    ensures CellsValid(Update(d, MapValues(b, f)))
  {
    UpdateValid(d, MapValues(b, f));
  }

  /** The cells of a text keep a well-formed cell dictionary well formed. */
  lemma TextCellsValid(parse: FloatParser, content: string, d: ODict<string, CellInfo>)
    requires CellsValid(d)
    ensures CellsValid(Update(d, TextCells(parse, content)))
  {
    PutAllValid(Empty<string, string>(), CellSites(content, CellHeaders(content)));
    CellParserValid(parse);
    UpdateCellsValid(d, CellBodies(content), CellParser(parse));
  }

  /** One turn of the cell loop: the body of the `i`-th header is delimited and, when it
      exists, its parse is stored under the header's name. */
  method StoreCell(parse: FloatParser, content: string, ghost d: ODict<string, CellInfo>, ms: seq<Match>, i: nat,
                   table: ODict<string, CellInfo>) returns (next: ODict<string, CellInfo>)
    requires forall k :: 0 <= k < |ms| ==> |ms[k].groups| == 1
    requires i < |ms|
    requires table == StoredAfter(content, d, CellParser(parse), ms, i)
    ensures next == StoredAfter(content, d, CellParser(parse), ms, i + 1)
  {
    var m := ms[i];
    var name := StripChar(Strip(m.groups[0]), '"');
    var body := ExtractBody(content, m.end);
    CellStep(content, d, CellParser(parse), ms, i, table, body);
    next := table;
    if body.Some? {
      var info := ParseSingleCell(parse, name, body.value);
      next := Put(table, name, info);
    }
  }

  /** The cell loop over the headers `ms` of the text, storing into `d`. */
  method ReadCells(parse: FloatParser, content: string, ms: seq<Match>, d: ODict<string, CellInfo>)
    returns (table: ODict<string, CellInfo>)
    requires ms == CellHeaders(content)
    ensures table == Update(d, TextCells(parse, content))
  {
    StoredBounds(content, d, CellParser(parse));
    table := d;
    var i := 0;
    while i < |ms|
      invariant 0 <= i <= |ms|
      invariant table == StoredAfter(content, d, CellParser(parse), ms, i)
    {
      table := StoreCell(parse, content, d, ms, i, table);
      i := i + 1;
    }
  }

  /** The cell loop of `_extract_cells_complete` over a dictionary: the updated
      dictionary and the number of headers visited. */
  method ScanCells(parse: FloatParser, content: string, d: ODict<string, CellInfo>)
    returns (table: ODict<string, CellInfo>, count: nat)
    requires CellsValid(d)
    ensures CellsValid(table)
    ensures table == Update(d, TextCells(parse, content))
    ensures count == |CellHeaders(content)|
  {
    var starts := CellHeaders(content);
    count := |starts|;
    TextCellsValid(parse, content, d);
    if |starts| == 0 {
      NoHeadersNoCells(content, CellParser(parse));
      UpdateEmpty(d, TextCells(parse, content));
      table := d;
      return;
    }
    table := ReadCells(parse, content, starts, d);
  }

  /** One formatted pin. */
  datatype FormattedPin = FormattedPin(
    name: string, direction: Option<string>, capacitance: real,
    timingArcCount: nat, powerArcCount: nat)

  /** One formatted cell. */
  datatype FormattedCell = FormattedCell(
    name: string, area: real, leakagePower: real, pinCount: nat, pins: seq<FormattedPin>,
    func: Option<string>, cellType: string, footprint: Option<string>,
    timingArcs: nat, powerArcs: nat)

  /** The integer statistics; the area statistics are not modelled. */
  datatype Statistics = Statistics(
    totalCells: nat,
    pinCountDistribution: ODict<nat, nat>,
    functionTypes: ODict<string, nat>,
    cellTypes: ODict<string, nat>,
    timingArcsTotal: nat,
    powerArcsTotal: nat)

  datatype Lib2VecData = Lib2VecData(libraryInfo: LibInfo, cells: seq<FormattedCell>, statistics: Statistics)

  function FormatPin(name: string, p: PinInfo): FormattedPin {
    FormattedPin(name, p.direction, p.capacitance, p.timingArcCount, p.powerArcCount)
  }

  /** The formatted pins in dictionary order. */
  function FormatPins(pins: ODict<string, PinInfo>): (r: seq<FormattedPin>)
    requires Valid(pins)
    ensures |r| == |pins.keys|
    ensures forall i :: 0 <= i < |r| ==> r[i] == FormatPin(pins.keys[i], pins.vals[pins.keys[i]])
  {
    seq(|pins.keys|, i requires 0 <= i < |pins.keys| => FormatPin(pins.keys[i], pins.vals[pins.keys[i]]))
  }

  function TimingSum(fps: seq<FormattedPin>): nat {
    if fps == [] then 0 else TimingSum(fps[..|fps| - 1]) + fps[|fps| - 1].timingArcCount
  }

  function PowerSum(fps: seq<FormattedPin>): nat {
    if fps == [] then 0 else PowerSum(fps[..|fps| - 1]) + fps[|fps| - 1].powerArcCount
  }

  /** A formatted cell: the pin count is the number of pins, and the arc counts are the
      sums over its pins. */
  function FormatCell(name: string, c: CellInfo): FormattedCell
    requires Valid(c.pins)
  {
    var fps := FormatPins(c.pins);
    var n := |c.pins.keys|;
    FormattedCell(name, c.area, c.leakagePower, n, fps, c.func,
      CompleteTaxonomy.InferCellType(name, n), c.footprint, TimingSum(fps), PowerSum(fps))
  }

  /** The cell dictionary is well formed and so is every cell's pin dictionary. */
  ghost predicate CellsValid(cells: ODict<string, CellInfo>) {
    Valid(cells) && forall k :: k in cells.vals ==> Valid(cells.vals[k].pins)
  }

  function FormatCells(cells: ODict<string, CellInfo>): (r: seq<FormattedCell>)
    requires CellsValid(cells)
    ensures |r| == |cells.keys|
    ensures forall i :: 0 <= i < |r| ==> r[i] == FormatCell(cells.keys[i], cells.vals[cells.keys[i]])
  {
    seq(|cells.keys|, i requires 0 <= i < |cells.keys| => FormatCell(cells.keys[i], cells.vals[cells.keys[i]]))
  }

  function PinCounts(fs: seq<FormattedCell>): (r: seq<nat>)
    ensures |r| == |fs|
  {
    if fs == [] then [] else PinCounts(fs[..|fs| - 1]) + [fs[|fs| - 1].pinCount]
  }

  function CellTypes(fs: seq<FormattedCell>): (r: seq<string>)
    ensures |r| == |fs|
  {
    if fs == [] then [] else CellTypes(fs[..|fs| - 1]) + [fs[|fs| - 1].cellType]
  }

  /** The function categories of the cells whose function is present and non-empty. */
  function FunctionCategories(fs: seq<FormattedCell>): (r: seq<string>)
    ensures |r| <= |fs|
  {
    if fs == [] then []
    else
      var c := fs[|fs| - 1];
      FunctionCategories(fs[..|fs| - 1]) +
        (if c.func.Some? && c.func.value != [] then [CompleteTaxonomy.CategorizeFunction(c.func)] else [])
  }

  function TimingTotal(fs: seq<FormattedCell>): nat {
    if fs == [] then 0 else TimingTotal(fs[..|fs| - 1]) + fs[|fs| - 1].timingArcs
  }

  function PowerTotal(fs: seq<FormattedCell>): nat {
    if fs == [] then 0 else PowerTotal(fs[..|fs| - 1]) + fs[|fs| - 1].powerArcs
  }

  /** `_format_for_lib2vec`, without the area statistics. */
  function Format(info: LibInfo, cells: ODict<string, CellInfo>): Lib2VecData
    requires CellsValid(cells)
  {
    var fs := FormatCells(cells);
    Lib2VecData(info, fs, Statistics(|cells.keys|,
      HistogramOf(PinCounts(fs)), HistogramOf(FunctionCategories(fs)), HistogramOf(CellTypes(fs)),
      TimingTotal(fs), PowerTotal(fs)))
  }

  /** The running statistics after one more formatted cell. */
  lemma FormatSnoc(fs: seq<FormattedCell>, c: FormattedCell)
    ensures PinCounts(fs + [c]) == PinCounts(fs) + [c.pinCount]
    ensures CellTypes(fs + [c]) == CellTypes(fs) + [c.cellType]
    ensures FunctionCategories(fs + [c]) == FunctionCategories(fs) +
      (if c.func.Some? && c.func.value != [] then [CompleteTaxonomy.CategorizeFunction(c.func)] else [])
    ensures TimingTotal(fs + [c]) == TimingTotal(fs) + c.timingArcs
    ensures PowerTotal(fs + [c]) == PowerTotal(fs) + c.powerArcs
  {
    assert (fs + [c])[..|fs|] == fs;
  }

  /** The running counters after one more formatted cell. */
  lemma StatisticsStep(fs: seq<FormattedCell>, c: FormattedCell)
    ensures HistogramOf(PinCounts(fs + [c])) == Inc(HistogramOf(PinCounts(fs)), c.pinCount)
    ensures HistogramOf(CellTypes(fs + [c])) == Inc(HistogramOf(CellTypes(fs)), c.cellType)
    ensures HistogramOf(FunctionCategories(fs + [c])) ==
      if c.func.Some? && c.func.value != [] then
        Inc(HistogramOf(FunctionCategories(fs)), CompleteTaxonomy.CategorizeFunction(c.func))
      else HistogramOf(FunctionCategories(fs))
    ensures TimingTotal(fs + [c]) == TimingTotal(fs) + c.timingArcs
    ensures PowerTotal(fs + [c]) == PowerTotal(fs) + c.powerArcs
  {
    FormatSnoc(fs, c);
    HistogramSnoc(PinCounts(fs), c.pinCount);
    HistogramSnoc(CellTypes(fs), c.cellType);
    if c.func.Some? && c.func.value != [] {
      HistogramSnoc(FunctionCategories(fs), CompleteTaxonomy.CategorizeFunction(c.func));
    } else {
      assert FunctionCategories(fs + [c]) == FunctionCategories(fs);
    }
  }

  /** No element of the function categories is `unknown`. */
  lemma {:induction false} CategoriesKnown(fs: seq<FormattedCell>)
    ensures "unknown" !in FunctionCategories(fs)
    decreases |fs|
  {
    if fs != [] {
      CategoriesKnown(fs[..|fs| - 1]);
    }
  }

  /** The formatted output has one cell per dictionary entry, in dictionary order; the
      pin-count and cell-type counters each add up to the number of cells; only cells
      with a function are counted by category, and never as `unknown`. */
  lemma FormatStatistics(info: LibInfo, cells: ODict<string, CellInfo>)
    requires CellsValid(cells)
    ensures var r := Format(info, cells);
      |r.cells| == r.statistics.totalCells == |cells.keys| &&
      (forall i :: 0 <= i < |r.cells| ==> r.cells[i].name == cells.keys[i]) &&
      Valid(r.statistics.pinCountDistribution) &&
      Total(r.statistics.pinCountDistribution) == r.statistics.totalCells &&
      Valid(r.statistics.cellTypes) &&
      Total(r.statistics.cellTypes) == r.statistics.totalCells &&
      Valid(r.statistics.functionTypes) &&
      Total(r.statistics.functionTypes) <= r.statistics.totalCells &&
      "unknown" !in r.statistics.functionTypes.vals
  {
    var fs := FormatCells(cells);
    HistogramTotal(PinCounts(fs));
    HistogramTotal(CellTypes(fs));
    HistogramTotal(FunctionCategories(fs));
    CategoriesKnown(fs);
    HistogramCounts(FunctionCategories(fs), "unknown");
  }

  /** A cell's arc counts are the sums of its pins' counts, and the pin count is the
      number of its pins. */
  lemma FormatCellCounts(name: string, c: CellInfo)
    requires Valid(c.pins)
    ensures var f := FormatCell(name, c);
      f.pinCount == |f.pins| == |c.pins.keys| &&
      f.timingArcs == TimingSum(f.pins) && f.powerArcs == PowerSum(f.pins) &&
      forall i :: 0 <= i < |f.pins| ==>
        f.pins[i].timingArcCount == c.pins.vals[c.pins.keys[i]].timingArcCount
  {
  }

  /** The pin formatting loop. */
  method FormatPinList(pins: ODict<string, PinInfo>) returns (fps: seq<FormattedPin>)
    requires Valid(pins)
    ensures fps == FormatPins(pins)
  {
    fps := [];
    var i := 0;
    while i < |pins.keys|
      invariant 0 <= i <= |pins.keys|
      invariant fps == FormatPins(pins)[..i]
    {
      var name := pins.keys[i];
      fps := fps + [FormatPin(name, pins.vals[name])];
      i := i + 1;
    }
  }

  /** The voltage-map loop: each match whose voltage `float()` accepts is stored under its
      stripped name. */
  method ReadVoltageTable(parse: FloatParser, maps: seq<Match>) returns (table: ODict<string, real>)
    requires forall k :: 0 <= k < |maps| ==> |maps[k].groups| == 2
    ensures table == VoltageTableFrom(parse, maps)
  {
    table := Empty();
    ghost var vs := VoltageEntries(parse, maps);
    var j := 0;
    while j < |maps|
      invariant 0 <= j <= |maps|
      invariant table == PutAll(Empty(), vs[..j])
    {
      var name := Strip(maps[j].groups[0]);
      var voltage := PyFloat(parse, RStripChar(Strip(maps[j].groups[1]), ';'));
      PutAllSnoc(Empty(), vs, j);
      if voltage.Some? {
        table := Put(table, name, voltage.value);
      }
      j := j + 1;
    }
    assert vs[..|maps|] == vs;
  }

  /** The voltage table, stored when any `voltage_map` matches, then the name of the
      first operating conditions. */
  method ReadMapsAndConditions(parse: FloatParser, content: string, basic: LibInfo) returns (info: LibInfo)
    ensures info == Extend(basic, VoltageTableOf(parse, content), OperatingConditionsEntry(content))
  {
    info := basic;
    var maps := FindAll(VoltageMap, content);
    FindAllMatches(VoltageMap, content, 0);
    if maps != [] {
      // the source stores an empty table first and fills it in place; the key lands in
      // the same position either way
      var table := ReadVoltageTable(parse, maps);
      info := Put(info, "voltage_maps", VoltageTable(table));
    }
    var opc := Search(OperatingConditions, content);
    if opc.Some? {
      info := Put(info, "operating_conditions", Text(Strip(opc.value.groups[0])));
    }
  }

  /** One cell of the formatting loop: its pins, their arc sums and its type. */
  method FormatCellEntry(name: string, info: CellInfo) returns (formatted: FormattedCell)
    requires Valid(info.pins)
    ensures formatted == FormatCell(name, info)
  {
    var pinCount := |info.pins.keys|;
    var cellType := CompleteTaxonomy.InferCellType(name, pinCount);
    var fps := FormatPinList(info.pins);
    var timingArcs := TimingSum(fps);
    var powerArcs := PowerSum(fps);
    formatted := FormattedCell(name, info.area, info.leakagePower, pinCount, fps, info.func,
      cellType, info.footprint, timingArcs, powerArcs);
  }

  /** One more formatted cell of the dictionary. */
  lemma FormatCellsPrefix(cells: ODict<string, CellInfo>, i: nat, f: FormattedCell)
    requires CellsValid(cells) && i < |cells.keys|
    requires f == FormatCell(cells.keys[i], cells.vals[cells.keys[i]])
    ensures FormatCells(cells)[..i + 1] == FormatCells(cells)[..i] + [f]
  {
    var all := FormatCells(cells);
    assert all[i] == f;
    TakeSnoc(all, i);
  }

  /** The statistics updates of the formatting loop for one more formatted cell: its pin
      count, its cell type and, when it has a non-empty function, its category are
      counted, and its arc counts are added to the totals. */
  method CountCell(ghost fs: seq<FormattedCell>, c: FormattedCell, pinCounts: ODict<nat, nat>,
      functionTypes: ODict<string, nat>, cellTypes: ODict<string, nat>, timingTotal: nat, powerTotal: nat)
    returns (pinCounts': ODict<nat, nat>, functionTypes': ODict<string, nat>,
      cellTypes': ODict<string, nat>, timingTotal': nat, powerTotal': nat)
    requires pinCounts == HistogramOf(PinCounts(fs))
    requires functionTypes == HistogramOf(FunctionCategories(fs))
    requires cellTypes == HistogramOf(CellTypes(fs))
    requires timingTotal == TimingTotal(fs) && powerTotal == PowerTotal(fs)
    ensures pinCounts' == HistogramOf(PinCounts(fs + [c]))
    ensures functionTypes' == HistogramOf(FunctionCategories(fs + [c]))
    ensures cellTypes' == HistogramOf(CellTypes(fs + [c]))
    ensures timingTotal' == TimingTotal(fs + [c]) && powerTotal' == PowerTotal(fs + [c])
  {
    StatisticsStep(fs, c);
    pinCounts' := Inc(pinCounts, c.pinCount);
    functionTypes' := functionTypes;
    if c.func.Some? && c.func.value != [] {
      functionTypes' := Inc(functionTypes, CompleteTaxonomy.CategorizeFunction(c.func));
    }
    cellTypes' := Inc(cellTypes, c.cellType);
    timingTotal' := timingTotal + c.timingArcs;
    powerTotal' := powerTotal + c.powerArcs;
  }

  /** The formatting loop: one pass over the cells in dictionary order. */
  method FormatAll(libraryInfo: LibInfo, cells: ODict<string, CellInfo>) returns (r: Lib2VecData)
    requires CellsValid(cells)
    ensures r == Format(libraryInfo, cells)
  {
    var keys := cells.keys;
    ghost var all := FormatCells(cells);
    var out: seq<FormattedCell> := [];
    var pinCounts: ODict<nat, nat> := Empty();
    var functionTypes: ODict<string, nat> := Empty();
    var cellTypes: ODict<string, nat> := Empty();
    var timingTotal := 0;
    var powerTotal := 0;
    var i := 0;
    while i < |keys|
      invariant 0 <= i <= |keys|
      invariant out == all[..i]
      invariant pinCounts == HistogramOf(PinCounts(out))
      invariant functionTypes == HistogramOf(FunctionCategories(out))
      invariant cellTypes == HistogramOf(CellTypes(out))
      invariant timingTotal == TimingTotal(out) && powerTotal == PowerTotal(out)
    {
      var name := keys[i];
      var info := cells.vals[name];
      var formatted := FormatCellEntry(name, info);
      FormatCellsPrefix(cells, i, formatted);
      pinCounts, functionTypes, cellTypes, timingTotal, powerTotal :=
        CountCell(out, formatted, pinCounts, functionTypes, cellTypes, timingTotal, powerTotal);
      out := out + [formatted];
      i := i + 1;
    }
    assert all[..|keys|] == all;
    r := Lib2VecData(libraryInfo, out, Statistics(|cells.keys|, pinCounts, functionTypes, cellTypes,
      timingTotal, powerTotal));
  }

  /** `CompleteLib2VecLibertyParser`: the parsed library facts, the cell dictionary and
      the number of headers the cell loop has reached. */
  class CompleteLibertyParser {
    const parse: FloatParser
    var libraryInfo: LibInfo
    var cells: ODict<string, CellInfo>
    var processedCells: nat

    ghost predicate Consistent()
      reads this
    {
      CellsValid(cells)
    }

    constructor(parse: FloatParser)
      ensures this.parse == parse
      ensures libraryInfo == Empty() && cells == Empty() && processedCells == 0
      ensures Consistent()
    {
      this.parse := parse;
      libraryInfo := Empty();
      cells := Empty();
      processedCells := 0;
    }

    /** `_extract_library_info`: the name, the ten parameters, the voltage table and the
        operating conditions. */
    method ExtractLibraryInfo(content: string)
      modifies this
      ensures libraryInfo == CompleteInfo(parse, old(libraryInfo), content)
      ensures cells == old(cells) && processedCells == old(processedCells)
    {
      var info := libraryInfo;
      var lib := Search(Call("library"), content);
      if lib.Some? {
        info := Put(info, "name", Text(StripChar(Strip(lib.value.groups[0]), '"')));
      }
      assert info == PutOpt(libraryInfo, NameEntry(content));
      info := ReadParams(parse, content, info, CompleteParams);
      info := ReadMapsAndConditions(parse, content, info);
      libraryInfo := info;
    }

    /** `_extract_cells_complete`: every header is visited in text order; a cell whose
        body cannot be delimited is skipped, and a repeated name replaces the earlier
        record. */
    method ExtractCells(content: string)
      requires Consistent()
      modifies this
      ensures Consistent()
      ensures cells == Update(old(cells), TextCells(parse, content))
      ensures processedCells == if CellHeaders(content) == [] then old(processedCells) else |CellHeaders(content)|
      ensures libraryInfo == old(libraryInfo)
    {
      var table, count := ScanCells(parse, content, cells);
      cells := table;
      if count != 0 {
        processedCells := count;
      }
    }

    /** `_format_for_lib2vec`: one pass over the cells in dictionary order. */
    method FormatForLib2Vec() returns (r: Lib2VecData)
      requires Consistent()
      ensures r == Format(libraryInfo, cells)
    {
      r := FormatAll(libraryInfo, cells);
    }

    /** `parse_liberty_file` on text already read: comments removed, then the library
        information, the cells, and the formatted result. The remover's size report
        raises on an empty text before anything is extracted. */
    method ParseLibertyText(content: string) returns (r: Option<Lib2VecData>)
      requires Consistent()
      modifies this
      ensures Consistent()
      ensures r.None? <==> content == []
      ensures content == [] ==>
        libraryInfo == old(libraryInfo) && cells == old(cells) && processedCells == old(processedCells)
      ensures content != [] ==>
        && libraryInfo == CompleteInfo(parse, old(libraryInfo), CleanText(content))
        && cells == Update(old(cells), TextCells(parse, CleanText(content)))
        && processedCells == (if CellHeaders(CleanText(content)) == [] then old(processedCells)
                              else |CellHeaders(CleanText(content))|)
        && r == Some(Format(libraryInfo, cells))
    {
      var text := RemoveCommentsReporting(content);
      if text.None? {
        return None;
      }
      ExtractLibraryInfo(text.value);
      ExtractCells(text.value);
      var data := FormatForLib2Vec();
      r := Some(data);
    }
  }
}
