/** The optimized scanner: the same comment removal, library facts and cell loop as the
    complete scanner, but a lighter cell record. Every pin header makes a pin, whose
    direction is looked up in a fixed window after the header and whose capacitance and
    timing are constants; the formatted output carries the pin names only. The quick
    variant keeps only the first cells. */
module OptimizedParser {
  import opened Wrappers
  import opened Strings
  import opened Patterns
  import opened Braces
  import opened OrderedDicts
  import opened Histograms
  import opened LibraryInfo
  import opened Comments
  import opened CompleteCells
  import opened AttributeWindows
  import opened CellScan
  import OptimizedTaxonomy

  /** One pin: the capacitance is always 0.0 and the timing list always empty. */
  datatype PinEntry = PinEntry(name: string, direction: Option<string>, capacitance: real, timing: seq<string>)

  /** One cell. The source's `timing_arcs`, `power_info` and `attributes` entries are
      always empty and are not represented. */
  datatype CellEntry = CellEntry(name: string, area: real, pins: ODict<string, PinEntry>, func: Option<string>)

  /** Each pin header's name with the position just after its `{`. */
  function PinPositions(ms: seq<Match>): (r: seq<Option<(string, nat)>>)
    requires forall k :: 0 <= k < |ms| ==> |ms[k].groups| == 1
    ensures |r| == |ms| && forall k :: 0 <= k < |ms| ==> r[k] == Some((HeaderName(ms[k]), ms[k].end))
  {
    seq(|ms|, k requires 0 <= k < |ms| => Some((HeaderName(ms[k]), ms[k].end)))
  }

  /** The pin record for a header ending at `end`: the direction of the window after it. */
  function PinMaker(body: string): (string, nat) -> PinEntry {
    (name: string, end: nat) => PinEntry(name, SimpleAttribute(body, "direction", end), 0.0, [])
  }

  /** The pin dictionary: one assignment per pin header, in text order. */
  function EntryPins(body: string): ODict<string, PinEntry> {
    MapValues(PutAll(Empty(), PinPositions(PinHeaders(body))), PinMaker(body))
  }

  /** The pin loop of `_parse_single_cell_optimized`. */
  method ReadPins(body: string) returns (pins: ODict<string, PinEntry>)
    ensures pins == EntryPins(body)
  {
    var ms := PinHeaders(body);
    ghost var sites := PinPositions(ms);
    pins := Empty();
    var i := 0;
    while i < |ms|
      invariant 0 <= i <= |ms|
      invariant pins == MapValues(PutAll(Empty(), sites[..i]), PinMaker(body))
    {
      var m := ms[i];
      var name := StripChar(Strip(m.groups[0]), '"');
      var pin := PinEntry(name, SimpleAttribute(body, "direction", m.end), 0.0, []);
      assert pin == PinMaker(body)(name, m.end);
      MapValuesSnoc(sites, i, name, m.end, PinMaker(body));
      pins := Put(pins, name, pin);
      i := i + 1;
    }
    assert sites[..|ms|] == sites;
  }

  /** Every pin header makes a pin, whatever its body: a name is in the dictionary
      exactly when some header carries it. */
  lemma PinKeptIff(body: string, name: string)
    ensures name in EntryPins(body).vals <==>
      exists k :: 0 <= k < |PinHeaders(body)| && HeaderName(PinHeaders(body)[k]) == name
  {
    var ms := PinHeaders(body);
    var d := PutAll(Empty(), PinPositions(ms));
    PutAllHas(Empty(), PinPositions(ms), name);
    PositionsAssign(ms, name);
    assert EntryPins(body) == MapValues(d, PinMaker(body));
    assert name in EntryPins(body).vals <==> name in d.vals;
  }

  /** The header positions assign a name exactly when some header carries it. */
  lemma PositionsAssign(ms: seq<Match>, name: string)
    requires forall k :: 0 <= k < |ms| ==> |ms[k].groups| == 1
    ensures Assigns(PinPositions(ms), name) <==> exists k :: 0 <= k < |ms| && HeaderName(ms[k]) == name
  {
    var names := seq(|ms|, k requires 0 <= k < |ms| => HeaderName(ms[k]));
    AssignsNames(PinPositions(ms), names, name);
  }

  /** A pin's record is made from its last header: its direction is the window attribute
      after that header, its capacitance 0.0 and its timing list empty. */
  lemma PinFromLastHeader(body: string, k: nat)
    requires k < |PinHeaders(body)|
    requires forall j :: k < j < |PinHeaders(body)| ==>
      HeaderName(PinHeaders(body)[j]) != HeaderName(PinHeaders(body)[k])
    ensures HeaderName(PinHeaders(body)[k]) in EntryPins(body).vals
    ensures EntryPins(body).vals[HeaderName(PinHeaders(body)[k])] ==
      PinEntry(HeaderName(PinHeaders(body)[k]),
        SimpleAttribute(body, "direction", PinHeaders(body)[k].end), 0.0, [])
  {
    var ms := PinHeaders(body);
    var sites := PinPositions(ms);
    var name := HeaderName(ms[k]);
    assert sites[k] == Some((name, ms[k].end));
    assert forall j :: k < j < |sites| ==> sites[j].None? || sites[j].value.0 != sites[k].value.0;
    PutAllLast(Empty(), sites, k);
    var raw := PutAll(Empty(), sites);
    assert name in raw.vals && raw.vals[name] == ms[k].end;
    assert EntryPins(body) == MapValues(raw, PinMaker(body));
    assert EntryPins(body).vals[name] == PinMaker(body)(name, ms[k].end);
  }

  /** `_parse_single_cell_optimized` */
  function EntrySpec(parse: FloatParser, name: string, body: string): CellEntry {
    CellEntry(name, CellFloat(parse, body, "area"), EntryPins(body), QuotedFunction(body))
  }

  /** The cell parse, with the pin loop. */
  method ParseSingleCell(parse: FloatParser, name: string, body: string) returns (info: CellEntry)
    ensures info == EntrySpec(parse, name, body)
  {
    var area := 0.0;
    var areaMatch := Search(Attribute("area"), body);
    if areaMatch.Some? {
      area := PyFloat(parse, areaMatch.value.groups[0]).GetOr(0.0);
    }
    var pins := ReadPins(body);
    var func := QuotedFunction(body);
    info := CellEntry(name, area, pins, func);
  }

  /** Every pin has capacitance 0.0 and no timing entries, and is stored under its own
      name; the area is 0.0 when absent or rejected by `float()`. */
  lemma EntryConstants(parse: FloatParser, name: string, body: string, pin: string)
    ensures var c := EntrySpec(parse, name, body);
      c.name == name &&
      (Search(Attribute("area"), body).None? ==> c.area == 0.0) &&
      (pin in c.pins.vals ==> (c.pins.vals[pin].capacitance == 0.0 &&
        c.pins.vals[pin].timing == [] && c.pins.vals[pin].name == pin))
  {
    var sites := PinPositions(PinHeaders(body));
    var raw := PutAll(Empty(), sites);
    if pin in raw.vals {
      assert EntryPins(body).vals[pin] == PinMaker(body)(pin, raw.vals[pin]);
    }
  }

  function EntryParser(parse: FloatParser): (string, string) -> CellEntry {
    (name: string, b: string) => EntrySpec(parse, name, b)
  }

  /** The cells of one text. */
  function TextEntries(parse: FloatParser, content: string): ODict<string, CellEntry> {
    TextValues(content, EntryParser(parse))
  }

  /** A repeated cell name keeps the record parsed from its last header with a body. */
  lemma EntryLastWins(parse: FloatParser, content: string, d: ODict<string, CellEntry>, k: nat)
    requires k < |CellHeaders(content)| && MatchingBody(content, CellHeaders(content)[k].end).Some?
    requires forall j :: (k < j < |CellHeaders(content)| && MatchingBody(content, CellHeaders(content)[j].end).Some?) ==>
      HeaderName(CellHeaders(content)[j]) != HeaderName(CellHeaders(content)[k])
    ensures HeaderName(CellHeaders(content)[k]) in Update(d, TextEntries(parse, content)).vals
    ensures Update(d, TextEntries(parse, content)).vals[HeaderName(CellHeaders(content)[k])] ==
      EntrySpec(parse, HeaderName(CellHeaders(content)[k]), MatchingBody(content, CellHeaders(content)[k].end).value)
  {
    CellScan.CellLastWins(content, d, EntryParser(parse), k);
  }

  /** One turn of the cell loop: the body delimited by brace counting is parsed and
      stored, and a header whose group never closes is skipped. */
  method StoreEntry(parse: FloatParser, content: string, ghost d: ODict<string, CellEntry>, ms: seq<Match>, i: nat,
                    table: ODict<string, CellEntry>) returns (next: ODict<string, CellEntry>)
    requires forall k :: 0 <= k < |ms| ==> |ms[k].groups| == 1
    requires i < |ms|
    requires table == StoredAfter(content, d, EntryParser(parse), ms, i)
    ensures next == StoredAfter(content, d, EntryParser(parse), ms, i + 1)
  {
    var m := ms[i];
    var name := StripChar(Strip(m.groups[0]), '"');
    var body := ExtractBody(content, m.end);
    CellStep(content, d, EntryParser(parse), ms, i, table, body);
    next := table;
    if body.Some? {
      var info := ParseSingleCell(parse, name, body.value);
      next := Put(table, name, info);
    }
  }

  /** The cell loop over the headers `ms` of the text, storing into `d`. */
  method ReadEntries(parse: FloatParser, content: string, ms: seq<Match>, d: ODict<string, CellEntry>)
    returns (table: ODict<string, CellEntry>)
    requires ms == CellHeaders(content)
    ensures table == Update(d, TextEntries(parse, content))
  {
    StoredBounds(content, d, EntryParser(parse));
    table := d;
    var i := 0;
    while i < |ms|
      invariant 0 <= i <= |ms|
      invariant table == StoredAfter(content, d, EntryParser(parse), ms, i)
    {
      table := StoreEntry(parse, content, d, ms, i, table);
      i := i + 1;
    }
  }

  /** Python truthiness of `max_cells`: `None` and `0` are false. */
  predicate Truthy(maxCells: Option<int>) {
    maxCells.Some? && maxCells.value != 0
  }

  /** The quick parser's limit: `list(self.cells.items())[:max_cells]` when `max_cells` is
      truthy and smaller than the number of cells. A positive limit keeps the first
      `max_cells` cells, in order and with their records; a falsy limit, or one the cells
      do not exceed, changes nothing. A negative limit drops that many cells from the end,
      as a Python slice does. */
  function Limit<V>(cells: ODict<string, V>, maxCells: Option<int>): (r: ODict<string, V>)
    requires Valid(cells)
    ensures Valid(r) && (forall k :: k in r.vals ==> k in cells.vals && r.vals[k] == cells.vals[k])
    ensures (Truthy(maxCells) && 0 < maxCells.value < |cells.keys|) ==> r.keys == cells.keys[..maxCells.value]
    ensures (Truthy(maxCells) && maxCells.value < 0) ==>
      r.keys == cells.keys[..SliceLen(maxCells.value, |cells.keys|)] &&
      |r.keys| == if |cells.keys| + maxCells.value < 0 then 0 else |cells.keys| + maxCells.value
    ensures (!Truthy(maxCells) || |cells.keys| <= maxCells.value) ==> r == cells
  {
    if Truthy(maxCells) && |cells.keys| > maxCells.value then Take(cells, maxCells.value) else cells
  }

  /** One formatted cell: its pin names in dictionary order. */
  datatype FormattedEntry = FormattedEntry(
    name: string, area: real, pinCount: nat, pins: seq<string>, func: Option<string>, cellType: string)

  datatype EntryStatistics = EntryStatistics(
    totalCells: nat, pinCountDistribution: ODict<nat, nat>, functionTypes: ODict<string, nat>)

  datatype EntryData = EntryData(libraryInfo: LibInfo, cells: seq<FormattedEntry>, statistics: EntryStatistics)

  function FormatEntry(name: string, c: CellEntry): FormattedEntry {
    var n := |c.pins.keys|;
    FormattedEntry(name, c.area, n, c.pins.keys, c.func, OptimizedTaxonomy.InferCellType(name, n))
  }

  function FormatEntries(cells: ODict<string, CellEntry>): (r: seq<FormattedEntry>)
    requires Valid(cells)
    ensures |r| == |cells.keys|
    ensures forall i :: 0 <= i < |r| ==> r[i] == FormatEntry(cells.keys[i], cells.vals[cells.keys[i]])
  {
    seq(|cells.keys|, i requires 0 <= i < |cells.keys| => FormatEntry(cells.keys[i], cells.vals[cells.keys[i]]))
  }

  function EntryPinCounts(fs: seq<FormattedEntry>): (r: seq<nat>)
    ensures |r| == |fs|
  {
    if fs == [] then [] else EntryPinCounts(fs[..|fs| - 1]) + [fs[|fs| - 1].pinCount]
  }

  /** The function categories of the cells whose function is present and non-empty. */
  function EntryCategories(fs: seq<FormattedEntry>): (r: seq<string>)
    ensures |r| <= |fs|
  {
    if fs == [] then []
    else
      var c := fs[|fs| - 1];
      EntryCategories(fs[..|fs| - 1]) +
        (if c.func.Some? && c.func.value != [] then [OptimizedTaxonomy.CategorizeFunction(c.func)] else [])
  }

  /** `_format_for_lib2vec` */
  function FormatData(info: LibInfo, cells: ODict<string, CellEntry>): EntryData
    requires Valid(cells)
  {
    var fs := FormatEntries(cells);
    EntryData(info, fs, EntryStatistics(|cells.keys|, HistogramOf(EntryPinCounts(fs)),
      HistogramOf(EntryCategories(fs))))
  }

  /** The pin counts and categories after one more formatted cell. */
  lemma EntrySnoc(fs: seq<FormattedEntry>, c: FormattedEntry)
    ensures EntryPinCounts(fs + [c]) == EntryPinCounts(fs) + [c.pinCount]
    ensures EntryCategories(fs + [c]) == EntryCategories(fs) +
      (if c.func.Some? && c.func.value != [] then [OptimizedTaxonomy.CategorizeFunction(c.func)] else [])
  {
    assert (fs + [c])[..|fs|] == fs;
  }

  /** The counters after one more formatted cell. */
  lemma EntryStatisticsStep(fs: seq<FormattedEntry>, c: FormattedEntry)
    ensures HistogramOf(EntryPinCounts(fs + [c])) == Inc(HistogramOf(EntryPinCounts(fs)), c.pinCount)
    ensures HistogramOf(EntryCategories(fs + [c])) ==
      if c.func.Some? && c.func.value != [] then
        Inc(HistogramOf(EntryCategories(fs)), OptimizedTaxonomy.CategorizeFunction(c.func))
      else HistogramOf(EntryCategories(fs))
  {
    EntrySnoc(fs, c);
    HistogramSnoc(EntryPinCounts(fs), c.pinCount);
    if c.func.Some? && c.func.value != [] {
      HistogramSnoc(EntryCategories(fs), OptimizedTaxonomy.CategorizeFunction(c.func));
    } else {
      assert EntryCategories(fs + [c]) == EntryCategories(fs);
    }
  }

  lemma {:induction false} EntryCategoriesKnown(fs: seq<FormattedEntry>)
    ensures "unknown" !in EntryCategories(fs)
    decreases |fs|
  {
    if fs != [] {
      EntryCategoriesKnown(fs[..|fs| - 1]);
    }
  }

  /** One formatted cell per dictionary entry, in dictionary order, each listing its pin
      names in insertion order and counting them; the pin-count counters add up to the
      number of cells; only cells with a function are counted by category, and never as
      `unknown`. */
  lemma FormatDataStatistics(info: LibInfo, cells: ODict<string, CellEntry>)
    requires Valid(cells)
    ensures var r := FormatData(info, cells);
      |r.cells| == r.statistics.totalCells == |cells.keys| &&
      (forall i :: 0 <= i < |r.cells| ==> (r.cells[i].name == cells.keys[i] &&
        r.cells[i].pins == cells.vals[cells.keys[i]].pins.keys &&
        r.cells[i].pinCount == |r.cells[i].pins|)) &&
      Valid(r.statistics.pinCountDistribution) &&
      Total(r.statistics.pinCountDistribution) == r.statistics.totalCells &&
      Valid(r.statistics.functionTypes) &&
      Total(r.statistics.functionTypes) <= r.statistics.totalCells &&
      "unknown" !in r.statistics.functionTypes.vals
  {
    var fs := FormatEntries(cells);
    HistogramTotal(EntryPinCounts(fs));
    HistogramTotal(EntryCategories(fs));
    EntryCategoriesKnown(fs);
    HistogramCounts(EntryCategories(fs), "unknown");
  }

  /** The formatting loop. */
  method FormatLoop(libraryInfo: LibInfo, cells: ODict<string, CellEntry>) returns (r: EntryData)
    requires Valid(cells)
    ensures r == FormatData(libraryInfo, cells)
  {
    var keys := cells.keys;
    ghost var all := FormatEntries(cells);
    var out: seq<FormattedEntry> := [];
    var pinCounts: ODict<nat, nat> := Empty();
    var functionTypes: ODict<string, nat> := Empty();
    var i := 0;
    while i < |keys|
      invariant 0 <= i <= |keys|
      invariant out == all[..i]
      invariant pinCounts == HistogramOf(EntryPinCounts(out))
      invariant functionTypes == HistogramOf(EntryCategories(out))
    {
      var name := keys[i];
      var info := cells.vals[name];
      var pinCount := |info.pins.keys|;
      pinCounts := Inc(pinCounts, pinCount);
      if info.func.Some? && info.func.value != [] {
        functionTypes := Inc(functionTypes, OptimizedTaxonomy.CategorizeFunction(info.func));
      }
      var formatted := FormattedEntry(name, info.area, pinCount, info.pins.keys, info.func,
        OptimizedTaxonomy.InferCellType(name, pinCount));
      assert formatted == all[i];
      EntryStatisticsStep(out, formatted);
      TakeSnoc(all, i);
      out := out + [formatted];
      i := i + 1;
    }
    assert all[..|keys|] == all;
    r := EntryData(libraryInfo, out, EntryStatistics(|cells.keys|, pinCounts, functionTypes));
  }

  /** `OptimizedLib2VecLibertyParser`, and with a cell limit the quick parser that
      overrides its cell extraction. */
  class OptimizedLibertyParser {
    const parse: FloatParser
    const maxCells: Option<int>
    var libraryInfo: LibInfo
    var cells: ODict<string, CellEntry>

    ghost predicate Consistent()
      reads this
    {
      Valid(cells)
    }

    /** The plain parser has no limit (`maxCells == None`); the quick parser has one. */
    constructor(parse: FloatParser, maxCells: Option<int>)
      ensures this.parse == parse && this.maxCells == maxCells
      ensures libraryInfo == Empty() && cells == Empty()
      ensures Consistent()
    {
      this.parse := parse;
      this.maxCells := maxCells;
      libraryInfo := Empty();
      cells := Empty();
    }

    /** `_extract_library_info`: the name and the six parameters. */
    method ExtractLibraryInfo(content: string)
      modifies this
      ensures libraryInfo == OptimizedInfo(parse, old(libraryInfo), content)
      ensures cells == old(cells)
    {
      var info := libraryInfo;
      var lib := Search(Call("library"), content);
      if lib.Some? {
        info := Put(info, "name", Text(StripChar(Strip(lib.value.groups[0]), '"')));
      }
      assert info == PutOpt(libraryInfo, NameEntry(content));
      info := ReadParams(parse, content, info, OptimizedParams);
      libraryInfo := info;
    }

    /** `_extract_cells_optimized`, then, with a truthy limit that the cells exceed, the
        quick parser's truncation to the first cells. */
    method ExtractCells(content: string)
      requires Consistent()
      modifies this
      ensures Consistent()
      ensures Valid(Update(old(cells), TextEntries(parse, content)))
      ensures cells == Limit(Update(old(cells), TextEntries(parse, content)), maxCells)
      ensures libraryInfo == old(libraryInfo)
    {
      var starts := CellHeaders(content);
      TextValuesValid(content, cells, EntryParser(parse));
      if |starts| == 0 {
        NoHeadersNoCells(content, EntryParser(parse));
        UpdateEmpty(cells, TextEntries(parse, content));
      } else {
        cells := ReadEntries(parse, content, starts, cells);
      }
      if maxCells.Some? && maxCells.value != 0 && |cells.keys| > maxCells.value {
        cells := Take(cells, maxCells.value);
      }
    }

    /** `_format_for_lib2vec` */
    method FormatForLib2Vec() returns (r: EntryData)
      requires Consistent()
      ensures r == FormatData(libraryInfo, cells)
    {
      r := FormatLoop(libraryInfo, cells);
    }

    /** `parse_liberty_file` on text already read. */
    method ParseLibertyText(content: string) returns (r: EntryData)
      requires Consistent()
      modifies this
      ensures Consistent()
      ensures libraryInfo == OptimizedInfo(parse, old(libraryInfo), CleanText(content))
      ensures Valid(Update(old(cells), TextEntries(parse, CleanText(content))))
      ensures cells == Limit(Update(old(cells), TextEntries(parse, CleanText(content))), maxCells)
      ensures r == FormatData(libraryInfo, cells)
    {
      var text := RemoveComments(content);
      ExtractLibraryInfo(text);
      ExtractCells(text);
      r := FormatForLib2Vec();
    }
  }
}
