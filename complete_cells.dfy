/** What the complete scanner reads from one cell body: the cell's area, leakage power,
    footprint and function, and one record per pin group with a non-empty body. */
module CompleteCells {
  import opened Wrappers
  import opened Strings
  import opened Patterns
  import opened Braces
  import opened OrderedDicts

  /** One pin. `func` is the pin's `function` attribute; the three optional floats are
      `None` when the attribute is absent. */
  datatype PinInfo = PinInfo(
    name: string,
    direction: Option<string>,
    func: Option<string>,
    capacitance: real,
    maxTransition: Option<real>,
    maxCapacitance: Option<real>,
    minCapacitance: Option<real>,
    timingArcCount: nat,
    powerArcCount: nat)

  /** One cell. `func` is the first quoted `function` attribute anywhere in the body. */
  datatype CellInfo = CellInfo(
    name: string,
    area: real,
    pins: ODict<string, PinInfo>,
    func: Option<string>,
    leakagePower: real,
    footprint: Option<string>)

  /** A float pin attribute: `None` when absent, 0.0 when `float()` rejects its text. */
  function FloatAttribute(parse: FloatParser, body: string, key: string): (r: Option<real>)
    ensures r.None? <==> AttributeText(body, key).None?
    ensures r.Some? ==> r.value == PyFloat(parse, AttributeText(body, key).value).GetOr(0.0)
  {
    match AttributeText(body, key)
    case None => None
    case Some(v) => Some(PyFloat(parse, v).GetOr(0.0))
  }

  /** `_parse_pin_complete`: six attributes, then the number of `timing ( )` and
      `internal_power ( )` groups. An absent attribute keeps its default: no direction or
      function, capacitance 0.0, and no maximum transition or capacitance limits. */
  function ParsePin(parse: FloatParser, name: string, body: string): (p: PinInfo)
    ensures p.name == name
    ensures p.direction.None? <==> Search(Attribute("direction"), body).None?
    ensures p.func.None? <==> Search(Attribute("function"), body).None?
    ensures Search(Attribute("capacitance"), body).None? ==> p.capacitance == 0.0
    ensures p.maxTransition.None? <==> Search(Attribute("max_transition"), body).None?
    ensures p.maxCapacitance.None? <==> Search(Attribute("max_capacitance"), body).None?
    ensures p.minCapacitance.None? <==> Search(Attribute("min_capacitance"), body).None?
  {
    PinInfo(
      name,
      AttributeText(body, "direction"),
      AttributeText(body, "function"),
      FloatAttribute(parse, body, "capacitance").GetOr(0.0),
      FloatAttribute(parse, body, "max_transition"),
      FloatAttribute(parse, body, "max_capacitance"),
      FloatAttribute(parse, body, "min_capacitance"),
      |FindAll(EmptyCall("timing"), body)|,
      |FindAll(EmptyCall("internal_power"), body)|)
  }

  /** A float attribute that is present holds the parsed value, or 0.0 when `float()`
      rejects the text; a string attribute holds the text stripped of whitespace and of
      quotes. */
  lemma PinAttributeValues(parse: FloatParser, name: string, body: string)
    ensures var p := ParsePin(parse, name, body);
      match Search(Attribute("capacitance"), body)
      case Some(m) => |m.groups| == 1 && p.capacitance == PyFloat(parse, StripChar(Strip(m.groups[0]), '"')).GetOr(0.0)
      case None => true
    ensures var p := ParsePin(parse, name, body);
      match Search(Attribute("max_transition"), body)
      case Some(m) => |m.groups| == 1 && p.maxTransition == Some(PyFloat(parse, StripChar(Strip(m.groups[0]), '"')).GetOr(0.0))
      case None => true
    ensures var p := ParsePin(parse, name, body);
      match Search(Attribute("direction"), body)
      case Some(m) => |m.groups| == 1 && p.direction == Some(StripChar(Strip(m.groups[0]), '"'))
      case None => true
    ensures var p := ParsePin(parse, name, body);
      match Search(Attribute("function"), body)
      case Some(m) => |m.groups| == 1 && p.func == Some(StripChar(Strip(m.groups[0]), '"'))
      case None => true
    ensures var p := ParsePin(parse, name, body);
      match Search(Attribute("max_capacitance"), body)
      case Some(m) => |m.groups| == 1 && p.maxCapacitance == Some(PyFloat(parse, StripChar(Strip(m.groups[0]), '"')).GetOr(0.0))
      case None => true
    ensures var p := ParsePin(parse, name, body);
      match Search(Attribute("min_capacitance"), body)
      case Some(m) => |m.groups| == 1 && p.minCapacitance == Some(PyFloat(parse, StripChar(Strip(m.groups[0]), '"')).GetOr(0.0))
      case None => true
  {
  }

  /** One `pin(...) {` header with the body of its group, kept only when the body exists
      and is not empty. */
  function PinSite(body: string, m: Match): (r: Option<(string, string)>)
    requires |m.groups| == 1
    ensures r.Some? <==> MatchingBody(body, m.end).Some? && MatchingBody(body, m.end).value != []
    ensures r.Some? ==> r.value.0 == HeaderName(m) && r.value.1 == MatchingBody(body, m.end).value
  {
    match MatchingBody(body, m.end)
    case None => None
    case Some(b) => if b == [] then None else Some((HeaderName(m), b))
  }

  function PinSites(body: string, ms: seq<Match>): (r: seq<Option<(string, string)>>)
    requires forall k :: 0 <= k < |ms| ==> |ms[k].groups| == 1
    ensures |r| == |ms| && forall k :: 0 <= k < |ms| ==> r[k] == PinSite(body, ms[k])
  {
    seq(|ms|, k requires 0 <= k < |ms| => PinSite(body, ms[k]))
  }

  /** The headers of the pin groups in a cell body, in text order. */
  function PinHeaders(body: string): (r: seq<Match>)
    ensures forall k :: 0 <= k < |r| ==> |r[k].groups| == 1 && r[k].end <= |body|
  {
    FindAllMatches(Header("pin"), body, 0);
    FindAll(Header("pin"), body)
  }

  /** Each pin name with the body the pin loop parses for it. */
  function PinBodies(body: string): ODict<string, string> {
    PutAll(Empty(), PinSites(body, PinHeaders(body)))
  }

  function PinParser(parse: FloatParser): (string, string) -> PinInfo {
    (name: string, b: string) => ParsePin(parse, name, b)
  }

  /** The pin dictionary `_extract_pins_complete` fills: each assignment of the loop stores
      the parse of a body, so the dictionary is the parse of each name's body. */
  function CellPins(parse: FloatParser, body: string): ODict<string, PinInfo> {
    MapValues(PinBodies(body), PinParser(parse))
  }

  /** The pin loop, with the brace scan of each pin body. */
  method ExtractPins(parse: FloatParser, body: string) returns (pins: ODict<string, PinInfo>)
    ensures pins == CellPins(parse, body)
  {
    var ms := PinHeaders(body);
    ghost var sites := PinSites(body, ms);
    pins := Empty();
    var i := 0;
    while i < |ms|
      invariant 0 <= i <= |ms|
      invariant pins == MapValues(PutAll(Empty(), sites[..i]), PinParser(parse))
    {
      var m := ms[i];
      var name := StripChar(Strip(m.groups[0]), '"');
      var pinBody := ExtractBody(body, m.end);
      PutAllSnoc(Empty(), sites, i);
      assert sites[i] == PinSite(body, m);
      if pinBody.Some? && pinBody.value != [] {
        MapValuesPut(PutAll(Empty(), sites[..i]), name, pinBody.value, PinParser(parse));
        pins := Put(pins, name, ParsePin(parse, name, pinBody.value));
      }
      i := i + 1;
    }
    assert sites[..|ms|] == sites;
  }

  /** A pin header whose body is missing or empty adds nothing: a pin name is in the
      dictionary exactly when some header with that name has a non-empty body. */
  lemma PinKeptIff(parse: FloatParser, body: string, name: string)
    ensures name in CellPins(parse, body).vals <==>
      exists k :: 0 <= k < |PinHeaders(body)| && HeaderName(PinHeaders(body)[k]) == name &&
        MatchingBody(body, PinHeaders(body)[k].end).Some? &&
        MatchingBody(body, PinHeaders(body)[k].end).value != []
  {
    var ms := PinHeaders(body);
    var sites := PinSites(body, ms);
    PutAllHas(Empty(), sites, name);
    if Assigns(sites, name) {
      var k :| 0 <= k < |sites| && sites[k].Some? && sites[k].value.0 == name;
      assert HeaderName(ms[k]) == name;
    }
  }

  /** The last header with a non-empty body decides a pin's record. */
  lemma PinLastWins(parse: FloatParser, body: string, k: nat)
    requires k < |PinHeaders(body)|
    requires MatchingBody(body, PinHeaders(body)[k].end).Some?
    requires MatchingBody(body, PinHeaders(body)[k].end).value != []
    requires forall j :: (k < j < |PinHeaders(body)| && MatchingBody(body, PinHeaders(body)[j].end).Some? &&
      MatchingBody(body, PinHeaders(body)[j].end).value != []) ==>
      HeaderName(PinHeaders(body)[j]) != HeaderName(PinHeaders(body)[k])
    ensures HeaderName(PinHeaders(body)[k]) in CellPins(parse, body).vals
    ensures CellPins(parse, body).vals[HeaderName(PinHeaders(body)[k])] ==
      ParsePin(parse, HeaderName(PinHeaders(body)[k]), MatchingBody(body, PinHeaders(body)[k].end).value)
  {
    var ms := PinHeaders(body);
    var sites := PinSites(body, ms);
    assert forall j :: k < j < |sites| ==> sites[j].None? || sites[j].value.0 != sites[k].value.0;
    PutAllLast(Empty(), sites, k);
  }

  /** `float(m.group(1))` for a cell attribute: the group is not quote-stripped, and a
      missing or rejected value is 0.0. */
  function CellFloat(parse: FloatParser, body: string, key: string): real {
    match Search(Attribute(key), body)
    case None => 0.0
    case Some(m) => PyFloat(parse, m.groups[0]).GetOr(0.0)
  }

  /** The first `function : "..."` group of the body, kept as written. */
  function QuotedFunction(body: string): (r: Option<string>)
    ensures r.None? <==> Search(QuotedAttribute("function"), body).None?
    ensures r.Some? ==> r.value != []
  {
    match Search(QuotedAttribute("function"), body)
    case None => None
    case Some(m) => Some(m.groups[0])
  }

  /** `_parse_single_cell_complete` */
  function CellSpec(parse: FloatParser, name: string, body: string): CellInfo {
    CellInfo(
      name,
      CellFloat(parse, body, "area"),
      CellPins(parse, body),
      QuotedFunction(body),
      CellFloat(parse, body, "cell_leakage_power"),
      AttributeText(body, "cell_footprint"))
  }

  /** The cell parse, with the pin loop. */
  method ParseSingleCell(parse: FloatParser, name: string, body: string) returns (info: CellInfo)
    ensures info == CellSpec(parse, name, body)
  {
    var area := 0.0;
    var areaMatch := Search(Attribute("area"), body);
    if areaMatch.Some? {
      area := PyFloat(parse, areaMatch.value.groups[0]).GetOr(0.0);
    }
    var leakage := 0.0;
    var leakageMatch := Search(Attribute("cell_leakage_power"), body);
    if leakageMatch.Some? {
      leakage := PyFloat(parse, leakageMatch.value.groups[0]).GetOr(0.0);
    }
    var footprint := AttributeText(body, "cell_footprint");
    var pins := ExtractPins(parse, body);
    var func := QuotedFunction(body);
    info := CellInfo(name, area, pins, func, leakage, footprint);
  }

  /** Area and leakage power are 0.0 when absent or rejected by `float()`, and otherwise
      the parsed group. */
  lemma CellNumbers(parse: FloatParser, name: string, body: string)
    ensures var c := CellSpec(parse, name, body);
      c.name == name &&
      (Search(Attribute("area"), body).None? ==> c.area == 0.0) &&
      (Search(Attribute("cell_leakage_power"), body).None? ==> c.leakagePower == 0.0) &&
      (Search(Attribute("area"), body).Some? &&
        PyFloat(parse, Search(Attribute("area"), body).value.groups[0]).Some? ==>
        c.area == PyFloat(parse, Search(Attribute("area"), body).value.groups[0]).value)
  {
  }

  /** Every pin dictionary is a well-formed ordered dictionary. */
  lemma CellPinsValid(parse: FloatParser, name: string, body: string)
    ensures Valid(CellSpec(parse, name, body).pins)
  {
    PutAllValid(Empty<string, string>(), PinSites(body, PinHeaders(body)));
  }
}
