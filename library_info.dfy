/** The library-level facts both scanners read before the cells: the library name, a
    fixed list of `key : value ;` parameters and, in the complete scanner, the
    `voltage_map` entries and the name of the operating conditions. */
module LibraryInfo {
  import opened Wrappers
  import opened Strings
  import opened Patterns
  import opened OrderedDicts

  /** A library parameter's value: a float when `float()` accepts it, otherwise the text;
      the voltage maps form a table of their own. */
  datatype LibValue = Number(x: real) | Text(s: string) | VoltageTable(table: ODict<string, real>)

  type LibInfo = ODict<string, LibValue>

  /** The parameters the complete scanner reads, in its order. */
  const CompleteParams: seq<string> := [
    "delay_model", "nom_voltage", "nom_temperature", "nom_process",
    "default_max_transition", "default_fanout_load", "default_inout_pin_cap",
    "default_input_pin_cap", "default_output_pin_cap", "in_place_swap_mode"
  ]

  /** The parameters the optimized scanner reads, in its order. */
  const OptimizedParams: seq<string> := [
    "delay_model", "nom_voltage", "nom_temperature", "nom_process",
    "default_max_transition", "default_fanout_load"
  ]

  /** `library\s*\(\s*([^)]+)\s*\)`, its group stripped of whitespace and then of quotes. */
  function NameEntry(content: string): (r: Option<(string, LibValue)>)
    ensures r.Some? ==> r.value.0 == "name" && r.value.1.Text?
  {
    match Search(Call("library"), content)
    case None => None
    case Some(m) => Some(("name", Text(StripChar(Strip(m.groups[0]), '"'))))
  }

  /** A parameter's value: the attribute text converted by `float()`, or kept as text
      when the conversion fails. */
  function ParamValue(parse: FloatParser, content: string, param: string): Option<LibValue> {
    match AttributeText(content, param)
    case None => None
    case Some(v) =>
      match PyFloat(parse, v)
      case Some(x) => Some(Number(x))
      case None => Some(Text(v))
  }

  function ParamLookup(parse: FloatParser, content: string): string -> Option<LibValue> {
    (param: string) => ParamValue(parse, content, param)
  }

  /** One assignment per parameter, skipped when the parameter is absent. */
  function ParamEntries(parse: FloatParser, content: string, params: seq<string>): seq<Option<(string, LibValue)>> {
    Assignments(params, ParamLookup(parse, content))
  }

  /** One `voltage_map(name, voltage)` match: the stripped name and the voltage with
      whitespace and a trailing `;` removed, dropped when `float()` rejects it. */
  function VoltageEntry(parse: FloatParser, m: Match): (r: Option<(string, real)>)
    requires |m.groups| == 2
    ensures r.Some? <==> PyFloat(parse, RStripChar(Strip(m.groups[1]), ';')).Some?
    ensures r.Some? ==> r.value == (Strip(m.groups[0]), PyFloat(parse, RStripChar(Strip(m.groups[1]), ';')).value)
  {
    match PyFloat(parse, RStripChar(Strip(m.groups[1]), ';'))
    case None => None
    case Some(x) => Some((Strip(m.groups[0]), x))
  }

  function VoltageEntries(parse: FloatParser, ms: seq<Match>): (r: seq<Option<(string, real)>>)
    requires forall k :: 0 <= k < |ms| ==> |ms[k].groups| == 2
    ensures |r| == |ms| && forall k :: 0 <= k < |r| ==> r[k] == VoltageEntry(parse, ms[k])
  {
    seq(|ms|, k requires 0 <= k < |ms| => VoltageEntry(parse, ms[k]))
  }

  /** The table filled from the `voltage_map(...)` matches `ms`, in order. */
  function VoltageTableFrom(parse: FloatParser, ms: seq<Match>): ODict<string, real>
    requires forall k :: 0 <= k < |ms| ==> |ms[k].groups| == 2
  {
    PutAll(Empty(), VoltageEntries(parse, ms))
  }

  /** The `voltage_maps` table: present when any `voltage_map(...)` matches, even if no
      voltage in it parses. */
  function VoltageTableOf(parse: FloatParser, content: string): Option<ODict<string, real>> {
    var ms := FindAll(VoltageMap, content);
    FindAllMatches(VoltageMap, content, 0);
    if ms == [] then None else Some(VoltageTableFrom(parse, ms))
  }

  /** The stripped name group of the first operating-conditions group with a non-empty
      body. */
  function OperatingConditionsEntry(content: string): (r: Option<(string, LibValue)>)
    ensures r.Some? ==> r.value.0 == "operating_conditions"
  {
    match Search(OperatingConditions, content)
    case None => None
    case Some(m) => Some(("operating_conditions", Text(Strip(m.groups[0]))))
  }

  /** The library name, then the parameters in list order. */
  function BasicInfo(parse: FloatParser, d: LibInfo, content: string, params: seq<string>): LibInfo {
    PutAll(PutOpt(d, NameEntry(content)), ParamEntries(parse, content, params))
  }

  /** `basic` followed by the `voltage_maps` and `operating_conditions` entries. */
  function Extend(basic: LibInfo, maps: Option<ODict<string, real>>, opc: Option<(string, LibValue)>): LibInfo
    requires opc.Some? ==> opc.value.0 == "operating_conditions"
  {
    var withMaps :=
      match maps
      case None => basic
      case Some(t) => Put(basic, "voltage_maps", VoltageTable(t));
    PutOpt(withMaps, opc)
  }

  /** What the complete scanner stores: the basic information, then `voltage_maps`,
      then `operating_conditions`. */
  function CompleteInfo(parse: FloatParser, d: LibInfo, content: string): LibInfo {
    Extend(BasicInfo(parse, d, content, CompleteParams), VoltageTableOf(parse, content),
      OperatingConditionsEntry(content))
  }

  /** What the optimized scanner stores. */
  function OptimizedInfo(parse: FloatParser, d: LibInfo, content: string): LibInfo {
    BasicInfo(parse, d, content, OptimizedParams)
  }

  predicate Distinct(xs: seq<string>) {
    forall i, j :: 0 <= i < j < |xs| ==> xs[i] != xs[j]
  }

  /** The parameter names are distinct and differ from the other keys. */
  lemma ParamsDistinct()
    ensures Distinct(CompleteParams) && Distinct(OptimizedParams)
    ensures OptimizedParams == CompleteParams[..6]
    ensures forall i :: 0 <= i < |CompleteParams| ==>
      CompleteParams[i] != "name" && CompleteParams[i] != "voltage_maps" &&
      CompleteParams[i] != "operating_conditions"
  {
  }

  /** The entries `Extend` adds leave every other key as it was. */
  lemma ExtendKeeps(basic: LibInfo, maps: Option<ODict<string, real>>, opc: Option<(string, LibValue)>, p: string)
    requires opc.Some? ==> opc.value.0 == "operating_conditions"
    requires p != "voltage_maps" && p != "operating_conditions"
    ensures var r := Extend(basic, maps, opc);
      (p in r.vals <==> p in basic.vals) && (p in basic.vals ==> r.vals[p] == basic.vals[p])
  {
  }

  /** Each listed parameter that occurs is stored as a float when `float()` accepts its
      text and as the text otherwise; an absent one leaves the entry as it was. */
  lemma BasicParamStored(parse: FloatParser, d: LibInfo, content: string, params: seq<string>, i: nat)
    requires Distinct(params) && i < |params| && params[i] != "name"
    ensures var r := BasicInfo(parse, d, content, params);
      match AttributeText(content, params[i])
      case Some(v) =>
        params[i] in r.vals &&
        r.vals[params[i]] == (if PyFloat(parse, v).Some? then Number(PyFloat(parse, v).value) else Text(v))
      case None =>
        (params[i] in r.vals <==> params[i] in d.vals) &&
        (params[i] in d.vals ==> r.vals[params[i]] == d.vals[params[i]])
  {
    var d1 := PutOpt(d, NameEntry(content));
    var f := ParamLookup(parse, content);
    var p := params[i];
    assert BasicInfo(parse, d, content, params) == PutAll(d1, Assignments(params, f));
    AssignmentsStored(d1, params, f, i);
    assert f(p) == ParamValue(parse, content, p);
    assert (p in d1.vals <==> p in d.vals) && (p in d.vals ==> d1.vals[p] == d.vals[p]);
  }

  /** The complete scanner's parameters are stored as in `BasicParamStored`: the entries
      added after them use other keys. */
  lemma CompleteParamStored(parse: FloatParser, d: LibInfo, content: string, i: nat)
    requires i < |CompleteParams|
    ensures var r := CompleteInfo(parse, d, content);
      var p := CompleteParams[i];
      match AttributeText(content, p)
      case Some(v) => p in r.vals &&
        r.vals[p] == (if PyFloat(parse, v).Some? then Number(PyFloat(parse, v).value) else Text(v))
      case None => (p in r.vals <==> p in d.vals) && (p in d.vals ==> r.vals[p] == d.vals[p])
  {
    ParamsDistinct();
    var p := CompleteParams[i];
    BasicParamStored(parse, d, content, CompleteParams, i);
    var basic := BasicInfo(parse, d, content, CompleteParams);
    ExtendKeeps(basic, VoltageTableOf(parse, content), OperatingConditionsEntry(content), p);
  }

  /** The optimized scanner reads the first six of the complete scanner's parameters,
      and stores each of them exactly as the complete scanner does. */
  lemma SharedParamsAgree(parse: FloatParser, d: LibInfo, content: string, i: nat)
    requires i < |OptimizedParams|
    ensures OptimizedParams[i] == CompleteParams[i]
    ensures var p := OptimizedParams[i];
      var a := OptimizedInfo(parse, d, content);
      var b := CompleteInfo(parse, d, content);
      (p in a.vals <==> p in b.vals) && (p in a.vals ==> a.vals[p] == b.vals[p])
  {
    ParamsDistinct();
    BasicParamStored(parse, d, content, OptimizedParams, i);
    CompleteParamStored(parse, d, content, i);
  }

  /** A voltage that `float()` rejects leaves no entry under its name unless another
      `voltage_map` with the same name parses. */
  lemma UnparsableVoltageDropped(parse: FloatParser, ms: seq<Match>, name: string)
    requires forall k :: 0 <= k < |ms| ==> |ms[k].groups| == 2
    requires forall k :: 0 <= k < |ms| && Strip(ms[k].groups[0]) == name ==>
      VoltageEntry(parse, ms[k]).None?
    ensures name !in VoltageTableFrom(parse, ms).vals
  {
    var es := VoltageEntries(parse, ms);
    PutAllHas(Empty(), es, name);
  }

  /** A parsed voltage is stored under its stripped name when no later `voltage_map`
      with that name parses. */
  lemma ParsedVoltageStored(parse: FloatParser, ms: seq<Match>, k: nat)
    requires forall j :: 0 <= j < |ms| ==> |ms[j].groups| == 2
    requires k < |ms| && VoltageEntry(parse, ms[k]).Some?
    requires forall j :: k < j < |ms| && VoltageEntry(parse, ms[j]).Some? ==>
      Strip(ms[j].groups[0]) != Strip(ms[k].groups[0])
    ensures var e := VoltageEntry(parse, ms[k]).value;
      e.0 == Strip(ms[k].groups[0]) &&
      e.0 in VoltageTableFrom(parse, ms).vals && VoltageTableFrom(parse, ms).vals[e.0] == e.1
  {
    LaterEntriesDiffer(parse, ms, k);
    PutAllLast(Empty(), VoltageEntries(parse, ms), k);
  }

  /** No later entry has the name of entry `k` when no later parsed voltage does. */
  lemma LaterEntriesDiffer(parse: FloatParser, ms: seq<Match>, k: nat)
    requires forall j :: 0 <= j < |ms| ==> |ms[j].groups| == 2
    requires k < |ms| && VoltageEntry(parse, ms[k]).Some?
    requires forall j :: k < j < |ms| && VoltageEntry(parse, ms[j]).Some? ==>
      Strip(ms[j].groups[0]) != Strip(ms[k].groups[0])
    ensures var es := VoltageEntries(parse, ms);
      es[k].Some? && forall j :: k < j < |es| ==> es[j].None? || es[j].value.0 != es[k].value.0
  {
    var es := VoltageEntries(parse, ms);
    forall j | k < j < |es|
      ensures es[j].None? || es[j].value.0 != es[k].value.0
    {
      assert es[j] == VoltageEntry(parse, ms[j]);
    }
  }

  /** The parameter loop: each parameter that occurs is stored as a float when `float()`
      accepts its text and as the text otherwise. */
  method ReadParams(parse: FloatParser, content: string, d: LibInfo, params: seq<string>) returns (info: LibInfo)
    ensures info == PutAll(d, ParamEntries(parse, content, params))
  {
    info := d;
    ghost var es := ParamEntries(parse, content, params);
    var i := 0;
    while i < |params|
      invariant 0 <= i <= |params|
      invariant info == PutAll(d, es[..i])
    {
      var param := params[i];
      var value := AttributeText(content, param);
      PutAllSnoc(d, es, i);
      if value.Some? {
        var x := PyFloat(parse, value.value);
        if x.Some? {
          info := Put(info, param, Number(x.value));
        } else {
          info := Put(info, param, Text(value.value));
        }
      }
      i := i + 1;
    }
    assert es[..|params|] == es;
  }
}
