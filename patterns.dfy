/** The fixed regular expressions of the Liberty scanners, written out as matchers.
    Each pattern has exactly one way to match at a given position (the greedy
    quantifiers only ever give back characters that could not fill the rest), so
    `MatchAt` is a function; `Search` is `re.search` and `FindAll` is `re.finditer`. */
module Patterns {
  import opened Wrappers
  import opened Strings

  datatype Pattern =
    | Call(keyword: string)        // keyword\s*\(\s*([^)]+)\s*\)
    | Header(keyword: string)      // keyword\s*\(\s*([^)]+)\s*\)\s*{
    | EmptyCall(keyword: string)   // keyword\s*\(\s*\)
    | Attribute(key: string)       // key\s*:\s*([^;]+);
    | QuotedAttribute(key: string) // key\s*:\s*"([^"]+)"
    | VoltageMap                   // voltage_map\s*\(\s*([^,]+),\s*([^)]+)\)
    | OperatingConditions          // operating_conditions\s*\(\s*([^)]+)\s*\)\s*{([^}]+)}

  /** A match: the span `start..end` of the text and the captured groups. */
  datatype Match = Match(start: nat, end: nat, groups: seq<string>)

  function GroupCount(p: Pattern): nat {
    match p
    case EmptyCall(_) => 0
    case VoltageMap => 2
    case OperatingConditions => 2
    case _ => 1
  }

  /** The first position at or after `i` that does not hold whitespace (`\s*`). */
  function SkipWs(s: string, i: nat): (r: nat)
    requires i <= |s|
    ensures i <= r <= |s|
    ensures r == |s| || !IsWs(s[r])
    ensures forall k :: i <= k < r ==> IsWs(s[k])
    decreases |s| - i
  {
    if i < |s| && IsWs(s[i]) then SkipWs(s, i + 1) else i
  }

  /** What `\s*([^c]+)` captures from the text `b` that runs up to the first `c`: the
      greedy `\s*` takes the leading whitespace, and gives back one character when `b`
      is nothing but whitespace. */
  function Group(b: string): (r: string)
    requires b != []
    ensures r != []
  {
    if LStrip(b) != [] then LStrip(b) else b[|b| - 1..]
  }

  /** Once stripped, the captured group is the stripped text it was taken from. */
  lemma StripGroup(b: string)
    requires b != []
    ensures Strip(Group(b)) == Strip(b)
  {
    var l := LStrip(b);
    if l != [] {
      assert LStrip(l) == l;
    } else {
      var c := b[|b| - 1];
      assert IsWs(c);
      assert LStrip([c]) == LStrip([c][1..]);
    }
  }

  /** `\s*([^c]+)c` starting at `b`: the group and the position after the `c`. */
  function GroupUntil(s: string, b: nat, c: char): (r: Option<(string, nat)>)
    requires b <= |s|
    ensures r.Some? ==> b < r.value.1 <= |s| && s[r.value.1 - 1] == c && r.value.0 != []
  {
    var j := FindChar(s, c, b);
    if j.None? || j.value == b then None
    else Some((Group(s[b..j.value]), j.value + 1))
  }

  /** The keyword at `i`, optional whitespace and the literal `c`: the position after `c`. */
  function KeywordThen(s: string, i: nat, keyword: string, c: char): (r: Option<nat>)
    ensures r.Some? ==> i + |keyword| < r.value <= |s| && s[r.value - 1] == c
  {
    if !HasAt(s, i, keyword) then None
    else
      var a := SkipWs(s, i + |keyword|);
      if a < |s| && s[a] == c then Some(a + 1) else None
  }

  /** `keyword\s*\(\s*([^)]+)\s*\)` at `i`. */
  function MatchCall(s: string, i: nat, kw: string): (r: Option<Match>)
    ensures r.Some? ==> r.value.start == i < r.value.end <= |s| && |r.value.groups| == 1
  {
    var b := KeywordThen(s, i, kw, '(');
    if b.None? then None
    else
      var g := GroupUntil(s, b.value, ')');
      if g.None? then None else Some(Match(i, g.value.1, [g.value.0]))
  }

  /** `keyword\s*\(\s*([^)]+)\s*\)\s*{` at `i`. */
  function MatchHeader(s: string, i: nat, kw: string): (r: Option<Match>)
    ensures r.Some? ==> r.value.start == i < r.value.end <= |s| && |r.value.groups| == 1
    ensures r.Some? ==> s[r.value.end - 1] == '{'
  {
    var c := MatchCall(s, i, kw);
    if c.None? then None
    else
      var e := SkipWs(s, c.value.end);
      if e < |s| && s[e] == '{' then Some(Match(i, e + 1, c.value.groups)) else None
  }

  /** `keyword\s*\(\s*\)` at `i`. */
  function MatchEmptyCall(s: string, i: nat, kw: string): (r: Option<Match>)
    ensures r.Some? ==> r.value.start == i < r.value.end <= |s| && r.value.groups == []
  {
    var b := KeywordThen(s, i, kw, '(');
    if b.None? then None
    else
      var e := SkipWs(s, b.value);
      if e < |s| && s[e] == ')' then Some(Match(i, e + 1, [])) else None
  }

  /** `key\s*:\s*([^;]+);` at `i`. */
  function MatchAttribute(s: string, i: nat, key: string): (r: Option<Match>)
    ensures r.Some? ==> r.value.start == i < r.value.end <= |s| && |r.value.groups| == 1
  {
    var b := KeywordThen(s, i, key, ':');
    if b.None? then None
    else
      var g := GroupUntil(s, b.value, ';');
      if g.None? then None else Some(Match(i, g.value.1, [g.value.0]))
  }

  /** `key\s*:\s*"([^"]+)"` at `i`. */
  function MatchQuoted(s: string, i: nat, key: string): (r: Option<Match>)
    ensures r.Some? ==> r.value.start == i < r.value.end <= |s| && |r.value.groups| == 1
  {
    var b := KeywordThen(s, i, key, ':');
    if b.None? then None
    else
      var q := SkipWs(s, b.value);
      if q < |s| && s[q] == '"' then
        var j := FindChar(s, '"', q + 1);
        if j.None? || j.value == q + 1 then None
        else Some(Match(i, j.value + 1, [s[q + 1..j.value]]))
      else None
  }

  /** `voltage_map\s*\(\s*([^,]+),\s*([^)]+)\)` at `i`. */
  function MatchVoltageMap(s: string, i: nat): (r: Option<Match>)
    ensures r.Some? ==> r.value.start == i < r.value.end <= |s| && |r.value.groups| == 2
  {
    var b := KeywordThen(s, i, "voltage_map", '(');
    if b.None? then None
    else
      var g1 := GroupUntil(s, b.value, ',');
      if g1.None? then None
      else
        var g2 := GroupUntil(s, g1.value.1, ')');
        if g2.None? then None else Some(Match(i, g2.value.1, [g1.value.0, g2.value.0]))
  }

  /** `operating_conditions\s*\(\s*([^)]+)\s*\)\s*{([^}]+)}` at `i`. */
  function MatchOperatingConditions(s: string, i: nat): (r: Option<Match>)
    ensures r.Some? ==> r.value.start == i < r.value.end <= |s| && |r.value.groups| == 2
  {
    var h := MatchHeader(s, i, "operating_conditions");
    if h.None? then None
    else
      var e := h.value.end;
      var j := FindChar(s, '}', e);
      if j.None? || j.value == e then None
      else Some(Match(i, j.value + 1, h.value.groups + [s[e..j.value]]))
  }

  /** The match of `p` that starts exactly at `i`, if any. */
  function MatchAt(p: Pattern, s: string, i: nat): (r: Option<Match>)
    ensures r.Some? ==> r.value.start == i < r.value.end <= |s|
  {
    match p
    case Call(kw) => MatchCall(s, i, kw)
    case Header(kw) => MatchHeader(s, i, kw)
    case EmptyCall(kw) => MatchEmptyCall(s, i, kw)
    case Attribute(key) => MatchAttribute(s, i, key)
    case QuotedAttribute(key) => MatchQuoted(s, i, key)
    case VoltageMap => MatchVoltageMap(s, i)
    case OperatingConditions => MatchOperatingConditions(s, i)
  }

  /** A match of `p` captures as many groups as the pattern has. */
  lemma MatchGroupCount(p: Pattern, s: string, i: nat)
    ensures MatchAt(p, s, i).Some? ==> |MatchAt(p, s, i).value.groups| == GroupCount(p)
  {
    match p
    case Call(kw) =>
    case Header(kw) =>
    case EmptyCall(kw) =>
    case Attribute(key) =>
    case QuotedAttribute(key) =>
    case VoltageMap =>
    case OperatingConditions =>
  }

  /** `m` is the match of `p` at its own start position. */
  predicate IsMatch(p: Pattern, s: string, m: Match) {
    MatchAt(p, s, m.start) == Some(m)
  }

  /** The matcher of `p` on `s`, as a function of the start position. The searches
      below are written once for any such function. */
  function MatcherOf(p: Pattern, s: string): nat -> Option<Match> {
    (k: nat) => MatchAt(p, s, k)
  }

  /** Every match that `m` reports starts where it was asked for and ends after that,
      no later than `bound`. */
  ghost predicate Proper(m: nat -> Option<Match>, bound: nat) {
    forall k: nat :: m(k).Some? ==> m(k).value.start == k < m(k).value.end <= bound
  }

  lemma MatcherProper(p: Pattern, s: string)
    ensures Proper(MatcherOf(p, s), |s|)
  {
    forall k: nat | MatcherOf(p, s)(k).Some?
      ensures MatcherOf(p, s)(k).value.start == k < MatcherOf(p, s)(k).value.end <= |s|
    {
      assert MatcherOf(p, s)(k) == MatchAt(p, s, k);
    }
  }

  /** The least position in `from..bound` at which `m` reports a match. */
  function FirstFrom(m: nat -> Option<Match>, from: nat, bound: nat): (r: Option<nat>)
    ensures r.Some? ==> from <= r.value <= bound && m(r.value).Some?
    decreases bound + 1 - from
  {
    if from > bound then None
    else if m(from).Some? then Some(from)
    else FirstFrom(m, from + 1, bound)
  }

  /** No match starts before the position found, and none at all when none is found. */
  lemma {:induction false} FirstFromLeast(m: nat -> Option<Match>, from: nat, bound: nat)
    ensures var r := FirstFrom(m, from, bound);
      r.Some? ==> forall k :: from <= k < r.value ==> m(k).None?
    ensures FirstFrom(m, from, bound).None? ==> forall k :: from <= k <= bound ==> m(k).None?
    decreases bound + 1 - from
  {
    if from <= bound && m(from).None? {
      FirstFromLeast(m, from + 1, bound);
    }
  }

  /** A match at `j` with none before it from `from` on is the one found. */
  lemma {:induction false} FirstFromAt(m: nat -> Option<Match>, from: nat, bound: nat, j: nat)
    requires from <= j <= bound && m(j).Some?
    requires forall k :: from <= k < j ==> m(k).None?
    ensures FirstFrom(m, from, bound) == Some(j)
    decreases j - from
  {
    if from < j {
      assert m(from).None?;
      FirstFromAt(m, from + 1, bound, j);
    }
  }

  /** `re.search` from position `from`: the leftmost match starting there or later. */
  function SearchFrom(p: Pattern, s: string, from: nat): (r: Option<Match>)
    ensures r.Some? ==> from <= r.value.start < r.value.end <= |s|
    ensures r.Some? ==> MatchAt(p, s, r.value.start) == r
    ensures r.Some? ==> |r.value.groups| == GroupCount(p)
  {
    match FirstFrom(MatcherOf(p, s), from, |s|)
    case None => None
    case Some(k) => MatchGroupCount(p, s, k); MatchAt(p, s, k)
  }

  /** The match `re.search` returns is the leftmost one: no match starts between `from`
      and it, and when it finds none there is no match at or after `from`. */
  lemma SearchFirst(p: Pattern, s: string, from: nat)
    ensures SearchFrom(p, s, from).Some? ==>
      forall k :: from <= k < SearchFrom(p, s, from).value.start ==> MatchAt(p, s, k).None?
    ensures SearchFrom(p, s, from).None? ==> forall k :: from <= k ==> MatchAt(p, s, k).None?
  {
    var f := MatcherOf(p, s);
    FirstFromLeast(f, from, |s|);
    var r := FirstFrom(f, from, |s|);
    forall k | from <= k && (r.None? || k < r.value)
      ensures MatchAt(p, s, k).None?
    {
      if k <= |s| {
        assert f(k).None?;
      }
    }
  }

  /** `re.search` finds the match at `j` when none starts between `from` and `j`. */
  lemma SearchFinds(p: Pattern, s: string, from: nat, j: nat)
    requires from <= j && MatchAt(p, s, j).Some?
    requires forall k :: from <= k < j ==> MatchAt(p, s, k).None?
    ensures SearchFrom(p, s, from) == MatchAt(p, s, j)
  {
    var f := MatcherOf(p, s);
    forall k | from <= k < j
      ensures f(k).None?
    {
      assert MatchAt(p, s, k).None?;
    }
    FirstFromAt(f, from, |s|, j);
  }

  /** The successive leftmost matches of `m` from `from` on, each search resuming where
      the previous match ended. */
  function ScanFrom(m: nat -> Option<Match>, bound: nat, from: nat): seq<Match>
    requires Proper(m, bound)
    decreases bound + 1 - from
  {
    match FirstFrom(m, from, bound)
    case None => []
    case Some(k) => [m(k).value] + ScanFrom(m, bound, m(k).value.end)
  }

  /** Every element of a scan is a match of `m` at its own start, and the matches come in
      text order without overlapping. */
  lemma {:induction false} ScanMatches(m: nat -> Option<Match>, bound: nat, from: nat)
    requires Proper(m, bound)
    ensures forall k :: 0 <= k < |ScanFrom(m, bound, from)| ==>
      from <= ScanFrom(m, bound, from)[k].start < ScanFrom(m, bound, from)[k].end &&
      m(ScanFrom(m, bound, from)[k].start) == Some(ScanFrom(m, bound, from)[k])
    ensures forall j, k :: 0 <= j < k < |ScanFrom(m, bound, from)| ==>
      ScanFrom(m, bound, from)[j].end <= ScanFrom(m, bound, from)[k].start
    decreases bound + 1 - from
  {
    var f := FirstFrom(m, from, bound);
    if f.Some? {
      var x := m(f.value).value;
      assert x.start == f.value < x.end;
      var rest := ScanFrom(m, bound, x.end);
      ScanMatches(m, bound, x.end);
      var r := ScanFrom(m, bound, from);
      assert r == [x] + rest;
      forall k | 0 <= k < |r|
        ensures from <= r[k].start < r[k].end && m(r[k].start) == Some(r[k])
      {
        if k > 0 {
          assert r[k] == rest[k - 1];
        }
      }
      forall j, k | 0 <= j < k < |r|
        ensures r[j].end <= r[k].start
      {
        assert r[k] == rest[k - 1];
        if j > 0 {
          assert r[j] == rest[j - 1];
        }
      }
    }
  }

  /** `re.search(p, s)` */
  function Search(p: Pattern, s: string): Option<Match> {
    SearchFrom(p, s, 0)
  }

  /** `re.finditer` from position `from`. */
  function FindAllFrom(p: Pattern, s: string, from: nat): seq<Match> {
    MatcherProper(p, s);
    ScanFrom(MatcherOf(p, s), |s|, from)
  }

  /** Every element `re.finditer` yields is a match of the pattern at or after `from`, and
      the matches come in text order without overlapping. */
  lemma FindAllMatches(p: Pattern, s: string, from: nat)
    ensures forall k :: 0 <= k < |FindAllFrom(p, s, from)| ==>
      from <= FindAllFrom(p, s, from)[k].start && IsMatch(p, s, FindAllFrom(p, s, from)[k])
    ensures forall j, k :: 0 <= j < k < |FindAllFrom(p, s, from)| ==>
      FindAllFrom(p, s, from)[j].end <= FindAllFrom(p, s, from)[k].start
  {
    var f := MatcherOf(p, s);
    MatcherProper(p, s);
    ScanMatches(f, |s|, from);
    var r := FindAllFrom(p, s, from);
    forall k | 0 <= k < |r|
      ensures IsMatch(p, s, r[k])
    {
      assert f(r[k].start) == Some(r[k]);
    }
  }

  /** `re.finditer(p, s)`, or the list `re.findall` counts. */
  function FindAll(p: Pattern, s: string): seq<Match> {
    FindAllFrom(p, s, 0)
  }

  /** The name in a `pin` or `cell` header: the group stripped of whitespace, then of quotes. */
  function HeaderName(m: Match): string
    requires |m.groups| == 1
  {
    StripChar(Strip(m.groups[0]), '"')
  }

  /** `re.search(fr'{key}\s*:\s*([^;]+);', s)`, then `.group(1).strip().strip('"')`. */
  function AttributeText(s: string, key: string): (r: Option<string>)
    ensures r.Some? <==> Search(Attribute(key), s).Some?
  {
    match Search(Attribute(key), s)
    case None => None
    case Some(m) => Some(StripChar(Strip(m.groups[0]), '"'))
  }
}
