/** Character classes and the Python `str` operations that the parsers rely on. */
module Strings {
  import opened Wrappers

  /** Python's `float()` on text, kept abstract: `Some(x)` when it accepts the text. */
  type FloatParser = string -> Option<real>

  /** `float(text)`: Python ignores surrounding whitespace, so the parser only ever sees
      stripped text. */
  function PyFloat(parse: FloatParser, text: string): Option<real> {
    parse(Strip(text))
  }

  /** The whitespace of `str.strip()`, `str.split()` and the regex class `\s`, restricted
      to space and tab to carriage return; the separators 0x1C to 0x1F, which Python also
      counts, are not whitespace here. */
  predicate IsWs(c: char) {
    c == ' ' || '\t' <= c <= '\r'
  }

  /** `s.lstrip()` */
  function LStrip(s: string): (r: string)
    ensures |r| <= |s| && r == s[|s| - |r|..]
    ensures r == [] || !IsWs(r[0])
    ensures forall i :: 0 <= i < |s| - |r| ==> IsWs(s[i])
    decreases |s|
  {
    if s != [] && IsWs(s[0]) then LStrip(s[1..]) else s
  }

  /** `s.rstrip()` */
  function RStrip(s: string): (r: string)
    ensures |r| <= |s| && r == s[..|r|]
    ensures r == [] || !IsWs(r[|r| - 1])
    ensures forall i :: |r| <= i < |s| ==> IsWs(s[i])
    decreases |s|
  {
    if s != [] && IsWs(s[|s| - 1]) then RStrip(s[..|s| - 1]) else s
  }

  /** `s.strip()` */
  function Strip(s: string): (r: string)
    ensures r == [] || (!IsWs(r[0]) && !IsWs(r[|r| - 1]))
    ensures forall x :: x in r ==> x in s
  {
    var l := LStrip(s);
    var r := RStrip(l);
    assert forall x :: x in r ==> x in l;
    r
  }

  /** `s.lstrip(c)` */
  function LStripChar(s: string, c: char): (r: string)
    ensures |r| <= |s| && r == s[|s| - |r|..]
    ensures r == [] || r[0] != c
    decreases |s|
  {
    if s != [] && s[0] == c then LStripChar(s[1..], c) else s
  }

  /** `s.rstrip(c)` */
  function RStripChar(s: string, c: char): (r: string)
    ensures |r| <= |s| && r == s[..|r|]
    ensures r == [] || r[|r| - 1] != c
    decreases |s|
  {
    if s != [] && s[|s| - 1] == c then RStripChar(s[..|s| - 1], c) else s
  }

  /** `s.strip(c)` */
  function StripChar(s: string, c: char): (r: string)
    ensures r == [] || (r[0] != c && r[|r| - 1] != c)
    ensures forall x :: x in r ==> x in s
  {
    var l := LStripChar(s, c);
    var r := RStripChar(l, c);
    assert forall x :: x in r ==> x in l;
    r
  }

  /** `c.lower()` for ASCII letters. */
  function LowerChar(c: char): char {
    if 'A' <= c <= 'Z' then (c as int + 32) as char else c
  }

  /** `s.lower()` */
  function Lower(s: string): (r: string)
    ensures |r| == |s|
    ensures forall i :: 0 <= i < |s| ==> r[i] == LowerChar(s[i])
  {
    if s == [] then [] else [LowerChar(s[0])] + Lower(s[1..])
  }

  /** `p` occurs in `s` at position `i`. */
  predicate HasAt(s: string, i: nat, p: string) {
    i + |p| <= |s| && s[i..i + |p|] == p
  }

  /** `s.find(p, from)`, as an option: the first position at or after `from` where `p` occurs. */
  function IndexOfFrom(s: string, p: string, from: nat): (r: Option<nat>)
    ensures r.Some? ==> from <= r.value && HasAt(s, r.value, p)
    ensures r.Some? ==> forall k :: from <= k < r.value ==> !HasAt(s, k, p)
    ensures r.None? ==> forall k :: from <= k ==> !HasAt(s, k, p)
    decreases |s| - from
  {
    if from + |p| > |s| then None
    else if s[from..from + |p|] == p then Some(from)
    else IndexOfFrom(s, p, from + 1)
  }

  /** `s.find(p)`, as an option. */
  function IndexOf(s: string, p: string): Option<nat> {
    IndexOfFrom(s, p, 0)
  }

  /** Python's `p in s` on strings. */
  predicate Contains(s: string, p: string) {
    IndexOf(s, p).Some?
  }

  lemma ContainsAt(s: string, p: string, k: nat)
    requires HasAt(s, k, p)
    ensures Contains(s, p)
  {
  }

  lemma NotContains(s: string, p: string, k: nat)
    requires !Contains(s, p)
    ensures !HasAt(s, k, p)
  {
  }

  /** A text lacking one of the characters of `p` does not contain `p`. */
  lemma MissingChar(s: string, p: string, c: char)
    requires c in p && c !in s
    ensures !Contains(s, p)
  {
  }

  /** A text containing `p` contains everything `p` contains. */
  lemma ContainsTrans(s: string, p: string, q: string)
    requires Contains(s, p) && Contains(p, q)
    ensures Contains(s, q)
  {
    var i := IndexOf(s, p).value;
    var j := IndexOf(p, q).value;
    assert s[i..i + |p|] == p && p[j..j + |q|] == q;
    forall t | 0 <= t < |q|
      ensures s[i + j + t] == q[t]
    {
      assert p[j + t] == q[t];
      assert s[i + (j + t)] == p[j + t];
    }
    assert s[i + j..i + j + |q|] == q;
    ContainsAt(s, q, i + j);
  }

  /** An occurrence that lies inside the left part of a concatenation is one of that part. */
  lemma HasAtLeft(a: string, b: string, m: nat, p: string)
    requires m + |p| <= |a|
    ensures HasAt(a + b, m, p) <==> HasAt(a, m, p)
  {
    assert (a + b)[m..m + |p|] == a[m..m + |p|];
  }

  /** An occurrence inside the right part of a concatenation is one of that part, shifted. */
  lemma HasAtRight(a: string, b: string, m: nat, p: string)
    ensures HasAt(a + b, |a| + m, p) <==> HasAt(b, m, p)
  {
    if |a| + m + |p| <= |a + b| {
      assert (a + b)[|a| + m..|a| + m + |p|] == b[m..m + |p|];
    }
  }

  /** An occurrence of a two-character text starts with its first character. */
  lemma HasAtPair(s: string, m: nat, x: char, y: char)
    ensures HasAt(s, m, [x, y]) <==> m + 1 < |s| && s[m] == x && s[m + 1] == y
  {
    if m + 1 < |s| && s[m] == x && s[m + 1] == y {
      assert s[m..m + 2] == [x, y];
    }
    if HasAt(s, m, [x, y]) {
      assert s[m..m + 2][0] == s[m] && s[m..m + 2][1] == s[m + 1];
    }
  }

  /** A text whose first `n` positions start no occurrence of `p` has a prefix of length
      `n` free of `p`. */
  lemma PrefixFree(s: string, p: string, n: nat)
    requires n <= |s| && p != []
    requires forall k :: 0 <= k < n ==> !HasAt(s, k, p)
    ensures !Contains(s[..n], p)
  {
    if Contains(s[..n], p) {
      var k := IndexOf(s[..n], p).value;
      assert s[..n] + s[n..] == s;
      HasAtLeft(s[..n], s[n..], k, p);
      assert false;
    }
  }

  /** The first index at or after `from` holding `c`. */
  function FindChar(s: string, c: char, from: nat): (r: Option<nat>)
    ensures r.Some? ==> from <= r.value < |s| && s[r.value] == c
    ensures r.Some? ==> forall k :: from <= k < r.value ==> s[k] != c
    ensures r.None? ==> forall k :: from <= k < |s| ==> s[k] != c
    decreases |s| - from
  {
    if from >= |s| then None
    else if s[from] == c then Some(from)
    else FindChar(s, c, from + 1)
  }

  /** `s.split(c)` */
  function Split(s: string, c: char): (r: seq<string>)
    ensures |r| >= 1
    ensures forall k :: 0 <= k < |r| ==> c !in r[k]
    decreases |s|
  {
    match FindChar(s, c, 0)
    case None => [s]
    case Some(i) =>
      assert forall k :: 0 <= k < i ==> s[..i][k] != c;
      var rest := Split(s[i + 1..], c);
      [s[..i]] + rest
  }

  /** Every character of a piece of a split is a character of the text. */
  lemma {:induction false} SplitChars(s: string, c: char)
    ensures forall k, x :: 0 <= k < |Split(s, c)| && x in Split(s, c)[k] ==> x in s
    decreases |s|
  {
    match FindChar(s, c, 0)
    case None =>
    case Some(i) =>
      SplitChars(s[i + 1..], c);
      assert Split(s, c) == [s[..i]] + Split(s[i + 1..], c);
      assert forall x :: x in s[i + 1..] ==> x in s;
      assert forall x :: x in s[..i] ==> x in s;
  }

  /** `c.join(ls)` for a one-character separator. */
  function Join(ls: seq<string>, c: char): string {
    if |ls| == 0 then []
    else if |ls| == 1 then ls[0]
    else ls[0] + [c] + Join(ls[1..], c)
  }

  /** Joining the pieces of a split gives back the text. */
  lemma {:induction false} JoinSplit(s: string, c: char)
    ensures Join(Split(s, c), c) == s
    decreases |s|
  {
    match FindChar(s, c, 0)
    case None =>
    case Some(i) =>
      JoinSplit(s[i + 1..], c);
      assert s == s[..i] + [c] + s[i + 1..];
  }

  /** Splitting a join of separator-free pieces gives back the pieces. */
  lemma {:induction false} SplitJoin(ls: seq<string>, c: char)
    requires |ls| >= 1
    requires forall k :: 0 <= k < |ls| ==> c !in ls[k]
    ensures Split(Join(ls, c), c) == ls
    decreases |ls|
  {
    if |ls| == 1 {
      assert FindChar(ls[0], c, 0).None?;
    } else {
      var j := Join(ls, c);
      var rest := Join(ls[1..], c);
      assert j == ls[0] + [c] + rest;
      assert j[|ls[0]|] == c;
      assert forall k :: 0 <= k < |ls[0]| ==> j[k] == ls[0][k];
      assert forall k :: 0 <= k < |ls[0]| ==> j[k] != c;
      assert FindChar(j, c, 0) == Some(|ls[0]|);
      assert j[..|ls[0]|] == ls[0];
      assert j[|ls[0]| + 1..] == rest;
      SplitJoin(ls[1..], c);
      assert [ls[0]] + ls[1..] == ls;
    }
  }

  /** The first index at or after `from` holding whitespace, or `|s|`. */
  function WsFrom(s: string, from: nat): (r: nat)
    requires from <= |s|
    ensures from <= r <= |s|
    ensures r == |s| || IsWs(s[r])
    ensures forall k :: from <= k < r ==> !IsWs(s[k])
    decreases |s| - from
  {
    if from == |s| || IsWs(s[from]) then from else WsFrom(s, from + 1)
  }

  /** `s.split()`: the maximal runs of non-whitespace, in order. */
  function SplitWs(s: string): (r: seq<string>)
    ensures forall k :: 0 <= k < |r| ==> r[k] != []
    ensures forall k, m :: 0 <= k < |r| && 0 <= m < |r[k]| ==> !IsWs(r[k][m])
    decreases |s|
  {
    if s == [] then []
    else if IsWs(s[0]) then SplitWs(s[1..])
    else
      var e := WsFrom(s, 0);
      [s[..e]] + SplitWs(s[e..])
  }

  /** `s.replace(a, b)` for single characters. */
  function ReplaceChar(s: string, a: char, b: char): (r: string)
    ensures |r| == |s|
    ensures forall i :: 0 <= i < |s| ==> r[i] == (if s[i] == a then b else s[i])
  {
    if s == [] then [] else [if s[0] == a then b else s[0]] + ReplaceChar(s[1..], a, b)
  }

  /** `s.startswith(p)` */
  predicate StartsWith(s: string, p: string) {
    |p| <= |s| && s[..|p|] == p
  }

  /** `s.endswith(p)` */
  predicate EndsWith(s: string, p: string) {
    |p| <= |s| && s[|s| - |p|..] == p
  }

  /** The number of occurrences of `c` in `s`. */
  function Count(s: string, c: char): nat
    decreases |s|
  {
    if s == [] then 0
    else Count(s[..|s| - 1], c) + (if s[|s| - 1] == c then 1 else 0)
  }
}
