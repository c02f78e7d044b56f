/** The optimized scanner's attribute lookup: `key : value ;` searched only in the
    1000 characters that follow a position. A match inside the window is a match of
    the whole text, and the first match of the whole text after the position is found
    whenever it ends inside the window, whether or not it lies in the same group. */
module AttributeWindows {
  import opened Wrappers
  import opened Strings
  import opened Patterns

  const WindowSize: nat := 1000

  /** The end of the window that starts at `start`. */
  function WindowEnd(s: string, start: nat): (e: nat)
    ensures e <= |s| && (start <= |s| ==> start <= e)
    ensures e == |s| || e == start + WindowSize
  {
    if start + WindowSize <= |s| then start + WindowSize else |s|
  }

  /** `content[start_pos:start_pos+1000]` */
  function Window(s: string, start: nat): (w: string)
    ensures |w| <= WindowSize
  {
    if start <= |s| then s[start..WindowEnd(s, start)] else []
  }

  /** `_extract_simple_attribute`: the first `attr : value ;` of the window, stripped of
      whitespace and then of quotes. */
  function SimpleAttribute(s: string, attr: string, start: nat): (r: Option<string>)
    ensures r.Some? <==> Search(Attribute(attr), Window(s, start)).Some?
    ensures |s| <= start ==> r.None?
    ensures start <= |s| <= start + WindowSize ==> r == AttributeText(s[start..], attr)
  {
    var w := Window(s, start);
    assert start <= |s| <= start + WindowSize ==> w == s[start..];
    assert |s| <= start ==> w == [];
    AttributeText(w, attr)
  }

  /** In the lemmas below the window is `t == s[a..e]`, the part of the text `s` from `a`
      to `e`, and a position `i` of the window stands for the position `q == i + a` of the
      text. Each lemma relates one step of a matcher on the window to the same step on
      the text at the corresponding position. */

  /** A slice of the window is a slice of the text. */
  lemma SliceOfSlice(s: string, t: string, a: nat, e: nat, q: nat, i: nat, r: nat, j: nat)
    requires a <= q <= r <= e <= |s| && t == s[a..e]
    requires q <= i + a <= q && r <= j + a <= r
    ensures i <= j <= |t| && t[i..j] == s[q..r]
  {
    assert forall k :: 0 <= k < j - i ==> t[i..j][k] == s[q..r][k];
  }

  /** `\s*` in the window stops where it stops in the text, or at the window's end. */
  lemma SkipWsSlice(s: string, t: string, a: nat, e: nat, q: nat, i: nat)
    requires a <= q <= e <= |s| && t == s[a..e] && q <= i + a <= q
    ensures SkipWs(t, i) + a == if SkipWs(s, q) < e then SkipWs(s, q) else e
  {
    var w := SkipWs(t, i);
    forall k | q <= k < a + w
      ensures IsWs(s[k])
    {
      assert s[k] == t[k - a];
    }
    assert w < |t| ==> !IsWs(s[a + w]);
  }

  /** The first `c` of the window is the first `c` of the text, when it lies in the
      window. */
  lemma FindCharSlice(s: string, t: string, a: nat, e: nat, c: char, q: nat, i: nat)
    requires a <= q <= e <= |s| && t == s[a..e] && q <= i + a <= q
    ensures FindChar(t, c, i).Some? <==> FindChar(s, c, q).Some? && FindChar(s, c, q).value < e
    ensures FindChar(t, c, i).Some? ==> FindChar(t, c, i).value + a == FindChar(s, c, q).value
  {
    var w := FindChar(t, c, i);
    var r := FindChar(s, c, q);
    assert w.Some? ==> s[a + w.value] == c;
    assert (r.Some? && r.value < e) ==> t[r.value - a] == c;
  }

  /** A keyword occurs in the window exactly where it occurs in the text without running
      past the window's end. */
  lemma HasAtSlice(s: string, t: string, a: nat, e: nat, q: nat, i: nat, kw: string)
    requires a <= q <= e <= |s| && t == s[a..e] && q <= i + a <= q
    ensures HasAt(t, i, kw) <==> q + |kw| <= e && HasAt(s, q, kw)
  {
    if q + |kw| <= e {
      SliceOfSlice(s, t, a, e, q, i, q + |kw|, i + |kw|);
    }
  }

  /** `key\s*:` in the window, whose position `i` is the text's `q`. */
  lemma KeywordThenSlice(s: string, t: string, a: nat, e: nat, q: nat, i: nat, kw: string, c: char)
    requires a <= q <= e <= |s| && t == s[a..e] && q <= i + a <= q
    ensures KeywordThen(t, i, kw, c).Some? <==>
      KeywordThen(s, q, kw, c).Some? && KeywordThen(s, q, kw, c).value <= e
    ensures KeywordThen(t, i, kw, c).Some? ==>
      KeywordThen(t, i, kw, c).value + a == KeywordThen(s, q, kw, c).value
  {
    HasAtSlice(s, t, a, e, q, i, kw);
    if HasAt(t, i, kw) {
      var k := q + |kw|;
      var l := i + |kw|;
      SkipWsSlice(s, t, a, e, k, l);
      var w := SkipWs(t, l);
      if w < |t| {
        assert t[w] == s[a + w];
      }
    }
  }

  /** `\s*([^c]+)c` in the window, whose position `j` is the text's `b`. */
  lemma GroupUntilSlice(s: string, t: string, a: nat, e: nat, b: nat, j: nat, c: char)
    requires a <= b <= e <= |s| && t == s[a..e] && b <= j + a <= b
    ensures GroupUntil(t, j, c).Some? <==>
      GroupUntil(s, b, c).Some? && GroupUntil(s, b, c).value.1 <= e
    ensures GroupUntil(t, j, c).Some? ==>
      GroupUntil(t, j, c).value.0 == GroupUntil(s, b, c).value.0 &&
      GroupUntil(t, j, c).value.1 + a == GroupUntil(s, b, c).value.1
  {
    FindCharSlice(s, t, a, e, c, b, j);
    var js := FindChar(s, c, b);
    var jt := FindChar(t, c, j);
    if jt.Some? && j < jt.value {
      SliceOfSlice(s, t, a, e, b, j, js.value, jt.value);
      GroupAt(t, j, c, jt.value, s[b..js.value]);
      GroupAt(s, b, c, js.value, s[b..js.value]);
    } else if js.Some? && b < js.value {
      GroupAt(s, b, c, js.value, s[b..js.value]);
    }
  }

  /** The group that ends at the first `c`, given as `u`. */
  lemma GroupAt(s: string, b: nat, c: char, j: nat, u: string)
    requires b < j < |s| && FindChar(s, c, b) == Some(j) && u == s[b..j]
    ensures GroupUntil(s, b, c) == Some((Group(u), j + 1))
  {
  }

  /** An attribute match in the window at `i` is the text's match at `q`, provided the
      latter ends inside the window; it captures the same group. */
  lemma MatchAttributeSlice(s: string, t: string, a: nat, e: nat, q: nat, i: nat, key: string)
    requires a <= q <= e <= |s| && t == s[a..e] && q <= i + a <= q
    ensures MatchAttribute(t, i, key).Some? <==>
      MatchAttribute(s, q, key).Some? && MatchAttribute(s, q, key).value.end <= e
    ensures MatchAttribute(t, i, key).Some? ==>
      MatchAttribute(t, i, key).value.end + a == MatchAttribute(s, q, key).value.end &&
      MatchAttribute(t, i, key).value.groups == MatchAttribute(s, q, key).value.groups
  {
    KeywordThenSlice(s, t, a, e, q, i, key, ':');
    var bs := KeywordThen(s, q, key, ':');
    var js := KeywordThen(t, i, key, ':');
    if js.None? {
      NoKeywordIn(s, t, e, q, i, key);
    } else {
      var b := bs.value;
      var j := js.value;
      GroupUntilSlice(s, t, a, e, b, j, ';');
      var gs := GroupUntil(s, b, ';');
      var gt := GroupUntil(t, j, ';');
      if gt.Some? {
        KeywordIn(s, t, q, i, key, b, j, gt.value.0, gs.value.1, gt.value.1);
      } else {
        KeywordNoGroupIn(s, t, e, q, i, key, b, j);
      }
    }
  }

  lemma NoKeywordIn(s: string, t: string, e: nat, q: nat, i: nat, key: string)
    requires KeywordThen(t, i, key, ':').None?
    requires KeywordThen(s, q, key, ':').None? || KeywordThen(s, q, key, ':').value > e
    ensures MatchAttribute(t, i, key).None?
    ensures MatchAttribute(s, q, key).None? || MatchAttribute(s, q, key).value.end > e
  {
  }

  lemma KeywordNoGroupIn(s: string, t: string, e: nat, q: nat, i: nat, key: string, b: nat, j: nat)
    requires KeywordThen(s, q, key, ':') == Some(b)
    requires KeywordThen(t, i, key, ':') == Some(j)
    requires GroupUntil(s, b, ';').None? || GroupUntil(s, b, ';').value.1 > e
    requires GroupUntil(t, j, ';').None?
    ensures MatchAttribute(t, i, key).None?
    ensures MatchAttribute(s, q, key).None? || MatchAttribute(s, q, key).value.end > e
  {
  }

  lemma KeywordIn(s: string, t: string, q: nat, i: nat, key: string, b: nat, j: nat,
      g: string, f: nat, h: nat)
    requires KeywordThen(s, q, key, ':') == Some(b)
    requires KeywordThen(t, i, key, ':') == Some(j)
    requires GroupUntil(s, b, ';') == Some((g, f))
    requires GroupUntil(t, j, ';') == Some((g, h))
    ensures MatchAttribute(s, q, key) == Some(Match(q, f, [g]))
    ensures MatchAttribute(t, i, key) == Some(Match(i, h, [g]))
  {
  }

  /** The first attribute after `start` is found when it ends inside the window, even if
      it belongs to a later group than the one whose header ends at `start`. */
  lemma SimpleAttributeFirst(s: string, attr: string, start: nat)
    requires start <= |s|
    ensures (SearchFrom(Attribute(attr), s, start).Some? &&
      SearchFrom(Attribute(attr), s, start).value.end <= WindowEnd(s, start)) ==>
      SimpleAttribute(s, attr, start) ==
        Some(StripChar(Strip(SearchFrom(Attribute(attr), s, start).value.groups[0]), '"'))
  {
    var e := WindowEnd(s, start);
    var t := s[start..e];
    var m := SearchFrom(Attribute(attr), s, start);
    if m.Some? && m.value.end <= e {
      SearchFirst(Attribute(attr), s, start);
      var q := m.value.start;
      var i :| q <= i + start <= q;
      MatchAttributeSlice(s, t, start, e, q, i, attr);
      forall k | 0 <= k < i
        ensures MatchAt(Attribute(attr), t, k).None?
      {
        var p :| p <= k + start <= p;
        MatchAttributeSlice(s, t, start, e, p, k, attr);
        assert MatchAt(Attribute(attr), s, p).None?;
      }
      SearchFinds(Attribute(attr), t, 0, i);
    }
  }

  /** Whatever the window yields is an attribute of the text that starts after `start` and
      ends inside the window; when the text has no attribute after `start`, nor does the
      window. */
  lemma SimpleAttributeSound(s: string, attr: string, start: nat)
    requires start <= |s|
    ensures SimpleAttribute(s, attr, start).Some? ==> exists k :: (start <= k && MatchAt(Attribute(attr), s, k).Some? &&
      MatchAt(Attribute(attr), s, k).value.end <= WindowEnd(s, start) &&
      SimpleAttribute(s, attr, start).value == StripChar(Strip(MatchAt(Attribute(attr), s, k).value.groups[0]), '"'))
    ensures SearchFrom(Attribute(attr), s, start).None? ==> SimpleAttribute(s, attr, start).None?
  {
    var e := WindowEnd(s, start);
    var t := s[start..e];
    var w := Search(Attribute(attr), t);
    SearchFirst(Attribute(attr), s, start);
    if w.Some? {
      var i := w.value.start;
      var q :| q <= i + start <= q;
      MatchAttributeSlice(s, t, start, e, q, i, attr);
      assert MatchAt(Attribute(attr), s, q).Some?;
    }
  }
}
