// Comment removal. The two scanners share this code: every line is cut at its first
// `//`, then the block comments (slash-star to star-slash) are deleted, leftmost and
// shortest first. Quotes are not recognised, so a comment opener inside a string literal
// starts a comment too.
module Comments {
  import opened Wrappers
  import opened Strings
  import opened Subsequences

  /** `line[:line.find('//')]` when the line holds `//`, otherwise the line. */
  function CutLineComment(line: string): (r: string)
    ensures |r| <= |line| && r == line[..|r|]
    ensures !Contains(r, "//")
    ensures r == line || HasAt(line, |r|, "//")
  {
    match IndexOf(line, "//")
    case None => line
    case Some(i) => PrefixFree(line, "//", i); line[..i]
  }

  /** Every line cut at its first `//`. */
  function CutLines(lines: seq<string>): (r: seq<string>)
    ensures |r| == |lines|
    ensures forall k :: 0 <= k < |r| ==> r[k] == CutLineComment(lines[k])
  {
    seq(|lines|, k requires 0 <= k < |lines| => CutLineComment(lines[k]))
  }

  /** The line stage: `'\n'.join(...)` of the cut lines. */
  function CutLineComments(content: string): string {
    Join(CutLines(Split(content, '\n')), '\n')
  }

  // `re.sub(r'/\*.*?\*/', '', s, flags=re.DOTALL)`: the leftmost opener together with
  // the first closer that begins after it is deleted, and the scan resumes after that
  // closer. An opener with no closer after it ends the scan.
  function StripBlockComments(s: string): string
    decreases |s|
  {
    match IndexOf(s, "/*")
    case None => s
    case Some(i) =>
      match IndexOfFrom(s, "*/", i + 2)
      case None => s
      case Some(j) => s[..i] + StripBlockComments(s[j + 2..])
  }

  /** The whole of comment removal. */
  function CleanText(content: string): string {
    StripBlockComments(CutLineComments(content))
  }

  /** The comment remover: a loop over the lines, then the block-comment substitution. */
  method RemoveComments(content: string) returns (r: string)
    ensures r == CleanText(content)
  {
    var lines := Split(content, '\n');
    var cleaned: seq<string> := [];
    var i := 0;
    while i < |lines|
      invariant 0 <= i <= |lines|
      invariant |cleaned| == i
      invariant forall k :: 0 <= k < i ==> cleaned[k] == CutLineComment(lines[k])
    {
      var line := lines[i];
      var commentPos := IndexOf(line, "//");
      if commentPos.Some? {
        line := line[..commentPos.value];
      }
      cleaned := cleaned + [line];
      i := i + 1;
    }
    assert cleaned == CutLines(lines);
    r := StripBlockComments(Join(cleaned, '\n'));
  }

  /** The complete scanner's remover: the same text, followed by a size report that
      divides the number of removed characters by the input's length, so an empty input
      raises `ZeroDivisionError`, which is `None` here. */
  method RemoveCommentsReporting(content: string) returns (r: Option<string>)
    ensures r.None? <==> content == []
    ensures r.Some? ==> r.value == CleanText(content)
  {
    var text := RemoveComments(content);
    if |content| == 0 {
      return None;
    }
    r := Some(text);
  }

  /** The line stage keeps the number of lines, and line `k` of its result is line `k`
      of the input cut at its first `//`. */
  lemma LineStageKeepsLines(content: string)
    ensures Split(CutLineComments(content), '\n') == CutLines(Split(content, '\n'))
    ensures |Split(CutLineComments(content), '\n')| == |Split(content, '\n')|
  {
    var lines := Split(content, '\n');
    var cut := CutLines(lines);
    forall k | 0 <= k < |cut|
      ensures '\n' !in cut[k]
    {
      assert cut[k] == lines[k][..|cut[k]|];
      assert forall x :: x in lines[k][..|cut[k]|] ==> x in lines[k];
    }
    SplitJoin(cut, '\n');
  }

  /** The cut happens at the first `//` whatever precedes it: quotes do not protect it. */
  lemma CutIgnoresQuotes(a: string, b: string)
    requires '/' !in a
    ensures CutLineComment(a + "//" + b) == a
  {
    var s := a + "//" + b;
    forall k | 0 <= k < |a|
      ensures !HasAt(s, k, "//")
    {
      HasAtPair(s, k, '/', '/');
      assert s[k] == a[k];
    }
    HasAtPair(s, |a|, '/', '/');
    assert IndexOf(s, "//") == Some(|a|);
    assert s[..|a|] == a;
  }

  // The first opener of k, an opener and r, when k holds none, is the one after k.
  lemma FirstOpener(k: string, r: string)
    requires !Contains(k, "/*")
    ensures IndexOf(k + "/*" + r, "/*") == Some(|k|)
  {
    var s := k + "/*" + r;
    forall m | 0 <= m < |k|
      ensures !HasAt(s, m, "/*")
    {
      if m + 2 <= |k| {
        assert s == k + ("/*" + r);
        HasAtLeft(k, "/*" + r, m, "/*");
        NotContains(k, "/*", m);
      } else {
        HasAtPair(s, m, '/', '*');
      }
    }
    HasAtPair(s, |k|, '/', '*');
  }

  // The first closer from the end of u in u, c, a closer and t, when c holds none, is
  // the one after c.
  lemma FirstCloser(u: string, c: string, t: string)
    requires !Contains(c, "*/")
    ensures IndexOfFrom(u + c + "*/" + t, "*/", |u|) == Some(|u| + |c|)
  {
    var s := u + c + "*/" + t;
    var j := |u| + |c|;
    forall m | |u| <= m < j
      ensures !HasAt(s, m, "*/")
    {
      assert s == u + (c + "*/" + t);
      HasAtRight(u, c + "*/" + t, m - |u|, "*/");
      if m + 2 <= j {
        HasAtLeft(c, "*/" + t, m - |u|, "*/");
        NotContains(c, "*/", m - |u|);
      } else {
        HasAtPair(s, m, '*', '/');
      }
    }
    HasAtPair(s, j, '*', '/');
  }

  // A comment that opens at the first opener is deleted up to the first closer after
  // it, and the rest is scanned afresh.
  lemma BlockCommentDeleted(k: string, c: string, t: string)
    requires !Contains(k, "/*") && !Contains(c, "*/")
    ensures StripBlockComments(k + "/*" + c + "*/" + t) == k + StripBlockComments(t)
  {
    var s := k + "/*" + c + "*/" + t;
    assert s == k + "/*" + (c + "*/" + t);
    FirstOpener(k, c + "*/" + t);
    FirstCloser(k + "/*", c, t);
    var j := |k| + 2 + |c|;
    assert s[..|k|] == k;
    assert s[j + 2..] == t;
  }

  // An opener with no closer after it is left in place, with all the text after it.
  lemma UnterminatedKept(k: string, t: string)
    requires !Contains(k, "/*") && !Contains(t, "*/")
    ensures StripBlockComments(k + "/*" + t) == k + "/*" + t
  {
    var s := k + "/*" + t;
    FirstOpener(k, t);
    forall m | |k| + 2 <= m
      ensures !HasAt(s, m, "*/")
    {
      var u := k + "/*";
      assert s == u + t;
      HasAtRight(u, t, m - |u|, "*/");
      NotContains(t, "*/", m - |u|);
    }
  }

  lemma NoSlashNoPair(s: string, y: char)
    requires '/' !in s
    ensures !Contains(s, ['/', y])
  {
    if Contains(s, ['/', y]) {
      var m := IndexOf(s, ['/', y]).value;
      HasAtPair(s, m, '/', y);
      assert false;
    }
  }

  /** Text without any `/` passes through comment removal unchanged. */
  lemma NoSlashUnchanged(content: string)
    requires '/' !in content
    ensures CleanText(content) == content
  {
    var lines := Split(content, '\n');
    SplitChars(content, '\n');
    forall k | 0 <= k < |lines|
      ensures CutLineComment(lines[k]) == lines[k]
    {
      NoSlashNoPair(lines[k], '/');
    }
    assert CutLines(lines) == lines;
    JoinSplit(content, '\n');
    NoSlashNoPair(content, '*');
  }

  lemma {:induction false} JoinCutSubseq(lines: seq<string>)
    ensures IsSubseq(Join(CutLines(lines), '\n'), Join(lines, '\n'))
    decreases |lines|
  {
    var cut := CutLines(lines);
    if |lines| == 1 {
      Prefix(lines[0], |cut[0]|);
    } else if |lines| > 1 {
      JoinCutSubseq(lines[1..]);
      assert CutLines(lines[1..]) == cut[1..];
      Prefix(lines[0], |cut[0]|);
      Refl("\n");
      Concat(cut[0], lines[0], "\n", "\n");
      Concat(cut[0] + "\n", lines[0] + "\n", Join(cut[1..], '\n'), Join(lines[1..], '\n'));
    } else {
      Refl("");
    }
  }

  /** Deleting a middle part keeps a subsequence. */
  lemma DeleteMiddle(a: string, mid: string, u: string, t: string)
    requires IsSubseq(u, t)
    ensures IsSubseq(a + u, a + mid + t)
  {
    Prepend(u, mid, t);
    Refl(a);
    Concat(a, a, u, mid + t);
    assert a + (mid + t) == a + mid + t;
  }

  /** A text is its prefix, its middle and its suffix. */
  lemma ThreeParts(s: string, a: nat, b: nat)
    requires a <= b <= |s|
    ensures s[..a] + s[a..b] + s[b..] == s
  {
    assert s[..a] + s[a..b] == s[..b];
  }

  lemma {:induction false} StripBlockSubseq(s: string)
    ensures IsSubseq(StripBlockComments(s), s)
    decreases |s|
  {
    var i := IndexOf(s, "/*");
    var j := if i.Some? then IndexOfFrom(s, "*/", i.value + 2) else None;
    if i.None? || j.None? {
      Refl(s);
    } else {
      var t := s[j.value + 2..];
      StripBlockSubseq(t);
      DeleteMiddle(s[..i.value], s[i.value..j.value + 2], StripBlockComments(t), t);
      ThreeParts(s, i.value, j.value + 2);
    }
  }

  /** Comment removal only deletes characters: its result is a subsequence of its input. */
  lemma CleanTextSubseq(content: string)
    ensures IsSubseq(CleanText(content), content)
  {
    JoinCutSubseq(Split(content, '\n'));
    JoinSplit(content, '\n');
    StripBlockSubseq(CutLineComments(content));
    Trans(CleanText(content), CutLineComments(content), content);
  }
}
