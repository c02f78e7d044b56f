/** The line rewriter the characterisation script runs over a Liberty text before
    parsing it: an attribute line `key : value` whose value is not quoted gets its
    stripped value put in double quotes; every other line is kept as it is. */
module Preprocess {
  import opened Wrappers
  import opened Strings
  import opened OrderedDicts

  // A line left alone before any other test: blank, or, once stripped, starting with
  // a line comment or a block comment opener.
  predicate Skipped(line: string) {
    var s := Strip(line);
    s == [] || StartsWith(s, "//") || StartsWith(s, "/*")
  }

  /** A line the rewrite looks at: it has a colon and no quote of either kind. */
  predicate Candidate(line: string) {
    ':' in line && '\"' !in line && '\'' !in line
  }

  /** `value.startswith('"') and value.endswith('"')`: a one-character prefix and
      suffix, so a lone `"` counts as quoted. */
  predicate InQuotes(value: string) {
    value != [] && value[0] == '\"' && value[|value| - 1] == '\"'
  }

  /** `key:"value"` */
  function Quoted(key: string, value: string): (r: string)
    ensures |r| == |key| + |value| + 3 && r[..|key|] == key && r[|key|] == ':'
    ensures r[|r| - 1] == '\"'
  {
    key + ":\"" + value + "\""
  }

  /** The rewrite of a candidate line: cut at the first colon, the stripped rest put in
      quotes unless it is empty (or already quoted, which a candidate cannot be). */
  function RewriteAttribute(line: string): string {
    RewriteAtFirst(line, FindChar(line, ':', 0))
  }

  /** The rewrite of a line whose first colon is `colon`. */
  function RewriteAtFirst(line: string, colon: Option<nat>): string
    requires colon.Some? ==> colon.value < |line|
  {
    match colon
    case None => line
    case Some(i) => RewriteAt(line, i, Strip(line[i + 1..]))
  }

  /** The rewrite of a line cut at `i`, with `value` for its stripped rest. */
  function RewriteAt(line: string, i: nat, value: string): string
    requires i <= |line|
  {
    if value != [] && !InQuotes(value) then Quoted(line[..i], value) else line
  }

  /** The body of the loop of `preprocess_liberty_content` for one line. */
  function ProcessLine(line: string): string {
    if Skipped(line) || !Candidate(line) then line else RewriteAttribute(line)
  }

  /** Blank lines, comment lines, lines with a quote and lines without a colon are kept. */
  lemma KeptLines(line: string)
    requires Skipped(line) || '\"' in line || '\'' in line || ':' !in line
    ensures ProcessLine(line) == line
  {
  }

  /** Any other line `key:rest`, cut at its first colon, becomes `key:"value"` with the
      stripped rest as its value, unless that is empty. */
  lemma RewrittenLines(line: string, key: string, rest: string)
    requires !Skipped(line) && '\"' !in line && '\'' !in line
    requires line == key + ":" + rest && ':' !in key
    ensures Strip(rest) == [] ==> ProcessLine(line) == line
    ensures Strip(rest) != [] ==> ProcessLine(line) == Quoted(key, Strip(rest))
  {
    assert ProcessLine(line) == RewriteAttribute(line);
    FirstColon(line, key, rest);
    RewriteOf(line, |key|);
  }

  /** The first colon of `key:rest` is the one after `key`. */
  lemma FirstColon(line: string, key: string, rest: string)
    requires line == key + ":" + rest && ':' !in key
    ensures FindChar(line, ':', 0) == Some(|key|)
    ensures line[..|key|] == key && line[|key| + 1..] == rest
  {
    assert line[|key|] == ':';
    assert forall k :: 0 <= k < |key| ==> line[k] == key[k];
  }

  /** The rewrite at the first colon `i`. */
  lemma RewriteOf(line: string, i: nat)
    requires FindChar(line, ':', 0) == Some(i) && '\"' !in line
    ensures Strip(line[i + 1..]) == [] ==> RewriteAttribute(line) == line
    ensures Strip(line[i + 1..]) != [] ==> RewriteAttribute(line) == Quoted(line[..i], Strip(line[i + 1..]))
  {
    RewriteAtColon(line, i);
    var value := Strip(line[i + 1..]);
    if value != [] {
      CharNotInSlice(line, i + 1, |line|, '\"');
      UnquotedStrip(line[i + 1..], value);
    }
    RewriteAtCases(line, i, value);
  }

  /** The rewrite cuts at the first colon. */
  lemma RewriteAtColon(line: string, i: nat)
    requires FindChar(line, ':', 0) == Some(i)
    ensures RewriteAttribute(line) == RewriteAt(line, i, Strip(line[i + 1..]))
  {
    assert RewriteAttribute(line) == RewriteAtFirst(line, Some(i));
    RewriteAtSome(line, i);
  }

  /** The rewrite at a colon that was found. */
  lemma RewriteAtSome(line: string, i: nat)
    requires i < |line|
    ensures RewriteAtFirst(line, Some(i)) == RewriteAt(line, i, Strip(line[i + 1..]))
  {
  }

  /** The rewrite at `i` keeps the line for an empty value and quotes an unquoted one. */
  lemma RewriteAtCases(line: string, i: nat, value: string)
    requires i <= |line| && (value != [] ==> !InQuotes(value))
    ensures value == [] ==> RewriteAt(line, i, value) == line
    ensures value != [] ==> RewriteAt(line, i, value) == Quoted(line[..i], value)
  {
  }

  /** The stripped text of a text without `"` does not start with one. */
  lemma UnquotedStrip(s: string, value: string)
    requires '\"' !in s && value == Strip(s) && value != []
    ensures !InQuotes(value)
  {
    assert value[0] in value;
  }

  /** A character missing from a text is missing from every slice of it. */
  lemma CharNotInSlice(s: string, a: nat, b: nat, c: char)
    requires a <= b <= |s| && c !in s
    ensures c !in s[a..b]
  {
  }

  /** The rewrite never introduces a line break. */
  lemma NoNewLineBreak(line: string)
    requires '\n' !in line
    ensures '\n' !in ProcessLine(line)
  {
    if !Skipped(line) && Candidate(line) {
      FindCharIn(line, ':');
      var i := FindChar(line, ':', 0).value;
      RewriteOf(line, i);
      var value := Strip(line[i + 1..]);
      if value != [] {
        CharNotInSlice(line, 0, i, '\n');
        CharNotInSlice(line, i + 1, |line|, '\n');
        StripKeeps(line[i + 1..], '\n');
        QuotedFree(line[..i], value, '\n');
      }
    }
  }

  /** A character that occurs is found. */
  lemma FindCharIn(s: string, c: char)
    requires c in s
    ensures FindChar(s, c, 0).Some?
  {
  }

  /** A quoted attribute holds no character that is in neither part and is neither `:`
      nor `"`. */
  lemma QuotedFree(key: string, value: string, c: char)
    requires c !in key && c !in value && c != ':' && c != '\"'
    ensures c !in Quoted(key, value)
  {
    var r := Quoted(key, value);
    assert r == key + ":\"" + value + "\"";
    assert forall x :: x in r ==> x in key || x in ":\"" || x in value || x in "\"";
  }

  /** Stripping adds no character. */
  lemma StripKeeps(s: string, c: char)
    requires c !in s
    ensures c !in Strip(s)
  {
  }

  /** A rewritten line has a quote, so the rewrite leaves it alone the second time. */
  lemma ProcessLineIdempotent(line: string)
    ensures ProcessLine(ProcessLine(line)) == ProcessLine(line)
  {
    var r := ProcessLine(line);
    if r != line {
      assert r[|r| - 1] == '\"';
      KeptLines(r);
    }
  }

  /** The rewrite applied to every line. */
  function ProcessLines(lines: seq<string>): (r: seq<string>)
    ensures |r| == |lines| && forall k :: 0 <= k < |lines| ==> r[k] == ProcessLine(lines[k])
  {
    seq(|lines|, k requires 0 <= k < |lines| => ProcessLine(lines[k]))
  }

  /** `preprocess_liberty_content`: split at line breaks, rewrite each line, join. */
  function Preprocessed(content: string): string {
    Join(ProcessLines(Split(content, '\n')), '\n')
  }

  /** The lines of the result are the rewritten lines of the input, one for one. */
  lemma SameLines(content: string)
    ensures Split(Preprocessed(content), '\n') == ProcessLines(Split(content, '\n'))
    ensures |Split(Preprocessed(content), '\n')| == |Split(content, '\n')|
  {
    var lines := Split(content, '\n');
    var out := ProcessLines(lines);
    forall k | 0 <= k < |out|
      ensures '\n' !in out[k]
    {
      NoNewLineBreak(lines[k]);
    }
    SplitJoin(out, '\n');
  }

  /** Preprocessing a preprocessed text changes nothing. */
  lemma PreprocessedIdempotent(content: string)
    ensures Preprocessed(Preprocessed(content)) == Preprocessed(content)
  {
    var out := ProcessLines(Split(content, '\n'));
    SameLines(content);
    forall k | 0 <= k < |out|
      ensures ProcessLine(out[k]) == out[k]
    {
      ProcessLineIdempotent(Split(content, '\n')[k]);
    }
    assert ProcessLines(out) == out;
  }

  /** The rewrite of a line that has passed the tests of the loop: cut at the first
      colon, the stripped value quoted unless it is empty or already quoted. */
  method RewriteLine(line: string) returns (out: string)
    ensures out == RewriteAttribute(line)
  {
    var colon := FindChar(line, ':', 0);
    if colon.None? {
      out := line;
    } else {
      var i := colon.value;
      var value := Strip(line[i + 1..]);
      RewriteAtColon(line, i);
      if value != [] && !InQuotes(value) {
        RewriteAtCases(line, i, value);
        out := Quoted(line[..i], value);
      } else {
        out := line;
      }
    }
  }

  /** The body of the loop for one line: a skipped line, or one that is not a candidate,
      is appended as it is; a candidate is rewritten. */
  method ProcessOneLine(line: string) returns (out: string)
    ensures out == ProcessLine(line)
  {
    out := line;
    if Skipped(line) {
      return;
    }
    if ':' in line && !('\"' in line || '\'' in line) {
      out := RewriteLine(line);
    }
  }

  /** The loop of `preprocess_liberty_content`, collecting the processed lines. */
  method PreprocessLibertyContent(content: string) returns (r: string)
    ensures r == Preprocessed(content)
  {
    var lines := Split(content, '\n');
    var processedLines: seq<string> := [];
    ghost var all := ProcessLines(lines);
    var i := 0;
    while i < |lines|
      invariant i <= |lines| && processedLines == all[..i]
    {
      var line := ProcessOneLine(lines[i]);
      TakeSnoc(all, i);
      processedLines := processedLines + [line];
      i := i + 1;
    }
    assert all[..|lines|] == all;
    r := Join(processedLines, '\n');
  }
}
