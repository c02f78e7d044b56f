/** Brace matching: from just after an opening `{`, find the `}` that closes it by
    counting every `{` and `}` (quotes are not recognised). */
module Braces {
  import opened Wrappers
  import opened Strings

  /** The brace depth after scanning `s[start..q]` from depth 1. */
  function Depth(s: string, start: nat, q: nat): int
    requires start <= q <= |s|
  {
    1 + Count(s[start..q], '{') - Count(s[start..q], '}')
  }

  lemma DepthStep(s: string, start: nat, q: nat)
    requires start <= q < |s|
    ensures Depth(s, start, q + 1) ==
      Depth(s, start, q) + (if s[q] == '{' then 1 else if s[q] == '}' then -1 else 0)
  {
    assert s[start..q + 1][..q - start] == s[start..q];
  }

  /** The first position at or after `q` where the depth is 0. */
  function CloseFrom(s: string, start: nat, q: nat): (r: Option<nat>)
    requires start <= q <= |s|
    ensures r.Some? ==> q <= r.value <= |s| && Depth(s, start, r.value) == 0
    ensures r.Some? ==> forall k :: q <= k < r.value ==> Depth(s, start, k) != 0
    ensures r.None? ==> forall k :: q <= k <= |s| ==> Depth(s, start, k) != 0
    decreases |s| - q
  {
    if Depth(s, start, q) == 0 then Some(q)
    else if q == |s| then None
    else CloseFrom(s, start, q + 1)
  }

  /** The text between `start` and the brace that brings the depth back to 0. */
  function MatchingBody(s: string, start: nat): Option<string> {
    if start > |s| then None
    else
      match CloseFrom(s, start, start)
      case None => None
      case Some(p) => Some(s[start..p - 1])
  }

  /** A depth that starts at 1, moves by at most one per character and never hits 0
      stays positive. */
  lemma {:induction false} DepthPositive(s: string, start: nat, q: nat)
    requires start <= q <= |s|
    requires forall k :: start <= k <= q ==> Depth(s, start, k) != 0
    ensures Depth(s, start, q) > 0
    decreases q - start
  {
    if q > start {
      DepthPositive(s, start, q - 1);
      DepthStep(s, start, q - 1);
    }
  }

  /** There is no body exactly when the depth stays positive up to the end of the text. */
  lemma NoBodyIff(s: string, start: nat)
    requires start <= |s|
    ensures MatchingBody(s, start).None? <==> forall k :: start <= k <= |s| ==> Depth(s, start, k) > 0
  {
    if MatchingBody(s, start).None? {
      forall k | start <= k <= |s|
        ensures Depth(s, start, k) > 0
      {
        DepthPositive(s, start, k);
      }
    }
  }

  /** A body is followed by its closing `}`, holds as many `{` as `}`, and none of its
      prefixes closes more braces than it opens. */
  lemma BodyBalanced(s: string, start: nat)
    requires MatchingBody(s, start).Some?
    ensures var b := MatchingBody(s, start).value;
      start + |b| < |s| && s[start + |b|] == '}' &&
      Count(b, '{') == Count(b, '}') &&
      forall k :: 0 <= k <= |b| ==> Count(b[..k], '}') <= Count(b[..k], '{')
  {
    var p := CloseFrom(s, start, start).value;
    var b := s[start..p - 1];
    assert p > start;
    DepthPositive(s, start, p - 1);
    DepthStep(s, start, p - 1);
    forall k | 0 <= k <= |b|
      ensures Count(b[..k], '}') <= Count(b[..k], '{')
    {
      DepthPositive(s, start, start + k);
      assert b[..k] == s[start..start + k];
    }
  }

  /** The body scan: the depth starts at 1 and the loop stops at the end of the text or
      when the depth reaches 0. */
  method ExtractBody(s: string, start: nat) returns (r: Option<string>)
    ensures r == MatchingBody(s, start)
  {
    var braceCount := 1;
    var pos := start;
    if pos > |s| {
      return None;
    }
    while pos < |s| && braceCount > 0
      invariant start <= pos <= |s|
      invariant braceCount == Depth(s, start, pos) && braceCount >= 0
      invariant forall k :: start <= k < pos ==> Depth(s, start, k) > 0
      decreases |s| - pos
    {
      if s[pos] == '{' {
        braceCount := braceCount + 1;
      } else if s[pos] == '}' {
        braceCount := braceCount - 1;
      }
      DepthStep(s, start, pos);
      pos := pos + 1;
    }
    if braceCount == 0 {
      assert CloseFrom(s, start, start) == Some(pos);
      r := Some(s[start..pos - 1]);
    } else {
      r := None;
    }
  }
}
