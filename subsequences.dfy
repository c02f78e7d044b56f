/** Subsequences: `a` can be obtained from `b` by deleting elements. Used to state that
    comment removal only ever deletes text. */
module Subsequences {

  /** Greedy matching of `a` against `b`, which decides the subsequence relation. */
  predicate IsSubseq<T(==)>(a: seq<T>, b: seq<T>)
    decreases |b|
  {
    if a == [] then true
    else if b == [] then false
    else if a[0] == b[0] then IsSubseq(a[1..], b[1..])
    else IsSubseq(a, b[1..])
  }

  /** Adding an element in front of the larger sequence keeps the relation. */
  lemma {:induction false} ConsRight<T>(a: seq<T>, b: seq<T>, x: T)
    requires IsSubseq(a, b)
    ensures IsSubseq(a, [x] + b)
    decreases |a| + |b|, 1
  {
    if a != [] && a[0] == x {
      DropFirst(a, b);
      assert ([x] + b)[1..] == b;
    } else {
      assert ([x] + b)[1..] == b;
    }
  }

  /** Removing the first element of the smaller sequence keeps the relation. */
  lemma {:induction false} DropFirst<T>(a: seq<T>, b: seq<T>)
    requires a != [] && IsSubseq(a, b)
    ensures IsSubseq(a[1..], b)
    decreases |a| + |b|, 0
  {
    if a[0] == b[0] {
      ConsRight(a[1..], b[1..], b[0]);
      assert [b[0]] + b[1..] == b;
    } else {
      DropFirst(a, b[1..]);
      ConsRight(a[1..], b[1..], b[0]);
      assert [b[0]] + b[1..] == b;
    }
  }

  lemma {:induction false} Refl<T>(a: seq<T>)
    ensures IsSubseq(a, a)
    decreases |a|
  {
    if a != [] {
      Refl(a[1..]);
    }
  }

  /** Any prefix may be put in front of the larger sequence. */
  lemma {:induction false} Prepend<T>(a: seq<T>, p: seq<T>, b: seq<T>)
    requires IsSubseq(a, b)
    ensures IsSubseq(a, p + b)
    decreases |p|
  {
    if p == [] {
      assert p + b == b;
    } else {
      Prepend(a, p[1..], b);
      ConsRight(a, p[1..] + b, p[0]);
      assert [p[0]] + (p[1..] + b) == p + b;
    }
  }

  /** Subsequences of the two halves concatenate to a subsequence of the whole. */
  lemma {:induction false} Concat<T>(a: seq<T>, b: seq<T>, c: seq<T>, d: seq<T>)
    requires IsSubseq(a, b) && IsSubseq(c, d)
    ensures IsSubseq(a + c, b + d)
    decreases |b|
  {
    if a == [] {
      assert a + c == c;
      Prepend(c, b, d);
    } else if a[0] == b[0] {
      Concat(a[1..], b[1..], c, d);
      assert (a + c)[1..] == a[1..] + c;
      assert (b + d)[1..] == b[1..] + d;
    } else {
      Concat(a, b[1..], c, d);
      ConsRight(a + c, b[1..] + d, b[0]);
      assert [b[0]] + (b[1..] + d) == b + d;
    }
  }

  lemma {:induction false} Trans<T>(a: seq<T>, b: seq<T>, c: seq<T>)
    requires IsSubseq(a, b) && IsSubseq(b, c)
    ensures IsSubseq(a, c)
    decreases |c|
  {
    if a == [] {
    } else if b[0] == c[0] {
      if a[0] == b[0] {
        Trans(a[1..], b[1..], c[1..]);
      } else {
        Trans(a, b[1..], c[1..]);
        ConsRight(a, c[1..], c[0]);
        assert [c[0]] + c[1..] == c;
      }
    } else {
      Trans(a, b, c[1..]);
      ConsRight(a, c[1..], c[0]);
      assert [c[0]] + c[1..] == c;
    }
  }

  lemma Prefix<T>(s: seq<T>, k: nat)
    requires k <= |s|
    ensures IsSubseq(s[..k], s)
  {
    Refl(s[..k]);
    assert IsSubseq<T>([], s[k..]);
    Concat(s[..k], s[..k], [], s[k..]);
    assert s[..k] + [] == s[..k];
    assert s[..k] + s[k..] == s;
  }
}
