/** Python's `defaultdict(int)` used as a counter: keys appear in the order they are first
    counted. */
module Histograms {
  import opened OrderedDicts

  /** `h[k] += 1` */
  function Inc<K(==)>(h: ODict<K, nat>, k: K): ODict<K, nat> {
    Put(h, k, (if k in h.vals then h.vals[k] else 0) + 1)
  }

  /** The counter after `h[x] += 1` for every `x` of `xs`, in order, from an empty counter. */
  function HistogramOf<K(==)>(xs: seq<K>): ODict<K, nat> {
    if xs == [] then Empty() else Inc(HistogramOf(xs[..|xs| - 1]), xs[|xs| - 1])
  }

  /** Counting one more element is one more `h[x] += 1`. */
  lemma HistogramSnoc<K>(xs: seq<K>, x: K)
    ensures HistogramOf(xs + [x]) == Inc(HistogramOf(xs), x)
  {
    assert (xs + [x])[..|xs|] == xs;
  }

  /** The number of occurrences of `k` in `xs`. */
  function Occurrences<K(==)>(xs: seq<K>, k: K): nat {
    if xs == [] then 0
    else Occurrences(xs[..|xs| - 1], k) + (if xs[|xs| - 1] == k then 1 else 0)
  }

  /** The sum of the values stored under the keys `ks`. */
  function SumVals<K>(ks: seq<K>, m: map<K, nat>): nat
    requires (set k | k in ks) <= m.Keys
  {
    if ks == [] then 0 else SumVals(ks[..|ks| - 1], m) + m[ks[|ks| - 1]]
  }

  /** `sum(h.values())` */
  function Total<K>(h: ODict<K, nat>): nat
    requires Valid(h)
  {
    SumVals(h.keys, h.vals)
  }

  lemma {:induction false} SumValsFrame<K>(ks: seq<K>, m: map<K, nat>, k: K, v: nat)
    requires (set x | x in ks) <= m.Keys && k !in ks
    ensures SumVals(ks, m[k := v]) == SumVals(ks, m)
    decreases |ks|
  {
    if ks != [] {
      SumValsFrame(ks[..|ks| - 1], m, k, v);
    }
  }

  lemma {:induction false} SumValsUpdate<K>(ks: seq<K>, m: map<K, nat>, k: K, v: nat)
    requires (set x | x in ks) <= m.Keys && k in ks
    requires forall i, j :: 0 <= i < j < |ks| ==> ks[i] != ks[j]
    ensures SumVals(ks, m[k := v]) + m[k] == SumVals(ks, m) + v
    decreases |ks|
  {
    var init := ks[..|ks| - 1];
    if ks[|ks| - 1] == k {
      assert k !in init;
      SumValsFrame(init, m, k, v);
    } else {
      assert k in init;
      SumValsUpdate(init, m, k, v);
    }
  }

  lemma {:induction false} HistogramValid<K>(xs: seq<K>)
    ensures Valid(HistogramOf(xs))
    decreases |xs|
  {
    if xs != [] {
      HistogramValid(xs[..|xs| - 1]);
    }
  }

  lemma {:induction false} OccurrencesAbsent<K>(xs: seq<K>, k: K)
    requires k !in xs
    ensures Occurrences(xs, k) == 0
    decreases |xs|
  {
    if xs != [] {
      OccurrencesAbsent(xs[..|xs| - 1], k);
    }
  }

  /** Each key of the counter is an element of `xs`, and it holds that element's count. */
  lemma {:induction false} HistogramCounts<K>(xs: seq<K>, k: K)
    ensures k in HistogramOf(xs).vals <==> k in xs
    ensures k in HistogramOf(xs).vals ==> HistogramOf(xs).vals[k] == Occurrences(xs, k)
    decreases |xs|
  {
    if xs != [] {
      var init := xs[..|xs| - 1];
      HistogramCounts(init, k);
      assert xs == init + [xs[|xs| - 1]];
      if k !in init {
        OccurrencesAbsent(init, k);
      }
    }
  }

  /** The counts add up to the number of elements counted. */
  lemma {:induction false} HistogramTotal<K>(xs: seq<K>)
    ensures Valid(HistogramOf(xs))
    ensures Total(HistogramOf(xs)) == |xs|
    decreases |xs|
  {
    HistogramValid(xs);
    if xs != [] {
      var init := xs[..|xs| - 1];
      var x := xs[|xs| - 1];
      var h := HistogramOf(init);
      HistogramTotal(init);
      if x in h.vals {
        SumValsUpdate(h.keys, h.vals, x, h.vals[x] + 1);
      } else {
        SumValsFrame(h.keys, h.vals, x, 1);
        var h' := Inc(h, x);
        assert h'.keys[..|h'.keys| - 1] == h.keys;
      }
    }
  }
}
