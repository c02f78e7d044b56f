/** Python's insertion-ordered `dict`: a sequence of distinct keys in insertion order plus
    the key-to-value map. Assigning to a key that is already present replaces its value
    and keeps its position. */
module OrderedDicts {
  import opened Wrappers

  datatype ODict<K, V> = ODict(keys: seq<K>, vals: map<K, V>)

  /** The keys are distinct and are exactly the keys of the map. */
  predicate Valid<K(==), V>(d: ODict<K, V>) {
    (forall i, j :: 0 <= i < j < |d.keys| ==> d.keys[i] != d.keys[j]) &&
    d.vals.Keys == set k | k in d.keys
  }

  function Empty<K(==), V>(): (r: ODict<K, V>)
    ensures Valid(r) && r.keys == []
  {
    ODict([], map[])
  }

  /** `d[k] = v` */
  function Put<K(==), V>(d: ODict<K, V>, k: K, v: V): (r: ODict<K, V>)
    ensures r.vals == d.vals[k := v]
    ensures k in d.vals ==> r.keys == d.keys
    ensures k !in d.vals ==> r.keys == d.keys + [k]
  {
    ODict(if k in d.vals then d.keys else d.keys + [k], d.vals[k := v])
  }

  lemma PutValid<K, V>(d: ODict<K, V>, k: K, v: V)
    requires Valid(d)
    ensures Valid(Put(d, k, v))
  {
  }

  /** An assignment that may have been skipped. */
  function PutOpt<K(==), V>(d: ODict<K, V>, e: Option<(K, V)>): ODict<K, V> {
    match e
    case None => d
    case Some(kv) => Put(d, kv.0, kv.1)
  }

  /** The assignments `es` performed in order, skipping the `None` ones. */
  function PutAll<K(==), V>(d: ODict<K, V>, es: seq<Option<(K, V)>>): (r: ODict<K, V>)
    ensures |d.keys| <= |r.keys| && r.keys[..|d.keys|] == d.keys
  {
    if es == [] then d else PutOpt(PutAll(d, es[..|es| - 1]), es[|es| - 1])
  }

  /** One more assignment performed after a prefix of them. */
  lemma PutAllSnoc<K, V>(d: ODict<K, V>, es: seq<Option<(K, V)>>, i: nat)
    requires i < |es|
    ensures PutAll(d, es[..i + 1]) == PutOpt(PutAll(d, es[..i]), es[i])
  {
    assert es[..i + 1][..i] == es[..i];
  }

  /** A prefix one element longer. */
  lemma TakeSnoc<T>(s: seq<T>, i: nat)
    requires i < |s|
    ensures s[..i + 1] == s[..i] + [s[i]]
  {
  }

  /** Some assignment in `es` is to key `k`. */
  predicate Assigns<K(==), V>(es: seq<Option<(K, V)>>, k: K) {
    exists i :: 0 <= i < |es| && es[i].Some? && es[i].value.0 == k
  }

  /** Assignments that all happen, to the keys `names` in order, assign exactly those keys. */
  lemma AssignsNames<K, V>(es: seq<Option<(K, V)>>, names: seq<K>, k: K)
    requires |es| == |names|
    requires forall i :: 0 <= i < |es| ==> es[i].Some? && es[i].value.0 == names[i]
    ensures Assigns(es, k) <==> k in names
  {
    if k in names {
      var i :| 0 <= i < |names| && names[i] == k;
      assert es[i].Some? && es[i].value.0 == k;
    }
  }

  lemma {:induction false} PutAllValid<K, V>(d: ODict<K, V>, es: seq<Option<(K, V)>>)
    requires Valid(d)
    ensures Valid(PutAll(d, es))
    decreases |es|
  {
    if es != [] {
      PutAllValid(d, es[..|es| - 1]);
    }
  }

  /** After the assignments a key is present exactly when it was before or was assigned. */
  lemma {:induction false} PutAllHas<K, V>(d: ODict<K, V>, es: seq<Option<(K, V)>>, k: K)
    ensures k in PutAll(d, es).vals <==> k in d.vals || Assigns(es, k)
    decreases |es|
  {
    if es != [] {
      var init := es[..|es| - 1];
      PutAllHas(d, init, k);
      assert forall i :: 0 <= i < |init| ==> init[i] == es[i];
    }
  }

  /** The last assignment to a key decides its value. */
  lemma {:induction false} PutAllLast<K, V>(d: ODict<K, V>, es: seq<Option<(K, V)>>, i: nat)
    requires i < |es| && es[i].Some?
    requires forall j :: i < j < |es| ==> es[j].None? || es[j].value.0 != es[i].value.0
    ensures es[i].value.0 in PutAll(d, es).vals
    ensures PutAll(d, es).vals[es[i].value.0] == es[i].value.1
    decreases |es|
  {
    if i < |es| - 1 {
      PutAllLast(d, es[..|es| - 1], i);
    }
  }

  /** A key nobody assigns keeps its old value. */
  lemma {:induction false} PutAllUntouched<K, V>(d: ODict<K, V>, es: seq<Option<(K, V)>>, k: K)
    requires k in d.vals && !Assigns(es, k)
    ensures k in PutAll(d, es).vals && PutAll(d, es).vals[k] == d.vals[k]
    decreases |es|
  {
    if es != [] {
      var init := es[..|es| - 1];
      assert forall i :: 0 <= i < |init| ==> init[i] == es[i];
      PutAllUntouched(d, init, k);
    }
  }

  /** One assignment per key, in order, skipped when `f` gives the key no value. */
  function Assignments<K, V>(ks: seq<K>, f: K -> Option<V>): (r: seq<Option<(K, V)>>)
    ensures |r| == |ks|
    ensures forall i :: 0 <= i < |ks| ==> r[i] == if f(ks[i]).Some? then Some((ks[i], f(ks[i]).value)) else None
  {
    seq(|ks|, i requires 0 <= i < |ks| => if f(ks[i]).Some? then Some((ks[i], f(ks[i]).value)) else None)
  }

  /** With distinct keys, each key holds its value after the assignments, and a key
      without a value keeps what it held before. */
  lemma AssignmentsStored<K, V>(d: ODict<K, V>, ks: seq<K>, f: K -> Option<V>, i: nat)
    requires forall a, b :: 0 <= a < b < |ks| ==> ks[a] != ks[b]
    requires i < |ks|
    ensures f(ks[i]).Some? ==>
      ks[i] in PutAll(d, Assignments(ks, f)).vals && PutAll(d, Assignments(ks, f)).vals[ks[i]] == f(ks[i]).value
    ensures f(ks[i]).None? ==>
      (ks[i] in PutAll(d, Assignments(ks, f)).vals <==> ks[i] in d.vals) &&
      (ks[i] in d.vals ==> PutAll(d, Assignments(ks, f)).vals[ks[i]] == d.vals[ks[i]])
  {
    var es := Assignments(ks, f);
    if f(ks[i]).Some? {
      PutAllLast(d, es, i);
    } else {
      assert !Assigns(es, ks[i]);
      PutAllHas(d, es, ks[i]);
      if ks[i] in d.vals {
        PutAllUntouched(d, es, ks[i]);
      }
    }
  }

  /** Every value `x` at key `k` replaced by `f(k, x)`; the keys and their order are kept. */
  function MapValues<K(==), X, V>(d: ODict<K, X>, f: (K, X) -> V): (r: ODict<K, V>)
    ensures r.keys == d.keys && r.vals.Keys == d.vals.Keys
    ensures forall k :: k in d.vals ==> r.vals[k] == f(k, d.vals[k])
    ensures Valid(r) <==> Valid(d)
  {
    ODict(d.keys, map k | k in d.vals :: f(k, d.vals[k]))
  }

  /** Converting the values commutes with an assignment. */
  lemma MapValuesPut<K, X, V>(d: ODict<K, X>, k: K, x: X, f: (K, X) -> V)
    ensures MapValues(Put(d, k, x), f) == Put(MapValues(d, f), k, f(k, x))
  {
    assert MapValues(Put(d, k, x), f).vals == Put(MapValues(d, f), k, f(k, x)).vals;
  }

  /** One more assignment, converted, is one more `Put` of the converted value. */
  lemma MapValuesSnoc<K, X, V>(es: seq<Option<(K, X)>>, i: nat, k: K, x: X, f: (K, X) -> V)
    requires i < |es| && es[i] == Some((k, x))
    ensures MapValues(PutAll(Empty(), es[..i + 1]), f) == Put(MapValues(PutAll(Empty(), es[..i]), f), k, f(k, x))
  {
    PutAllSnoc(Empty(), es, i);
    MapValuesPut(PutAll(Empty(), es[..i]), k, x, f);
  }

  /** The last assignment to a key decides its converted value in any dictionary updated
      with the converted assignments. */
  lemma UpdateLast<K, X, V>(d: ODict<K, V>, es: seq<Option<(K, X)>>, f: (K, X) -> V, i: nat)
    requires i < |es| && es[i].Some?
    requires forall j :: i < j < |es| ==> es[j].None? || es[j].value.0 != es[i].value.0
    ensures es[i].value.0 in Update(d, MapValues(PutAll(Empty(), es), f)).vals
    ensures Update(d, MapValues(PutAll(Empty(), es), f)).vals[es[i].value.0] == f(es[i].value.0, es[i].value.1)
  {
    PutAllLast(Empty(), es, i);
  }

  /** The keys of `ks` that `m` lacks, in the order of `ks`. */
  function NewKeys<K(==), V>(ks: seq<K>, m: map<K, V>): (r: seq<K>)
    ensures |r| <= |ks| && forall i :: 0 <= i < |r| ==> r[i] !in m
  {
    if ks == [] then []
    else NewKeys(ks[..|ks| - 1], m) + (if ks[|ks| - 1] in m then [] else [ks[|ks| - 1]])
  }

  /** `d.update(e)`: the entries of `e`, in its order, assigned into `d`. A key of `d` keeps
      its position, and the other keys of `e` follow in the order of `e`. */
  function Update<K(==), V>(d: ODict<K, V>, e: ODict<K, V>): (r: ODict<K, V>)
    ensures r.vals == d.vals + e.vals
    ensures |d.keys| <= |r.keys| && r.keys[..|d.keys|] == d.keys
  {
    ODict(d.keys + NewKeys(e.keys, d.vals), d.vals + e.vals)
  }

  /** Updating with nothing changes nothing. */
  lemma UpdateEmpty<K, V>(d: ODict<K, V>, e: ODict<K, V>)
    requires e.keys == [] && e.vals == map[]
    ensures Update(d, e) == d
  {
    assert d.vals + e.vals == d.vals;
  }

  /** One more assignment into the dictionary that updates `d` is one more entry in the
      update. */
  lemma UpdatePut<K, V>(d: ODict<K, V>, e: ODict<K, V>, k: K, v: V)
    ensures Update(d, Put(e, k, v)) == Put(Update(d, e), k, v)
  {
    UnionPut(d.vals, e.vals, k, v);
    UpdatePutKeys(d, e, k, v);
  }

  /** Assigning into the right operand of a map union is assigning into the union. */
  lemma UnionPut<K, V>(a: map<K, V>, b: map<K, V>, k: K, v: V)
    ensures (a + b)[k := v] == a + b[k := v]
  {
  }

  /** The key order of `UpdatePut`: a key new to both dictionaries goes last. */
  lemma UpdatePutKeys<K, V>(d: ODict<K, V>, e: ODict<K, V>, k: K, v: V)
    ensures Update(d, Put(e, k, v)).keys == Put(Update(d, e), k, v).keys
  {
    if k !in e.vals {
      var ks := e.keys + [k];
      assert ks[..|ks| - 1] == e.keys;
      var n := NewKeys(e.keys, d.vals);
      if k !in d.vals {
        assert d.keys + (n + [k]) == d.keys + n + [k];
      } else {
        assert n + [] == n;
      }
    }
  }

  /** Without repeated keys, the new keys are distinct and are the keys of `ks` that `m`
      lacks. */
  lemma {:induction false} NewKeysDistinct<K, V>(ks: seq<K>, m: map<K, V>)
    requires forall i, j :: 0 <= i < j < |ks| ==> ks[i] != ks[j]
    ensures forall i, j :: 0 <= i < j < |NewKeys(ks, m)| ==> NewKeys(ks, m)[i] != NewKeys(ks, m)[j]
    ensures forall k :: k in NewKeys(ks, m) <==> k in ks && k !in m
    decreases |ks|
  {
    if ks != [] {
      var init := ks[..|ks| - 1];
      NewKeysDistinct(init, m);
      assert forall k :: k in ks <==> k in init || k == ks[|ks| - 1];
    }
  }

  /** Updating a well-formed dictionary with a well-formed one gives a well-formed one. */
  lemma UpdateValid<K(!new), V>(d: ODict<K, V>, e: ODict<K, V>)
    requires Valid(d) && Valid(e)
    ensures Valid(Update(d, e))
  {
    NewKeysDistinct(e.keys, d.vals);
  }

  /** The values in key order. */
  function Values<K(==), V>(d: ODict<K, V>): (r: seq<V>)
    requires Valid(d)
    ensures |r| == |d.keys|
    ensures forall i :: 0 <= i < |r| ==> r[i] == d.vals[d.keys[i]]
  {
    seq(|d.keys|, i requires 0 <= i < |d.keys| => d.vals[d.keys[i]])
  }

  /** Python's slice bound for `list(d.items())[:n]`: a negative `n` counts from the end. */
  function SliceLen(n: int, len: nat): (r: nat)
    ensures r <= len
    ensures 0 <= n ==> r == if n < len then n else len
    ensures n < 0 ==> r == if len + n < 0 then 0 else len + n
  {
    if n >= len then len
    else if n >= 0 then n
    else if len + n < 0 then 0
    else len + n
  }

  /** `dict(list(d.items())[:n])` */
  function Take<K(==), V>(d: ODict<K, V>, n: int): (r: ODict<K, V>)
    requires Valid(d)
    ensures Valid(r)
    ensures r.keys == d.keys[..SliceLen(n, |d.keys|)]
    ensures forall k :: k in r.vals ==> k in d.vals && r.vals[k] == d.vals[k]
  {
    var m := SliceLen(n, |d.keys|);
    var ks := d.keys[..m];
    ODict(ks, map k | k in d.vals && k in ks :: d.vals[k])
  }
}
