/** Python's `dict` as an insertion-ordered map: assigning to an existing key keeps its place,
    assigning to a new key appends it, `del` removes the key from the order. */
module PyDict {

  datatype Dict<K(==), V> = Dict(order: seq<K>, entries: map<K, V>)

  predicate NoDuplicates<K(==)>(s: seq<K>) {
    forall i, j :: 0 <= i < j < |s| ==> s[i] != s[j]
  }

  /** The first components of a sequence of pairs, in order: the keys of `d.items()`, or the
      forms of root-form pairs. */
  function Firsts<A, B>(ps: seq<(A, B)>): (r: seq<A>)
    ensures |r| == |ps| && forall i :: 0 <= i < |ps| ==> r[i] == ps[i].0
  {
    if ps == [] then [] else [ps[0].0] + Firsts(ps[1..])
  }

  /** The order lists every key exactly once. */
  predicate Valid<K(==), V>(d: Dict<K, V>) {
    NoDuplicates(d.order) && (forall k :: k in d.entries ==> k in d.order)
    && (forall i :: 0 <= i < |d.order| ==> d.order[i] in d.entries)
  }

  function Empty<K(==), V>(): (d: Dict<K, V>)
    ensures Valid(d) && d.order == [] && d.entries == map[]
  {
    Dict([], map[])
  }

  /** `d[k] = v` */
  function Put<K(==), V>(d: Dict<K, V>, k: K, v: V): Dict<K, V> {
    if k in d.entries then Dict(d.order, d.entries[k := v]) else Dict(d.order + [k], d.entries[k := v])
  }

  /** The order without `k`. */
  function Without<K(==)>(s: seq<K>, k: K): (r: seq<K>)
    ensures forall i :: 0 <= i < |r| ==> r[i] in s && r[i] != k
    ensures forall i :: 0 <= i < |s| && s[i] != k ==> s[i] in r
    ensures |r| <= |s|
  {
    if s == [] then [] else if s[0] == k then Without(s[1..], k) else [s[0]] + Without(s[1..], k)
  }

  /** `del d[k]` for a key that is present (Python raises KeyError otherwise). */
  function Remove<K(==), V>(d: Dict<K, V>, k: K): Dict<K, V> {
    Dict(Without(d.order, k), d.entries - {k})
  }

  /** `list(d.items())` */
  function Items<K(==), V>(d: Dict<K, V>): (r: seq<(K, V)>)
    requires Valid(d)
    ensures |r| == |d.order|
    ensures forall i :: 0 <= i < |r| ==> r[i].0 == d.order[i] && r[i].1 == d.entries[d.order[i]]
  {
    ItemsOf(d.order, d.entries)
  }

  /** `list(d.items())` as a total function: a dictionary whose order and keys disagree (which no
      operation here produces) has no items. */
  function Snapshot<K(==), V>(d: Dict<K, V>): (r: seq<(K, V)>)
    ensures Valid(d) ==> r == Items(d)
  {
    if Valid(d) then Items(d) else []
  }

  function ItemsOf<K(==), V>(ks: seq<K>, m: map<K, V>): (r: seq<(K, V)>)
    requires forall i :: 0 <= i < |ks| ==> ks[i] in m
    ensures |r| == |ks|
    ensures forall i :: 0 <= i < |r| ==> r[i].0 == ks[i] && r[i].1 == m[ks[i]]
  {
    if ks == [] then [] else [(ks[0], m[ks[0]])] + ItemsOf(ks[1..], m)
  }

  // ---------------------------------------------------------------------------------------------
  // Properties

  lemma {:induction false} WithoutNoDuplicates<K>(s: seq<K>, k: K)
    requires NoDuplicates(s)
    ensures NoDuplicates(Without(s, k))
  {
    if s != [] {
      WithoutNoDuplicates(s[1..], k);
      assert s[0] !in s[1..];
    }
  }

  /** Without on a key that is not there changes nothing. */
  lemma {:induction false} WithoutAbsent<K>(s: seq<K>, k: K)
    requires k !in s
    ensures Without(s, k) == s
  {
    if s != [] {
      WithoutAbsent(s[1..], k);
    }
  }

  /** Assignment keeps the dictionary well formed, stores the value, and keeps every other entry
      and the position of every key already present. */
  lemma PutSpec<K, V>(d: Dict<K, V>, k: K, v: V)
    requires Valid(d)
    ensures Valid(Put(d, k, v))
    ensures Put(d, k, v).entries == d.entries[k := v]
    ensures k in d.entries ==> Put(d, k, v).order == d.order
    ensures k !in d.entries ==> Put(d, k, v).order == d.order + [k]
  {
  }

  lemma PutKey<K, V>(d: Dict<K, V>, k: K, v: V)
    ensures k in Put(d, k, v).entries && Put(d, k, v).entries[k] == v
  {
  }

  /** Assigning twice to one key is assigning the second value. */
  lemma PutTwice<K, V>(d: Dict<K, V>, k: K, v: V, w: V)
    ensures Put(Put(d, k, v), k, w) == Put(d, k, w)
  {
    assert d.entries[k := v][k := w] == d.entries[k := w];
  }

  /** Deleting keeps the dictionary well formed, drops exactly that key and keeps the relative order
      of the others. */
  lemma RemoveSpec<K, V>(d: Dict<K, V>, k: K)
    requires Valid(d)
    ensures Valid(Remove(d, k))
    ensures Remove(d, k).entries == d.entries - {k}
    ensures k !in d.entries ==> Remove(d, k) == d
  {
    WithoutNoDuplicates(d.order, k);
    if k !in d.entries {
      WithoutAbsent(d.order, k);
    }
  }

  /** Deleting two distinct keys and then adding a new one: the result is well formed, the new key is
      appended to the order of the survivors, and every survivor keeps its value. */
  lemma {:induction false} ReplacePairSpec<K, V>(d: Dict<K, V>, a: K, b: K, n: K, v: V)
    requires Valid(d) && n !in d.entries
    ensures var r := Put(Remove(Remove(d, a), b), n, v);
      Valid(r)
      && r.order == Without(Without(d.order, a), b) + [n]
      && (forall k :: k in r.entries <==> (k in d.entries && k != a && k != b) || k == n)
      && (forall k :: k in d.entries && k != a && k != b ==> r.entries[k] == d.entries[k])
      && r.entries[n] == v
  {
    RemoveSpec(d, a);
    RemoveSpec(Remove(d, a), b);
    PutSpec(Remove(Remove(d, a), b), n, v);
  }
}
