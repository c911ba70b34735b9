/** Node identifiers of the AMR graph store: a single word id, a synthesised string id, or the
    sorted tuple of word ids a merged node is keyed by; and the first-match resolution of an id to
    the key that now owns it. */
module NodeIds {

  /** `Single(i)` is a Python int key, `Named(s)` a str key, `Composite(ws)` a tuple of word ids. */
  datatype NodeId = Single(word: int) | Named(name: string) | Composite(words: seq<int>)

  /** Python truthiness: `0`, `''` and `()` are false. */
  predicate Falsy(x: NodeId) {
    x == Single(0) || x == Named([]) || x == Composite([])
  }

  /** The word ids an id stands for. */
  function Tokens(x: NodeId): set<int> {
    match x
    case Single(i) => {i}
    case Named(_) => {}
    case Composite(ws) => set i | i in ws
  }

  predicate SortedInts(s: seq<int>) {
    forall i, j :: 0 <= i < j < |s| ==> s[i] <= s[j]
  }

  /** Whether `redirect_node(x)` stops at dictionary key `k`: a tuple key containing the word id, a
      plain key equal to `x`, or, for a tuple `x`, a tuple key holding all of its ids. */
  predicate Covers(k: NodeId, x: NodeId) {
    match x
    case Single(i) => (k.Composite? && i in k.words) || k == x
    case Named(_) => k == x
    case Composite(ws) => k.Composite? && forall n :: 0 <= n < |ws| ==> ws[n] in k.words
  }

  /** `redirect_node(x)` over the keys in dictionary order: the first key that covers `x`, else `x`. */
  function Redirect(keys: seq<NodeId>, x: NodeId): NodeId {
    if keys == [] then x else if Covers(keys[0], x) then keys[0] else Redirect(keys[1..], x)
  }

  /** Keys own pairwise-disjoint word ids and no tuple key is empty. */
  predicate DisjointKeys(keys: seq<NodeId>) {
    (forall i, j :: 0 <= i < j < |keys| ==> Tokens(keys[i]) !! Tokens(keys[j]))
    && (forall i :: 0 <= i < |keys| ==> keys[i] != Composite([]))
  }

  /** `sorted(s)`, by insertion. */
  function SortInts(s: seq<int>): seq<int> {
    if s == [] then [] else Insert(s[0], SortInts(s[1..]))
  }

  function Insert(x: int, s: seq<int>): seq<int> {
    if s == [] || x <= s[0] then [x] + s else [s[0]] + Insert(x, s[1..])
  }

  /** The word ids an int or tuple id contributes to a merged key, in order. */
  function Flatten(x: NodeId): seq<int>
    requires !x.Named?
  {
    match x
    case Single(i) => [i]
    case Composite(ws) => ws
  }

  /** `tuple(sorted(flatten(a) + flatten(b)))`, the key of the node that merges `a` and `b`. */
  function MergedId(a: NodeId, b: NodeId): NodeId
    requires !a.Named? && !b.Named?
  {
    Composite(SortInts(Flatten(a) + Flatten(b)))
  }

  /** Every element of a finite set of word ids, ascending: `tuple(sorted(mapping))`. */
  ghost function SortedElements(s: set<int>): (r: seq<int>)
    ensures forall i, j :: 0 <= i < j < |r| ==> r[i] < r[j]
    ensures forall x :: x in r <==> x in s
    ensures |r| == |s|
    decreases |s|
  {
    if s == {} then []
    else
      var m := Min(s);
      [m] + SortedElements(s - {m})
  }

  ghost function Min(s: set<int>): (m: int)
    requires s != {}
    ensures m in s && forall x :: x in s ==> m <= x
  {
    HasElement(s);
    var x :| x in s;
    if s - {x} == {} then
      assert s == {x};
      x
    else
      var m := Min(s - {x});
      assert forall y :: y in s ==> y == x || y in s - {x};
      if x < m then x else m
  }

  lemma HasElement(s: set<int>)
    requires s != {}
    ensures exists x :: x in s
  {
    if forall x :: x !in s {
      assert false;
    }
  }

  // ---------------------------------------------------------------------------------------------
  // Properties

  /** `redirect_node` returns the first covering key, and the input only when no key covers it. */
  lemma {:induction false} RedirectFirstMatch(keys: seq<NodeId>, x: NodeId)
    ensures var r := Redirect(keys, x);
      (r in keys && Covers(r, x)
       && exists n :: 0 <= n < |keys| && keys[n] == r && forall j :: 0 <= j < n ==> !Covers(keys[j], x))
      || (r == x && forall j :: 0 <= j < |keys| ==> !Covers(keys[j], x))
  {
    var n := RedirectIndex(keys, x);
    if n < |keys| {
      assert keys[n] in keys;
    }
  }

  /** The position `redirect_node` stops at: every earlier key misses `x`. */
  lemma {:induction false} RedirectIndex(keys: seq<NodeId>, x: NodeId) returns (n: nat)
    ensures n <= |keys|
    ensures forall j :: 0 <= j < n ==> !Covers(keys[j], x)
    ensures n < |keys| ==> Covers(keys[n], x) && Redirect(keys, x) == keys[n]
    ensures n == |keys| ==> Redirect(keys, x) == x
    decreases |keys|
  {
    if keys == [] || Covers(keys[0], x) {
      return 0;
    }
    var m := RedirectIndex(keys[1..], x);
    n := m + 1;
    forall j | 0 <= j < n
      ensures !Covers(keys[j], x)
    {
      if j > 0 {
        assert keys[j] == keys[1..][j - 1];
      }
    }
  }

  /** A key that covers another key of a disjoint key set is that key. */
  lemma CoveringKeyIsKey(j: NodeId, k: NodeId)
    requires Covers(j, k) && k != Composite([])
    requires j != k
    ensures !(Tokens(j) !! Tokens(k))
  {
    match k
    case Single(i) =>
      assert i in Tokens(j) && i in Tokens(k);
    case Composite(ws) =>
      assert j.Composite? && ws[0] in j.words;
      assert ws[0] in Tokens(j) && ws[0] in Tokens(k);
  }

  /** Under disjoint keys, `redirect_node` is the identity on every key. */
  lemma {:induction false} RedirectKey(keys: seq<NodeId>, k: NodeId)
    requires DisjointKeys(keys)
    requires k in keys
    ensures Redirect(keys, k) == k
  {
    if keys[0] != k {
      if Covers(keys[0], k) {
        var n :| 0 <= n < |keys| && keys[n] == k;
        CoveringKeyIsKey(keys[0], k);
        assert false;
      }
      assert DisjointKeys(keys[1..]) by {
        forall i, j | 0 <= i < j < |keys[1..]|
          ensures Tokens(keys[1..][i]) !! Tokens(keys[1..][j])
        {
          assert keys[1..][i] == keys[i + 1] && keys[1..][j] == keys[j + 1];
        }
      }
      RedirectKey(keys[1..], k);
    }
  }

  /** Under disjoint keys, resolving twice is resolving once. */
  lemma RedirectIdempotent(keys: seq<NodeId>, x: NodeId)
    requires DisjointKeys(keys)
    ensures Redirect(keys, Redirect(keys, x)) == Redirect(keys, x)
  {
    RedirectFirstMatch(keys, x);
    if Redirect(keys, x) in keys {
      RedirectKey(keys, Redirect(keys, x));
    }
  }

  lemma {:induction false} InsertElements(x: int, s: seq<int>)
    ensures multiset(Insert(x, s)) == multiset(s) + multiset{x}
    ensures forall e :: e in Insert(x, s) <==> e == x || e in s
  {
    if s != [] && x > s[0] {
      InsertElements(x, s[1..]);
      assert s == [s[0]] + s[1..];
    }
  }

  lemma {:induction false} InsertSorted(x: int, s: seq<int>)
    requires SortedInts(s)
    ensures SortedInts(Insert(x, s))
  {
    if s != [] && x > s[0] {
      InsertSorted(x, s[1..]);
      InsertElements(x, s[1..]);
      var r := Insert(x, s);
      forall i, j | 0 <= i < j < |r|
        ensures r[i] <= r[j]
      {
        if i == 0 {
          assert r[j] in Insert(x, s[1..]);
          assert r[j] == x || r[j] in s[1..];
        } else {
          assert r[i] == Insert(x, s[1..])[i - 1] && r[j] == Insert(x, s[1..])[j - 1];
        }
      }
    }
  }

  /** `sorted(s)` is sorted and a permutation of `s`. */
  lemma {:induction false} SortIntsSpec(s: seq<int>)
    ensures SortedInts(SortInts(s)) && multiset(SortInts(s)) == multiset(s)
  {
    if s != [] {
      SortIntsSpec(s[1..]);
      InsertSorted(s[0], SortInts(s[1..]));
      InsertElements(s[0], SortInts(s[1..]));
      assert s == [s[0]] + s[1..];
    }
  }

  lemma TokensOfSeq(w: seq<int>, f: seq<int>)
    requires multiset(w) == multiset(f)
    ensures (set i | i in w) == (set i | i in f)
    ensures |w| == |f|
  {
    forall i ensures i in w <==> i in f {
      assert i in w <==> i in multiset(w);
      assert i in f <==> i in multiset(f);
    }
    assert |w| == |multiset(w)| == |multiset(f)| == |f|;
  }

  lemma TokensConcat(a: NodeId, b: NodeId)
    requires !a.Named? && !b.Named?
    ensures (set i | i in Flatten(a) + Flatten(b)) == Tokens(a) + Tokens(b)
  {
    var f := Flatten(a) + Flatten(b);
    forall i ensures i in f <==> i in Flatten(a) || i in Flatten(b) {
    }
  }

  /** The merged key holds exactly the word ids of both operands, sorted. */
  lemma MergedIdTokens(a: NodeId, b: NodeId)
    requires !a.Named? && !b.Named? && a != Composite([])
    ensures MergedId(a, b).Composite? && SortedInts(MergedId(a, b).words)
    ensures multiset(MergedId(a, b).words) == multiset(Flatten(a)) + multiset(Flatten(b))
    ensures Tokens(MergedId(a, b)) == Tokens(a) + Tokens(b)
    ensures MergedId(a, b) != Composite([]) && !Falsy(MergedId(a, b))
  {
    var f := Flatten(a) + Flatten(b);
    SortIntsSpec(f);
    var w := SortInts(f);
    TokensOfSeq(w, f);
    TokensConcat(a, b);
    assert |f| > 0 by {
      assert |Flatten(a)| > 0;
    }
  }

  /** The merged key of `a` and `b` is the merged key of `b` and `a`. */
  lemma MergedIdSymmetric(a: NodeId, b: NodeId)
    requires !a.Named? && !b.Named?
    ensures MergedId(a, b) == MergedId(b, a)
  {
    var f := Flatten(a) + Flatten(b);
    var g := Flatten(b) + Flatten(a);
    assert multiset(f) == multiset(g);
    SortIntsSpec(f);
    SortIntsSpec(g);
    SortedUnique(SortInts(f), SortInts(g));
  }

  /** Two sorted sequences with the same elements are equal. */
  lemma {:induction false} SortedUnique(s: seq<int>, t: seq<int>)
    requires SortedInts(s) && SortedInts(t) && multiset(s) == multiset(t)
    ensures s == t
    decreases |s|
  {
    if s != [] {
      SortedHeads(s, t);
      DropHead(s);
      DropHead(t);
      assert SortedInts(s[1..]) && SortedInts(t[1..]);
      SortedUnique(s[1..], t[1..]);
      assert s == [s[0]] + s[1..] && t == [t[0]] + t[1..];
    }
  }

  /** Two sorted sequences with the same elements start with the same element. */
  lemma SortedHeads(s: seq<int>, t: seq<int>)
    requires SortedInts(s) && SortedInts(t) && multiset(s) == multiset(t) && s != []
    ensures t != [] && s[0] == t[0]
  {
    assert s[0] in multiset(t);
    assert t != [] && t[0] in multiset(s);
    var i :| 0 <= i < |t| && t[i] == s[0];
    var j :| 0 <= j < |s| && s[j] == t[0];
    assert t[0] <= s[0] && s[0] <= t[0];
  }

  /** Dropping the head removes one occurrence of it from the multiset. */
  lemma DropHead(s: seq<int>)
    requires s != []
    ensures multiset(s[1..]) == multiset(s) - multiset{s[0]}
  {
    assert s == [s[0]] + s[1..];
  }
}
