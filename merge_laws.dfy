/** The laws of `pairwise_merge` on the whole store: it keeps the store's invariant, replaces the two
    nodes by one whose concept pools theirs, moves every edge onto the new node, and afterwards
    `redirect_node` sends each of the merged ids to it. */
module MergeLaws {
  import opened PyStr
  import opened PyDict
  import opened NodeIds
  import opened Concepts
  import opened Outcomes
  import opened GraphSpec
  import opened MergeProps

  // ---------------------------------------------------------------------------------------------
  // Keys

  lemma {:induction false} KeysDisjointAt(keys: seq<NodeId>, x: NodeId, y: NodeId)
    requires DisjointKeys(keys) && x in keys && y in keys && x != y
    ensures Tokens(x) !! Tokens(y)
  {
    var i :| 0 <= i < |keys| && keys[i] == x;
    var j :| 0 <= j < |keys| && keys[j] == y;
    assert i != j;
  }

  lemma {:induction false} NonEmptyTokens(x: NodeId)
    requires !x.Named? && x != Composite([])
    ensures Tokens(x) != {}
  {
    if x.Composite? {
      assert x.words[0] in Tokens(x);
    } else {
      assert x.word in Tokens(x);
    }
  }

  /** The merged key is new, distinct from both operands, and shares no word id with any other key. */
  lemma {:induction false} MergedKeyFresh(keys: seq<NodeId>, a: NodeId, b: NodeId)
    requires DisjointKeys(keys) && a in keys && b in keys && a != b && !a.Named? && !b.Named?
    ensures Tokens(MergedId(a, b)) == Tokens(a) + Tokens(b) && MergedId(a, b) != Composite([])
    ensures MergedId(a, b) !in keys && MergedId(a, b) != a && MergedId(a, b) != b
    ensures forall k :: k in keys && k != a && k != b ==> Tokens(k) !! Tokens(MergedId(a, b))
  {
    var n := MergedId(a, b);
    KeysDisjointAt(keys, a, b);
    assert a != Composite([]) && b != Composite([]);
    MergedIdTokens(a, b);
    NonEmptyTokens(a);
    NonEmptyTokens(b);
    forall k | k in keys && k != a && k != b
      ensures Tokens(k) !! Tokens(n)
    {
      KeysDisjointAt(keys, k, a);
      KeysDisjointAt(keys, k, b);
    }
  }

  /** The order after removing two keys and appending the merged one is still disjoint. */
  lemma {:induction false} MergedOrderDisjoint(keys: seq<NodeId>, a: NodeId, b: NodeId)
    requires DisjointKeys(keys) && NoDuplicates(keys)
    requires a in keys && b in keys && a != b && !a.Named? && !b.Named?
    ensures DisjointKeys(Without(Without(keys, a), b) + [MergedId(a, b)])
  {
    var n := MergedId(a, b);
    var w := Without(Without(keys, a), b);
    var o := w + [n];
    MergedKeyFresh(keys, a, b);
    WithoutNoDuplicates(keys, a);
    WithoutNoDuplicates(Without(keys, a), b);
    assert forall i :: 0 <= i < |w| ==> w[i] in keys && w[i] != a && w[i] != b;
    forall i, j | 0 <= i < j < |o|
      ensures Tokens(o[i]) !! Tokens(o[j])
    {
      if j == |w| {
        assert o[i] == w[i] && o[j] == n;
      } else {
        assert o[i] == w[i] && o[j] == w[j];
        KeysDisjointAt(keys, w[i], w[j]);
      }
    }
    forall i | 0 <= i < |o|
      ensures o[i] != Composite([])
    {
      if i < |w| {
        var p :| 0 <= p < |keys| && keys[p] == w[i];
      }
    }
  }

  // ---------------------------------------------------------------------------------------------
  // Attributes

  /** The dictionary a sequence of assignments builds, last assignment winning. */
  function MapOfPairs(attrs: seq<(string, string)>): map<string, string>
    decreases |attrs|
  {
    if attrs == [] then map[]
    else
      var last := attrs[|attrs| - 1];
      MapOfPairs(attrs[..|attrs| - 1])[last.0 := last.1]
  }

  /** Replaying assignments onto a dictionary keeps it well formed and overrides its entries with
      the assignments, the last one winning. */
  lemma {:induction false} ReplaySpec(d: Dict<string, string>, attrs: seq<(string, string)>)
    requires Valid(d)
    ensures Valid(Replay(d, attrs)) && Replay(d, attrs).entries == d.entries + MapOfPairs(attrs)
    decreases |attrs|
  {
    if attrs != [] {
      var init := attrs[..|attrs| - 1];
      var last := attrs[|attrs| - 1];
      ReplaySpec(d, init);
      PutSpec(Replay(d, init), last.0, last.1);
      assert (d.entries + MapOfPairs(init))[last.0 := last.1] == d.entries + MapOfPairs(init)[last.0 := last.1];
    }
  }

  lemma {:induction false} MapOfPairsAppend(x: seq<(string, string)>, y: seq<(string, string)>)
    ensures MapOfPairs(x + y) == MapOfPairs(x) + MapOfPairs(y)
    decreases |y|
  {
    if y != [] {
      var init := y[..|y| - 1];
      assert (x + y)[..|x + y| - 1] == x + init;
      MapOfPairsAppend(x, init);
      assert (MapOfPairs(x) + MapOfPairs(init))[y[|y| - 1].0 := y[|y| - 1].1]
          == MapOfPairs(x) + MapOfPairs(init)[y[|y| - 1].0 := y[|y| - 1].1];
    } else {
      assert x + y == x;
    }
  }

  /** Pairs with pairwise-distinct keys build the map that sends each key to its value. */
  lemma {:induction false} MapOfDistinctPairs(attrs: seq<(string, string)>)
    requires forall i, j :: 0 <= i < j < |attrs| ==> attrs[i].0 != attrs[j].0
    ensures forall k :: k in MapOfPairs(attrs) <==> exists i :: 0 <= i < |attrs| && attrs[i].0 == k
    ensures forall i :: 0 <= i < |attrs| ==> attrs[i].0 in MapOfPairs(attrs) && MapOfPairs(attrs)[attrs[i].0] == attrs[i].1
    decreases |attrs|
  {
    if attrs != [] {
      var m := |attrs| - 1;
      var init := attrs[..m];
      MapOfDistinctPairs(init);
      assert attrs[..|attrs| - 1] == init;
      forall k | k in MapOfPairs(attrs)
        ensures exists i :: 0 <= i < |attrs| && attrs[i].0 == k
      {
        if k != attrs[m].0 {
          var i :| 0 <= i < |init| && init[i].0 == k;
          assert attrs[i].0 == k;
        }
      }
      forall i | 0 <= i < m
        ensures attrs[i].0 in MapOfPairs(attrs) && MapOfPairs(attrs)[attrs[i].0] == attrs[i].1
      {
        assert init[i] == attrs[i];
      }
    }
  }

  /** The assignments `list(d.items())` rebuild `d`. */
  lemma {:induction false} MapOfItems(d: Dict<string, string>)
    requires Valid(d)
    ensures MapOfPairs(Items(d)) == d.entries
  {
    var items := Items(d);
    ItemsDistinct(d);
    MapOfDistinctPairs(items);
    OrderedMap(d, MapOfPairs(items), items);
  }

  /** A map whose keys are those of `items`, the items of `d`, and that agrees with every item is `d`'s. */
  lemma {:induction false} OrderedMap(d: Dict<string, string>, m: map<string, string>, items: seq<(string, string)>)
    requires Valid(d) && |items| == |d.order|
    requires forall i :: 0 <= i < |items| ==> items[i] == (d.order[i], d.entries[d.order[i]])
    requires forall k :: k in m <==> exists i :: 0 <= i < |items| && items[i].0 == k
    requires forall i :: 0 <= i < |items| ==> items[i].0 in m && m[items[i].0] == items[i].1
    ensures m == d.entries
  {
    forall k | k in d.entries
      ensures k in m && m[k] == d.entries[k]
    {
      var i :| 0 <= i < |d.order| && d.order[i] == k;
      assert items[i].0 == k;
    }
    forall k | k in m
      ensures k in d.entries
    {
      var i :| 0 <= i < |items| && items[i].0 == k;
      assert d.order[i] == k;
    }
  }

  /** The items of a dictionary have pairwise-distinct keys. */
  lemma {:induction false} ItemsDistinct(d: Dict<string, string>)
    requires Valid(d)
    ensures forall i, j :: 0 <= i < j < |Items(d)| ==> Items(d)[i].0 != Items(d)[j].0
  {
    var items := Items(d);
    forall i, j | 0 <= i < j < |items|
      ensures items[i].0 != items[j].0
    {
      assert items[i].0 == d.order[i] && items[j].0 == d.order[j];
    }
  }

  /** The attributes of the merged concept: those of `a`, then those of `b`, `b` winning a clash. */
  lemma {:induction false} MergedAttributes(da: Dict<string, string>, db: Dict<string, string>)
    requires Valid(da) && Valid(db)
    ensures Valid(Replay(Empty(), Snapshot(da) + Snapshot(db)))
    ensures Replay(Empty(), Snapshot(da) + Snapshot(db)).entries == da.entries + db.entries
  {
    var x := Snapshot(da);
    var y := Snapshot(db);
    var e: Dict<string, string> := Empty();
    ReplaySpec(e, x + y);
    MapOfPairsAppend(x, y);
    MapOfItems(da);
    MapOfItems(db);
    EmptyUnion(MapOfPairs(x + y));
  }

  lemma {:induction false} EmptyUnion(m: map<string, string>)
    ensures map[] + m == m
  {
  }

  /** The attribute pairs `pairwise_merge` replays all have labels starting with `:`. */
  lemma {:induction false} MergedAttributeLabels(ca: Concept, cb: Concept)
    requires ConceptOk(ca) && ConceptOk(cb)
    ensures var attrs := Snapshot(ca.attributes) + Snapshot(cb.attributes);
      forall i :: 0 <= i < |attrs| ==> StartsWith(attrs[i].0, ":")
  {
    var x := Items(ca.attributes);
    var y := Items(cb.attributes);
    var xy := x + y;
    assert Snapshot(ca.attributes) + Snapshot(cb.attributes) == xy;
    forall i | 0 <= i < |xy|
      ensures StartsWith(xy[i].0, ":")
    {
      if i < |x| {
        assert xy[i] == x[i] && x[i].0 in ca.attributes.entries;
      } else {
        assert xy[i] == y[i - |x|] && y[i - |x|].0 in cb.attributes.entries;
      }
    }
  }

  // ---------------------------------------------------------------------------------------------
  // Instances

  /** The merged concept is index-free, pools both mappings, and carries the attributes of `ca` and
      then of `cb`, `cb` winning a clash. */
  lemma {:induction false} MergedConceptSpec(ca: Concept, cb: Concept, conceptType: string)
    requires ConceptOk(ca) && ConceptOk(cb)
    ensures var c := MergedConcept(ca, cb, conceptType);
      c.conceptType == conceptType && c.variant == IndexFree
      && c.mapping == ca.mapping + cb.mapping
      && c.attributes.entries == ca.attributes.entries + cb.attributes.entries
      && ConceptOk(c)
  {
    MergedAttributes(ca.attributes, cb.attributes);
  }

  // ---------------------------------------------------------------------------------------------
  // Relations

  /** Dropping the edges between `a` and `b` removes exactly those two pairs. */
  lemma {:induction false} DropBetweenSpec(r: Relations, a: NodeId, b: NodeId)
    requires Valid(r)
    ensures Valid(DropBetween(r, a, b)) && DropBetween(r, a, b).entries == r.entries - {(a, b), (b, a)}
  {
    var r1 := if (a, b) in r.entries then Remove(r, (a, b)) else r;
    RemoveSpec(r, (a, b));
    assert Valid(r1) && r1.entries == r.entries - {(a, b)};
    RemoveSpec(r1, (b, a));
    var r2 := if (b, a) in r1.entries then Remove(r1, (b, a)) else r1;
    assert r2 == DropBetween(r, a, b);
    assert r2.entries == r1.entries - {(b, a)};
    MinusTwice(r.entries, (a, b), (b, a));
  }

  lemma MinusTwice(m: map<Edge, string>, x: Edge, y: Edge)
    ensures (m - {x}) - {y} == m - {x, y}
  {
  }

  /** A key of the old store other than `a` and `b` is a key of the merged order. */
  lemma {:induction false} KeptKey(order: seq<NodeId>, a: NodeId, b: NodeId, n: NodeId, k: NodeId)
    requires k in order && k != a && k != b
    ensures k in Without(Without(order, a), b) + [n]
  {
    var i :| 0 <= i < |order| && order[i] == k;
    assert k in Without(order, a);
    var j :| 0 <= j < |Without(order, a)| && Without(order, a)[j] == k;
    assert k in Without(Without(order, a), b);
  }

  /** Every edge left after dropping those between `a` and `b` can be re-pointed: at most one end is
      merged, and its other end survives the merge. */
  lemma {:induction false} EdgeRepointable(s: State, a: NodeId, b: NodeId, n: NodeId, keys: seq<NodeId>, e: Edge)
    requires Wf(s) && e in s.relations.entries && e != (a, b) && e != (b, a)
    requires n !in s.instances.entries
    requires forall k :: k in s.instances.entries && k != a && k != b ==> k in keys
    ensures ItemOk(e, a, b, n, keys)
  {
    assert EdgeOk(s, e);
  }

  lemma {:induction false} SnapshotRepointable(s: State, a: NodeId, b: NodeId, n: NodeId, keys: seq<NodeId>)
    requires Wf(s) && a != b && n != a && n != b && n !in s.instances.entries
    requires keys == Without(Without(s.instances.order, a), b) + [n] && DisjointKeys(keys)
    ensures var r1 := DropBetween(s.relations, a, b);
      Valid(r1) && RepointPre(Items(r1), a, b, n, keys)
      && (forall e :: e in r1.entries ==> e.0 != n && e.1 != n)
  {
    var r1 := DropBetween(s.relations, a, b);
    DropBetweenSpec(s.relations, a, b);
    forall k | k in s.instances.entries && k != a && k != b
      ensures k in keys
    {
      KeptKey(s.instances.order, a, b, n, k);
    }
    assert n in keys;
    var items := Items(r1);
    forall j | 0 <= j < |items|
      ensures ItemOk(items[j].0, a, b, n, keys)
    {
      assert items[j].0 == r1.order[j] && r1.order[j] in r1.entries;
      EdgeRepointable(s, a, b, n, keys, items[j].0);
    }
    forall e | e in r1.entries
      ensures e.0 != n && e.1 != n
    {
      assert EdgeOk(s, e);
    }
  }

  /** The re-pointed relations of a merge, characterised edge by edge. */
  lemma {:induction false} MergedRelationsMoves(s: State, a: NodeId, b: NodeId, n: NodeId, keys: seq<NodeId>, rels: Relations)
    requires Wf(s) && a != b && n != a && n != b && n !in s.instances.entries
    requires keys == Without(Without(s.instances.order, a), b) + [n] && DisjointKeys(keys)
    requires rels == MergedRelations(s.relations, a, b, n, keys)
    ensures var r1 := DropBetween(s.relations, a, b);
      Valid(r1) && r1.entries == s.relations.entries - {(a, b), (b, a)}
      && Characterized(rels, r1, Items(r1), a, b, n)
      && (forall e :: e in Moved(Items(r1), a, b) <==> e in r1.entries && Touches(e, a, b))
  {
    var r1 := DropBetween(s.relations, a, b);
    DropBetweenSpec(s.relations, a, b);
    SnapshotRepointable(s, a, b, n, keys);
    RepointMoves(r1, Items(r1), a, b, n, keys);
    MovedOfSnapshot(r1, a, b);
  }

  /** Every label the edges left after dropping those between `a` and `b` carry starts with `:`. */
  lemma {:induction false} DropBetweenLabels(s: State, a: NodeId, b: NodeId)
    requires Wf(s)
    ensures var r1 := DropBetween(s.relations, a, b);
      forall e :: e in r1.entries ==> StartsWith(r1.entries[e], ":")
  {
    var r1 := DropBetween(s.relations, a, b);
    DropBetweenSpec(s.relations, a, b);
    forall e | e in r1.entries
      ensures StartsWith(r1.entries[e], ":")
    {
      assert EdgeOk(s, e);
    }
  }

  /** One edge of the merged store is well formed: a kept edge joins two surviving keys, a moved
      edge joins the new node and a surviving key, and both keep their label. */
  lemma {:induction false} MergedEdgeOk(s: State, s': State, a: NodeId, b: NodeId, n: NodeId, r1: Relations, k: Edge)
    requires (forall e :: e in s.relations.entries ==> EdgeOk(s, e)) && n !in s.instances.entries
    requires forall x :: x in s'.instances.entries <==> (x in s.instances.entries && x != a && x != b) || x == n
    requires Valid(r1) && r1.entries == s.relations.entries - {(a, b), (b, a)}
    requires KeyCharacterized(s'.relations, r1, Items(r1), a, b, n, k)
    requires forall e :: e in Moved(Items(r1), a, b) <==> e in r1.entries && Touches(e, a, b)
    ensures EdgeOk(s', k)
  {
    if k in s'.relations.entries {
      var items := Items(r1);
      var w := LastWrite(items, k, a, b, n);
      if w >= 0 {
        var e := items[w].0;
        assert e == r1.order[w] && r1.order[w] in r1.entries;
        assert e in s.relations.entries && e != (a, b) && e != (b, a);
        assert EdgeOk(s, e);
        assert s'.relations.entries[k] == items[w].1 == r1.entries[e];
        MovedEdgeOk(s, s', a, b, n, e, k);
      } else {
        assert k in r1.entries && !Touches(k, a, b);
        assert EdgeOk(s, k);
        KeptEdgeOk(s, s', a, b, n, k);
      }
    }
  }

  /** A moved edge joins the new node and a surviving key, and keeps its label. */
  lemma {:induction false} MovedEdgeOk(s: State, s': State, a: NodeId, b: NodeId, n: NodeId, e: Edge, k: Edge)
    requires n !in s.instances.entries
    requires forall x :: x in s'.instances.entries <==> (x in s.instances.entries && x != a && x != b) || x == n
    requires e in s.relations.entries && EdgeOk(s, e) && e != (a, b) && e != (b, a)
    requires Touches(e, a, b) && Retarget(e, a, b, n) == k
    requires k in s'.relations.entries && s'.relations.entries[k] == s.relations.entries[e]
    ensures EdgeOk(s', k)
  {
  }

  /** A kept edge joins two surviving keys and keeps its label. */
  lemma {:induction false} KeptEdgeOk(s: State, s': State, a: NodeId, b: NodeId, n: NodeId, k: Edge)
    requires forall x :: x in s'.instances.entries <==> (x in s.instances.entries && x != a && x != b) || x == n
    requires k in s.relations.entries && EdgeOk(s, k) && !Touches(k, a, b)
    requires k in s'.relations.entries && s'.relations.entries[k] == s.relations.entries[k]
    ensures EdgeOk(s', k)
  {
  }

  /** The outcome of merging two distinct int or tuple keys. */
  lemma {:induction false} MergeValue(s: State, a: NodeId, b: NodeId, words: int -> string)
    requires a in s.instances.entries && b in s.instances.entries && a != b && !a.Named? && !b.Named?
    ensures var n := MergedId(a, b);
      var inst := MergedInstances(s.instances, a, b, n, MergedNode(s.instances, a, b, n, words));
      Merge(s, a, b, words)
        == Ok((State(inst, MergedRelations(s.relations, a, b, n, inst.order),
                     if s.top == Some(a) || s.top == Some(b) then Some(n) else s.top), n))
  {
  }

  /** What the steps of `pairwise_merge(a, b)` need of each other on a well-formed store: the merged
      key is new and truthy, the attribute and edge labels pass the assertions of `add_attribute`
      and `add_relation`, and the re-pointing loop can process every edge of its snapshot. */
  lemma {:induction false} MergeReady(s: State, a: NodeId, b: NodeId, words: int -> string)
    requires Wf(s) && a in s.instances.entries && b in s.instances.entries && a != b && !a.Named? && !b.Named?
    ensures var n := MergedId(a, b);
      var ca := s.instances.entries[a];
      var cb := s.instances.entries[b];
      var attrs := Snapshot(ca.attributes) + Snapshot(cb.attributes);
      var c := NewIndexFree(MergedConceptType(n.words, words), Some(ca.mapping + cb.mapping));
      var rest := Remove(Remove(s.instances, a), b);
      !Falsy(n) && n !in rest.entries
      && (forall i :: 0 <= i < |attrs| ==> StartsWith(attrs[i].0, ":"))
      && Put(Put(rest, n, c), n, c.(attributes := Replay(c.attributes, attrs))) == MergedInstances(s.instances, a, b, n, MergedNode(s.instances, a, b, n, words))
    ensures var n := MergedId(a, b);
      var inst := MergedInstances(s.instances, a, b, n, MergedNode(s.instances, a, b, n, words));
      var r1 := DropBetween(s.relations, a, b);
      PyDict.Valid(inst) && PyDict.Valid(r1)
      && RepointPre(Items(r1), a, b, n, inst.order)
      && (forall e :: e in r1.entries ==> StartsWith(r1.entries[e], ":"))
  {
    MergeNodeReady(s, a, b, words);
    MergeEdgesReady(s, a, b, words);
  }

  lemma {:induction false} MergeNodeReady(s: State, a: NodeId, b: NodeId, words: int -> string)
    requires Wf(s) && a in s.instances.entries && b in s.instances.entries && a != b && !a.Named? && !b.Named?
    ensures var n := MergedId(a, b);
      var ca := s.instances.entries[a];
      var cb := s.instances.entries[b];
      var attrs := Snapshot(ca.attributes) + Snapshot(cb.attributes);
      var c := NewIndexFree(MergedConceptType(n.words, words), Some(ca.mapping + cb.mapping));
      var rest := Remove(Remove(s.instances, a), b);
      !Falsy(n) && n !in rest.entries
      && (forall i :: 0 <= i < |attrs| ==> StartsWith(attrs[i].0, ":"))
      && Put(Put(rest, n, c), n, c.(attributes := Replay(c.attributes, attrs))) == MergedInstances(s.instances, a, b, n, MergedNode(s.instances, a, b, n, words))
  {
    var n := MergedId(a, b);
    var ca := s.instances.entries[a];
    var cb := s.instances.entries[b];
    var attrs := Snapshot(ca.attributes) + Snapshot(cb.attributes);
    var c := NewIndexFree(MergedConceptType(n.words, words), Some(ca.mapping + cb.mapping));
    var rest := Remove(Remove(s.instances, a), b);
    MergedKeyFresh(s.instances.order, a, b);
    MergedAttributeLabels(ca, cb);
    PutTwice(rest, n, c, c.(attributes := Replay(c.attributes, attrs)));
  }

  lemma {:induction false} MergeEdgesReady(s: State, a: NodeId, b: NodeId, words: int -> string)
    requires Wf(s) && a in s.instances.entries && b in s.instances.entries && a != b && !a.Named? && !b.Named?
    ensures var n := MergedId(a, b);
      var inst := MergedInstances(s.instances, a, b, n, MergedNode(s.instances, a, b, n, words));
      var r1 := DropBetween(s.relations, a, b);
      PyDict.Valid(inst) && PyDict.Valid(r1)
      && RepointPre(Items(r1), a, b, n, inst.order)
      && (forall e :: e in r1.entries ==> StartsWith(r1.entries[e], ":"))
  {
    MergedKeyFresh(s.instances.order, a, b);
    ReplacePairSpec(s.instances, a, b, MergedId(a, b), MergedNode(s.instances, a, b, MergedId(a, b), words));
    MergedOrderDisjoint(s.instances.order, a, b);
    SnapshotRepointable(s, a, b, MergedId(a, b), MergedInstances(s.instances, a, b, MergedId(a, b), MergedNode(s.instances, a, b, MergedId(a, b), words)).order);
    DropBetweenLabels(s, a, b);
  }

  /** The node `pairwise_merge` stores under the merged id: its type is the surface forms of the
      merged words joined by `_`, it carries the mappings and the attributes of both halves, it is
      index-free, and it is well formed. */
  lemma {:induction false} MergedNodeSpec(inst: Instances, a: NodeId, b: NodeId, words: int -> string)
    requires a in inst.entries && b in inst.entries && ConceptOk(inst.entries[a]) && ConceptOk(inst.entries[b])
    requires !a.Named? && !b.Named?
    ensures var n := MergedId(a, b);
      var c := MergedNode(inst, a, b, n, words);
      c.conceptType == Join(WordForms(n.words, words), "_") && c.variant == IndexFree
      && c.mapping == inst.entries[a].mapping + inst.entries[b].mapping
      && c.attributes.entries == inst.entries[a].attributes.entries + inst.entries[b].attributes.entries
      && ConceptOk(c)
  {
    var n := MergedId(a, b);
    MergedConceptSpec(inst.entries[a], inst.entries[b], MergedConceptType(n.words, words));
  }

  /** A state whose three parts are those `pairwise_merge` computes is its outcome, and is well
      formed when the store was. */
  lemma {:induction false} MergeIs(s: State, a: NodeId, b: NodeId, words: int -> string, inst: Instances, rels: Relations, top: Option<NodeId>)
    requires Wf(s) && a in s.instances.entries && b in s.instances.entries && a != b && !a.Named? && !b.Named?
    requires inst == MergedInstances(s.instances, a, b, MergedId(a, b), MergedNode(s.instances, a, b, MergedId(a, b), words))
    requires rels == MergedRelations(s.relations, a, b, MergedId(a, b), inst.order)
    requires top == if s.top == Some(a) || s.top == Some(b) then Some(MergedId(a, b)) else s.top
    ensures Merge(s, a, b, words) == Ok((State(inst, rels, top), MergedId(a, b)))
    ensures Wf(State(inst, rels, top))
  {
    MergedNodeSpec(s.instances, a, b, words);
    MergedStateWf(s, State(inst, rels, top), a, b, MergedNode(s.instances, a, b, MergedId(a, b), words));
  }

  /** `pairwise_merge` keeps the store's invariant. */
  lemma {:induction false} MergeWf(s: State, a: NodeId, b: NodeId, words: int -> string)
    requires Wf(s) && Merge(s, a, b, words).Ok?
    ensures Wf(Merge(s, a, b, words).value.0)
  {
    if a != b {
      MergeValue(s, a, b, words);
      MergedNodeSpec(s.instances, a, b, words);
      MergedStateWf(s, Merge(s, a, b, words).value.0, a, b, MergedNode(s.instances, a, b, MergedId(a, b), words));
    }
  }

  lemma {:induction false} MergedStateWf(s: State, s': State, a: NodeId, b: NodeId, c: Concept)
    requires Wf(s) && a in s.instances.entries && b in s.instances.entries && a != b && !a.Named? && !b.Named?
    requires ConceptOk(c)
    requires s'.instances == MergedInstances(s.instances, a, b, MergedId(a, b), c)
    requires s'.relations == MergedRelations(s.relations, a, b, MergedId(a, b), s'.instances.order)
    ensures Wf(s')
  {
    MergedKeyFresh(s.instances.order, a, b);
    MergedOrderDisjoint(s.instances.order, a, b);
    MergedPartsOk(s, s', a, b, MergedId(a, b), c);
  }

  /** The merged store is well formed, for any fresh key `n` whose order stays disjoint. */
  /** The instances after a merge, read off a value known to be them. */
  lemma {:induction false} MergedInstancesAt(inst: Instances, a: NodeId, b: NodeId, n: NodeId, c: Concept, r: Instances)
    requires Valid(inst) && n !in inst.entries && r == MergedInstances(inst, a, b, n, c)
    ensures Valid(r) && r.order == Without(Without(inst.order, a), b) + [n]
    ensures forall k :: k in r.entries <==> (k in inst.entries && k != a && k != b) || k == n
    ensures forall k :: k in inst.entries && k != a && k != b ==> r.entries[k] == inst.entries[k]
    ensures r.entries[n] == c
  {
    ReplacePairSpec(inst, a, b, n, c);
  }

  lemma {:induction false} MergedPartsOk(s: State, s': State, a: NodeId, b: NodeId, n: NodeId, c: Concept)
    requires Wf(s) && a != b && n != a && n != b && n !in s.instances.entries && ConceptOk(c)
    requires DisjointKeys(Without(Without(s.instances.order, a), b) + [n])
    requires s'.instances == MergedInstances(s.instances, a, b, n, c)
    requires s'.relations == MergedRelations(s.relations, a, b, n, s'.instances.order)
    ensures Wf(s')
  {
    MergedInstancesAt(s.instances, a, b, n, c, s'.instances);
    MergedConceptsOk(s, s', a, b, n, c);
    MergedRelationsOk(s, s', a, b, n);
  }

  lemma {:induction false} MergedRelationsOk(s: State, s': State, a: NodeId, b: NodeId, n: NodeId)
    requires Wf(s) && a != b && n != a && n != b && n !in s.instances.entries
    requires s'.instances.order == Without(Without(s.instances.order, a), b) + [n]
    requires DisjointKeys(s'.instances.order)
    requires forall x :: x in s'.instances.entries <==> (x in s.instances.entries && x != a && x != b) || x == n
    requires s'.relations == MergedRelations(s.relations, a, b, n, s'.instances.order)
    ensures Valid(s'.relations) && forall k :: k in s'.relations.entries ==> EdgeOk(s', k)
  {
    MergedRelationsMoves(s, a, b, n, s'.instances.order, s'.relations);
    MergedEdgesOk(s, s', a, b, n, DropBetween(s.relations, a, b));
  }


  lemma {:induction false} MergedConceptsOk(s: State, s': State, a: NodeId, b: NodeId, n: NodeId, c: Concept)
    requires Wf(s) && n !in s.instances.entries && ConceptOk(c)
    requires s'.instances == MergedInstances(s.instances, a, b, n, c)
    ensures forall k :: k in s'.instances.entries ==> ConceptOk(s'.instances.entries[k])
  {
    MergedInstancesAt(s.instances, a, b, n, c, s'.instances);
    forall k | k in s'.instances.entries
      ensures ConceptOk(s'.instances.entries[k])
    {
      if k != n {
        assert s'.instances.entries[k] == s.instances.entries[k];
      }
    }
  }

  /** Every edge of the merged store is well formed, given the edge-by-edge characterisation of the
      re-pointing loop. */
  lemma {:induction false} MergedEdgesOk(s: State, s': State, a: NodeId, b: NodeId, n: NodeId, r1: Relations)
    requires Wf(s) && n !in s.instances.entries
    requires forall x :: x in s'.instances.entries <==> (x in s.instances.entries && x != a && x != b) || x == n
    requires Valid(r1) && r1.entries == s.relations.entries - {(a, b), (b, a)}
    requires Characterized(s'.relations, r1, Items(r1), a, b, n)
    requires forall e :: e in Moved(Items(r1), a, b) <==> e in r1.entries && Touches(e, a, b)
    ensures forall k :: k in s'.relations.entries ==> EdgeOk(s', k)
  {
    forall k | k in s'.relations.entries
      ensures EdgeOk(s', k)
    {
      assert KeyCharacterized(s'.relations, r1, Items(r1), a, b, n, k);
      MergedEdgeOk(s, s', a, b, n, r1, k);
    }
  }

  // ---------------------------------------------------------------------------------------------
  // Resolution after a merge

  /** A word id of an int or non-empty tuple id. */
  function SomeToken(x: NodeId): int
    requires !x.Named? && x != Composite([])
  {
    if x.Single? then x.word else x.words[0]
  }

  /** A key that covers an int or non-empty tuple id holds its first word id. */
  lemma {:induction false} CoverHoldsToken(j: NodeId, x: NodeId)
    requires Covers(j, x) && !x.Named? && x != Composite([])
    ensures SomeToken(x) in Tokens(j)
  {
  }

  /** Under disjoint keys, an int or tuple id resolves to any key that covers it. */
  lemma {:induction false} RedirectToCover(keys: seq<NodeId>, k: NodeId, x: NodeId)
    requires DisjointKeys(keys) && k in keys && Covers(k, x) && !x.Named? && x != Composite([])
    ensures Redirect(keys, x) == k
  {
    RedirectFirstMatch(keys, x);
    var r := Redirect(keys, x);
    if r != k {
      CoverHoldsToken(k, x);
      if r in keys && Covers(r, x) {
        CoverHoldsToken(r, x);
        KeysDisjointAt(keys, r, k);
        assert false;
      }
      assert false;
    }
  }

  /** The merged key covers both operands and everything either of them covered. */
  lemma {:induction false} MergedCovers(a: NodeId, b: NodeId, x: NodeId)
    requires !a.Named? && !b.Named? && a != Composite([]) && !x.Named?
    requires Covers(a, x) || Covers(b, x) || x == a || x == b
    ensures Covers(MergedId(a, b), x)
  {
    var n := MergedId(a, b);
    MergedIdTokens(a, b);
    assert forall i :: i in Tokens(n) ==> i in n.words;
    match x
    case Single(i) =>
      assert i in Tokens(a) || i in Tokens(b);
    case Composite(ws) =>
      forall m | 0 <= m < |ws|
        ensures ws[m] in n.words
      {
        assert ws[m] in Tokens(a) || ws[m] in Tokens(b);
      }
  }

  /** After `pairwise_merge(a, b)`, `redirect_node` sends `a`, `b` and every int or tuple id that
      either of them covered to the merged node. */
  lemma {:induction false} RedirectAfterMerge(s: State, a: NodeId, b: NodeId, words: int -> string, x: NodeId)
    requires Wf(s) && Merge(s, a, b, words).Ok? && a != b
    requires x == a || x == b || (!x.Named? && x != Composite([]) && (Covers(a, x) || Covers(b, x)))
    ensures var (s', n) := Merge(s, a, b, words).value; Redirect(s'.instances.order, x) == n
  {
    var n := MergedId(a, b);
    MergeValue(s, a, b, words);
    MergedKeyFresh(s.instances.order, a, b);
    MergedKeyFresh(s.instances.order, a, b);
    ReplacePairSpec(s.instances, a, b, MergedId(a, b), MergedNode(s.instances, a, b, MergedId(a, b), words));
    MergedOrderDisjoint(s.instances.order, a, b);
    var keys := Merge(s, a, b, words).value.0.instances.order;
    assert keys == Without(Without(s.instances.order, a), b) + [n];
    assert n in keys;
    assert a != Composite([]) && b != Composite([]) by {
      var i :| 0 <= i < |s.instances.order| && s.instances.order[i] == a;
      var j :| 0 <= j < |s.instances.order| && s.instances.order[j] == b;
    }
    MergedCovers(a, b, x);
    RedirectToCover(keys, n, x);
  }

  /** What `pairwise_merge(a, b)` does to the relations: no edge mentions `a` or `b` any more; an
      edge between two other nodes is kept with its label; `(n, t)` is an edge exactly when `(a, t)`
      or `(b, t)` was, and `(t, n)` exactly when `(t, a)` or `(t, b)` was, carrying one of their
      labels. */
  lemma {:induction false} MergeRelations(s: State, a: NodeId, b: NodeId, words: int -> string)
    requires Wf(s) && Merge(s, a, b, words).Ok? && a != b
    ensures var (s', n) := Merge(s, a, b, words).value;
      (forall k :: k in s'.relations.entries ==> !Touches(k, a, b))
      && (forall k :: !Touches(k, a, b) && k.0 != n && k.1 != n ==>
            (k in s'.relations.entries <==> k in s.relations.entries)
            && (k in s.relations.entries ==> s'.relations.entries[k] == s.relations.entries[k]))
      && (forall t :: t != a && t != b ==>
            ((n, t) in s'.relations.entries <==> (a, t) in s.relations.entries || (b, t) in s.relations.entries)
            && ((n, t) in s'.relations.entries ==> s'.relations.entries[(n, t)] in PairLabels(s.relations, (a, t), (b, t))))
      && (forall t :: t != a && t != b ==>
            ((t, n) in s'.relations.entries <==> (t, a) in s.relations.entries || (t, b) in s.relations.entries)
            && ((t, n) in s'.relations.entries ==> s'.relations.entries[(t, n)] in PairLabels(s.relations, (t, a), (t, b))))
  {
    var n := MergedId(a, b);
    MergeValue(s, a, b, words);
    var rels := Merge(s, a, b, words).value.0.relations;
    MergedKeyFresh(s.instances.order, a, b);
    ReplacePairSpec(s.instances, a, b, n, MergedNode(s.instances, a, b, n, words));
    MergedOrderDisjoint(s.instances.order, a, b);
    MergedRelationsMoves(s, a, b, n, Merge(s, a, b, words).value.0.instances.order, rels);
    var r1 := DropBetween(s.relations, a, b);
    forall k
      ensures KeyCharacterized(rels, r1, Items(r1), a, b, n, k)
    {
    }
    forall k | k in rels.entries
      ensures !Touches(k, a, b)
    {
      MergedPairClean(s, rels, a, b, n, r1, k);
    }
    forall k | !Touches(k, a, b) && k.0 != n && k.1 != n
      ensures k in rels.entries <==> k in s.relations.entries
      ensures k in s.relations.entries ==> rels.entries[k] == s.relations.entries[k]
    {
      MergedPairKept(s, rels, a, b, n, r1, k);
    }
    forall t | t != a && t != b
      ensures (n, t) in rels.entries <==> (a, t) in s.relations.entries || (b, t) in s.relations.entries
      ensures (n, t) in rels.entries ==> rels.entries[(n, t)] in PairLabels(s.relations, (a, t), (b, t))
    {
      MergedPairOut(s, rels, a, b, n, r1, (n, t));
    }
    forall t | t != a && t != b
      ensures (t, n) in rels.entries <==> (t, a) in s.relations.entries || (t, b) in s.relations.entries
      ensures (t, n) in rels.entries ==> rels.entries[(t, n)] in PairLabels(s.relations, (t, a), (t, b))
    {
      MergedPairIn(s, rels, a, b, n, r1, (t, n));
    }
  }

  /** No pair of the merged relations mentions a merged node. */
  lemma {:induction false} MergedPairClean(s: State, rels: Relations, a: NodeId, b: NodeId, n: NodeId, r1: Relations, k: Edge)
    requires Wf(s) && n !in s.instances.entries && a != b && n != a && n != b
    requires Valid(r1) && r1.entries == s.relations.entries - {(a, b), (b, a)}
    requires KeyCharacterized(rels, r1, Items(r1), a, b, n, k)
    requires forall e :: e in Moved(Items(r1), a, b) <==> e in r1.entries && Touches(e, a, b)
    ensures k in rels.entries ==> !Touches(k, a, b)
  {
  }

  /** A pair that mentions neither merged node nor the new one is kept as it was. */
  lemma {:induction false} MergedPairKept(s: State, rels: Relations, a: NodeId, b: NodeId, n: NodeId, r1: Relations, k: Edge)
    requires Wf(s) && n !in s.instances.entries && a != b && n != a && n != b
    requires Valid(r1) && r1.entries == s.relations.entries - {(a, b), (b, a)}
    requires KeyCharacterized(rels, r1, Items(r1), a, b, n, k)
    requires forall e :: e in Moved(Items(r1), a, b) <==> e in r1.entries && Touches(e, a, b)
    requires !Touches(k, a, b) && k.0 != n && k.1 != n
    ensures k in rels.entries <==> k in s.relations.entries
    ensures k in s.relations.entries ==> rels.entries[k] == s.relations.entries[k]
  {
    MovedPairKey(Items(r1), k, a, b, n);
  }

  /** An edge `(n, t)` of the merged relations exists exactly when `(a, t)` or `(b, t)` did, and
      carries one of their labels. */
  lemma {:induction false} MergedPairOut(s: State, rels: Relations, a: NodeId, b: NodeId, n: NodeId, r1: Relations, k: Edge)
    requires Wf(s) && n !in s.instances.entries && a != b && n != a && n != b
    requires Valid(r1) && r1.entries == s.relations.entries - {(a, b), (b, a)}
    requires KeyCharacterized(rels, r1, Items(r1), a, b, n, k)
    requires k.0 == n && k.1 != a && k.1 != b
    ensures k in rels.entries <==> (a, k.1) in s.relations.entries || (b, k.1) in s.relations.entries
    ensures k in rels.entries ==> rels.entries[k] in PairLabels(s.relations, (a, k.1), (b, k.1))
  {
    assert EdgeOk(s, k);
    LastWriteOfSnapshot(r1, k, a, b, n);
    OutSources(s, a, b, n, r1, k.1);
    if LastWrite(Items(r1), k, a, b, n) >= 0 {
      LandedLabel(s, a, b, n, r1, k);
      var e := Items(r1)[LastWrite(Items(r1), k, a, b, n)].0;
      SourceOfOut(s, a, b, n, e, k.1);
    }
  }

  /** Some edge is moved onto `(n, t)` exactly when `(a, t)` or `(b, t)` is an edge. */
  lemma {:induction false} OutSources(s: State, a: NodeId, b: NodeId, n: NodeId, r1: Relations, t: NodeId)
    requires Wf(s) && n !in s.instances.entries && a != b && t != a && t != b
    requires r1.entries == s.relations.entries - {(a, b), (b, a)}
    ensures (exists e :: e in r1.entries && Touches(e, a, b) && Retarget(e, a, b, n) == (n, t))
        <==> (a, t) in s.relations.entries || (b, t) in s.relations.entries
  {
    if (a, t) in s.relations.entries {
      assert (a, t) in r1.entries && Touches((a, t), a, b) && Retarget((a, t), a, b, n) == (n, t);
    } else if (b, t) in s.relations.entries {
      assert (b, t) in r1.entries && Touches((b, t), a, b) && Retarget((b, t), a, b, n) == (n, t);
    } else if exists e :: e in r1.entries && Touches(e, a, b) && Retarget(e, a, b, n) == (n, t) {
      var e :| e in r1.entries && Touches(e, a, b) && Retarget(e, a, b, n) == (n, t);
      assert EdgeOk(s, e);
      SourceOfOut(s, a, b, n, e, t);
    }
  }

  /** The only edges moved onto `(n, t)` are `(a, t)` and `(b, t)`. */
  lemma {:induction false} SourceOfOut(s: State, a: NodeId, b: NodeId, n: NodeId, e: Edge, t: NodeId)
    requires n !in s.instances.entries && e in s.relations.entries && EdgeOk(s, e)
    requires (a, b) != e && (b, a) != e && t != a && t != b
    requires Touches(e, a, b) && Retarget(e, a, b, n) == (n, t)
    ensures e == (a, t) || e == (b, t)
  {
  }

  /** An edge `(t, n)` of the merged relations exists exactly when `(t, a)` or `(t, b)` did, and
      carries one of their labels. */
  lemma {:induction false} MergedPairIn(s: State, rels: Relations, a: NodeId, b: NodeId, n: NodeId, r1: Relations, k: Edge)
    requires Wf(s) && n !in s.instances.entries && a != b && n != a && n != b
    requires Valid(r1) && r1.entries == s.relations.entries - {(a, b), (b, a)}
    requires KeyCharacterized(rels, r1, Items(r1), a, b, n, k)
    requires k.1 == n && k.0 != a && k.0 != b
    ensures k in rels.entries <==> (k.0, a) in s.relations.entries || (k.0, b) in s.relations.entries
    ensures k in rels.entries ==> rels.entries[k] in PairLabels(s.relations, (k.0, a), (k.0, b))
  {
    assert EdgeOk(s, k);
    LastWriteOfSnapshot(r1, k, a, b, n);
    InSources(s, a, b, n, r1, k.0);
    if LastWrite(Items(r1), k, a, b, n) >= 0 {
      LandedLabel(s, a, b, n, r1, k);
      var e := Items(r1)[LastWrite(Items(r1), k, a, b, n)].0;
      SourceOfIn(s, a, b, n, e, k.0);
    }
  }

  /** Some edge is moved onto `(t, n)` exactly when `(t, a)` or `(t, b)` is an edge. */
  lemma {:induction false} InSources(s: State, a: NodeId, b: NodeId, n: NodeId, r1: Relations, t: NodeId)
    requires Wf(s) && n !in s.instances.entries && a != b && t != a && t != b
    requires r1.entries == s.relations.entries - {(a, b), (b, a)}
    ensures (exists e :: e in r1.entries && Touches(e, a, b) && Retarget(e, a, b, n) == (t, n))
        <==> (t, a) in s.relations.entries || (t, b) in s.relations.entries
  {
    if (t, a) in s.relations.entries {
      assert (t, a) in r1.entries && Touches((t, a), a, b) && Retarget((t, a), a, b, n) == (t, n);
    } else if (t, b) in s.relations.entries {
      assert (t, b) in r1.entries && Touches((t, b), a, b) && Retarget((t, b), a, b, n) == (t, n);
    } else if exists e :: e in r1.entries && Touches(e, a, b) && Retarget(e, a, b, n) == (t, n) {
      var e :| e in r1.entries && Touches(e, a, b) && Retarget(e, a, b, n) == (t, n);
      assert EdgeOk(s, e);
      SourceOfIn(s, a, b, n, e, t);
    }
  }

  /** The only edges moved onto `(t, n)` are `(t, a)` and `(t, b)`. */
  lemma {:induction false} SourceOfIn(s: State, a: NodeId, b: NodeId, n: NodeId, e: Edge, t: NodeId)
    requires n !in s.instances.entries && e in s.relations.entries && EdgeOk(s, e)
    requires (a, b) != e && (b, a) != e && t != a && t != b
    requires Touches(e, a, b) && Retarget(e, a, b, n) == (t, n)
    ensures e == (t, a) || e == (t, b)
  {
  }

  /** The label a moved edge lands with is the old label of that edge. */
  lemma {:induction false} LandedLabel(s: State, a: NodeId, b: NodeId, n: NodeId, r1: Relations, k: Edge)
    requires Valid(r1) && r1.entries == s.relations.entries - {(a, b), (b, a)}
    requires LastWrite(Items(r1), k, a, b, n) >= 0
    ensures var e := Items(r1)[LastWrite(Items(r1), k, a, b, n)].0;
      e in s.relations.entries && Touches(e, a, b) && Retarget(e, a, b, n) == k
      && Items(r1)[LastWrite(Items(r1), k, a, b, n)].1 == s.relations.entries[e]
  {
    var w := LastWrite(Items(r1), k, a, b, n);
    assert Items(r1)[w].0 == r1.order[w] && r1.order[w] in r1.entries;
  }

  /** The labels the two given pairs carry. */
  function PairLabels(r: Relations, x: Edge, y: Edge): set<string> {
    (if x in r.entries then {r.entries[x]} else {}) + (if y in r.entries then {r.entries[y]} else {})
  }
}
