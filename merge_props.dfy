/** What `pairwise_merge` does to the relations: every edge that touches one of the two merged
    nodes is moved onto the merged node, every other edge stays as it was, and when two edges land on
    the same pair the one later in the snapshot wins. */
module MergeProps {
  import opened PyDict
  import opened NodeIds
  import opened GraphSpec

  predicate Touches(e: Edge, a: NodeId, b: NodeId) {
    e.0 == a || e.0 == b || e.1 == a || e.1 == b
  }

  /** The pair an edge touching `a` or `b` is moved to. */
  function Retarget(e: Edge, a: NodeId, b: NodeId, n: NodeId): Edge {
    (if e.0 == a || e.0 == b then n else e.0, if e.1 == a || e.1 == b then n else e.1)
  }

  /** A snapshot edge the loop can process without tripping an assertion of `add_relation`: it does
      not mention the new node, it is no self-loop, at most one end is being merged, and its other end
      is a key. */
  predicate ItemOk(e: Edge, a: NodeId, b: NodeId, n: NodeId, keys: seq<NodeId>) {
    e.0 != n && e.1 != n && e.0 != e.1
    && !((e.0 == a || e.0 == b) && (e.1 == a || e.1 == b))
    && (e.0 != a && e.0 != b ==> e.0 in keys)
    && (e.1 != a && e.1 != b ==> e.1 in keys)
  }

  predicate RepointPre(items: seq<(Edge, string)>, a: NodeId, b: NodeId, n: NodeId, keys: seq<NodeId>) {
    a != b && n != a && n != b && DisjointKeys(keys) && n in keys
    && forall j :: 0 <= j < |items| ==> ItemOk(items[j].0, a, b, n, keys)
  }

  /** The snapshot edges that the loop moves. */
  function Moved(items: seq<(Edge, string)>, a: NodeId, b: NodeId): (r: set<Edge>)
    ensures forall e :: e in r ==> Touches(e, a, b)
    decreases |items|
  {
    if items == [] then {}
    else
      var last := items[|items| - 1].0;
      Moved(items[..|items| - 1], a, b) + (if Touches(last, a, b) then {last} else {})
  }

  /** The position of the last snapshot edge moved onto pair `k`, or -1. */
  function LastWrite(items: seq<(Edge, string)>, k: Edge, a: NodeId, b: NodeId, n: NodeId): (r: int)
    ensures -1 <= r < |items|
    ensures r >= 0 ==> Touches(items[r].0, a, b) && Retarget(items[r].0, a, b, n) == k
    decreases |items|
  {
    if items == [] then -1
    else
      var last := items[|items| - 1].0;
      if Touches(last, a, b) && Retarget(last, a, b, n) == k then |items| - 1
      else LastWrite(items[..|items| - 1], k, a, b, n)
  }

  /** Once its assertions hold, one loop iteration is a plain move of the edge. */
  lemma {:induction false} StepIsMove(r: Relations, item: (Edge, string), a: NodeId, b: NodeId, n: NodeId, keys: seq<NodeId>)
    requires a != b && n != a && n != b && DisjointKeys(keys) && n in keys
    requires ItemOk(item.0, a, b, n, keys)
    ensures RepointStep(r, item, a, b, n, keys)
         == if Touches(item.0, a, b) then Put(Remove(r, item.0), Retarget(item.0, a, b, n), item.1) else r
  {
    var e := item.0;
    RedirectKey(keys, n);
    if e.0 == a || e.0 == b {
      RedirectKey(keys, e.1);
    } else if e.1 == a || e.1 == b {
      RedirectKey(keys, e.0);
    }
  }

  /** `r` is what the loop leaves after the snapshot `items` of `r0`: a pair is present exactly when
      it was present and not moved, or some moved edge landed on it; it then carries the label of the
      last edge that landed on it, or its old label. */
  ghost predicate Characterized(r: Relations, r0: Relations, items: seq<(Edge, string)>, a: NodeId, b: NodeId, n: NodeId) {
    Valid(r) && forall k :: KeyCharacterized(r, r0, items, a, b, n, k)
  }

  predicate KeyCharacterized(r: Relations, r0: Relations, items: seq<(Edge, string)>, a: NodeId, b: NodeId, n: NodeId, k: Edge) {
    (k in r.entries <==> (k in r0.entries && k !in Moved(items, a, b)) || LastWrite(items, k, a, b, n) >= 0)
    && (k in r.entries ==>
          r.entries[k] == if LastWrite(items, k, a, b, n) >= 0 then items[LastWrite(items, k, a, b, n)].1 else r0.entries[k])
  }

  /** The loop over a snapshot is characterised by `Characterized`. */
  lemma {:induction false} RepointMoves(r0: Relations, items: seq<(Edge, string)>, a: NodeId, b: NodeId, n: NodeId, keys: seq<NodeId>)
    requires Valid(r0) && RepointPre(items, a, b, n, keys)
    requires forall e :: e in r0.entries ==> e.0 != n && e.1 != n
    ensures Characterized(Repoint(r0, items, a, b, n, keys), r0, items, a, b, n)
    decreases |items|
  {
    if items != [] {
      var m := |items| - 1;
      var init := items[..m];
      assert RepointPre(init, a, b, n, keys) by {
        forall j | 0 <= j < |init| ensures ItemOk(init[j].0, a, b, n, keys) {
          assert init[j] == items[j];
        }
      }
      RepointMoves(r0, init, a, b, n, keys);
      var r1 := Repoint(r0, init, a, b, n, keys);
      StepIsMove(r1, items[m], a, b, n, keys);
      assert items[..|items| - 1] == init;
      if Touches(items[m].0, a, b) {
        MoveStep(r1, r0, items, a, b, n);
      } else {
        KeepStep(r1, r0, items, a, b, n);
      }
    }
  }

  /** An edge that is not moved changes neither the dictionary nor the characterisation. */
  lemma {:induction false} KeepStep(r1: Relations, r0: Relations, items: seq<(Edge, string)>, a: NodeId, b: NodeId, n: NodeId)
    requires items != [] && !Touches(items[|items| - 1].0, a, b)
    requires Characterized(r1, r0, items[..|items| - 1], a, b, n)
    ensures Characterized(r1, r0, items, a, b, n)
  {
    var init := items[..|items| - 1];
    assert Moved(items, a, b) == Moved(init, a, b);
    forall k ensures KeyCharacterized(r1, r0, items, a, b, n, k) {
      assert KeyCharacterized(r1, r0, init, a, b, n, k);
      assert LastWrite(items, k, a, b, n) == LastWrite(init, k, a, b, n);
      if LastWrite(init, k, a, b, n) >= 0 {
        assert init[LastWrite(init, k, a, b, n)] == items[LastWrite(init, k, a, b, n)];
      }
    }
  }

  /** Moving an edge removes it, stores its label under its new pair, and keeps the rest. */
  lemma {:induction false} MoveStep(r1: Relations, r0: Relations, items: seq<(Edge, string)>, a: NodeId, b: NodeId, n: NodeId)
    requires items != [] && Touches(items[|items| - 1].0, a, b)
    requires items[|items| - 1].0.0 != n && items[|items| - 1].0.1 != n
    requires forall e :: e in r0.entries ==> e.0 != n && e.1 != n
    requires Characterized(r1, r0, items[..|items| - 1], a, b, n)
    ensures Characterized(Put(Remove(r1, items[|items| - 1].0), Retarget(items[|items| - 1].0, a, b, n), items[|items| - 1].1),
                          r0, items, a, b, n)
  {
    var m := |items| - 1;
    var p := items[m].0;
    var t := Retarget(p, a, b, n);
    var r := Put(Remove(r1, p), t, items[m].1);
    RemoveSpec(r1, p);
    PutSpec(Remove(r1, p), t, items[m].1);
    assert Moved(items, a, b) == Moved(items[..m], a, b) + {p};
    forall k ensures KeyCharacterized(r, r0, items, a, b, n, k) {
      assert KeyCharacterized(r1, r0, items[..m], a, b, n, k);
      if k == t {
        assert LastWrite(items, k, a, b, n) == m;
      } else {
        MoveOtherKey(r1, r, r0, items, a, b, n, k);
      }
    }
  }

  lemma {:induction false} MoveOtherKey(r1: Relations, r: Relations, r0: Relations, items: seq<(Edge, string)>, a: NodeId, b: NodeId, n: NodeId, k: Edge)
    requires items != [] && Touches(items[|items| - 1].0, a, b)
    requires items[|items| - 1].0.0 != n && items[|items| - 1].0.1 != n
    requires k != Retarget(items[|items| - 1].0, a, b, n)
    requires r.entries == (r1.entries - {items[|items| - 1].0})[Retarget(items[|items| - 1].0, a, b, n) := items[|items| - 1].1]
    requires Moved(items, a, b) == Moved(items[..|items| - 1], a, b) + {items[|items| - 1].0}
    requires KeyCharacterized(r1, r0, items[..|items| - 1], a, b, n, k)
    ensures KeyCharacterized(r, r0, items, a, b, n, k)
  {
    var m := |items| - 1;
    var init := items[..m];
    assert LastWrite(items, k, a, b, n) == LastWrite(init, k, a, b, n);
    var w := LastWrite(init, k, a, b, n);
    if w >= 0 {
      assert init[w] == items[w];
    }
    if k == items[m].0 {
      MovedPairKey(init, k, a, b, n);
    }
  }

  /** No moved edge lands on a pair that does not mention the new node. */
  lemma {:induction false} MovedPairKey(items: seq<(Edge, string)>, k: Edge, a: NodeId, b: NodeId, n: NodeId)
    requires k.0 != n && k.1 != n
    ensures LastWrite(items, k, a, b, n) == -1
  {
  }

  // ---------------------------------------------------------------------------------------------
  // The snapshot of a relation dictionary

  lemma {:induction false} MovedOfItems(items: seq<(Edge, string)>, a: NodeId, b: NodeId)
    ensures forall e :: e in Moved(items, a, b) <==> Touches(e, a, b) && exists j :: 0 <= j < |items| && items[j].0 == e
    decreases |items|
  {
    if items != [] {
      var m := |items| - 1;
      MovedOfItems(items[..m], a, b);
      assert items[..|items| - 1] == items[..m];
      forall e | Touches(e, a, b) && (exists j :: 0 <= j < |items| && items[j].0 == e)
        ensures e in Moved(items, a, b)
      {
        var j :| 0 <= j < |items| && items[j].0 == e;
        if j < m {
          assert items[..m][j].0 == e;
        }
      }
      forall e | e in Moved(items, a, b)
        ensures exists j :: 0 <= j < |items| && items[j].0 == e
      {
        if e in Moved(items[..m], a, b) {
          var j :| 0 <= j < m && items[..m][j].0 == e;
          assert items[j].0 == e;
        } else {
          assert items[m].0 == e;
        }
      }
    }
  }

  /** On the snapshot of a dictionary, the moved edges are exactly its edges touching `a` or `b`. */
  lemma {:induction false} MovedOfSnapshot(r: Relations, a: NodeId, b: NodeId)
    requires Valid(r)
    ensures forall e :: e in Moved(Items(r), a, b) <==> e in r.entries && Touches(e, a, b)
  {
    var items := Items(r);
    MovedOfItems(items, a, b);
    forall e | e in r.entries && Touches(e, a, b)
      ensures exists j :: 0 <= j < |items| && items[j].0 == e
    {
      var j :| 0 <= j < |r.order| && r.order[j] == e;
      assert items[j].0 == e;
    }
  }

  /** No edge later than the last write lands on the same pair. */
  lemma {:induction false} LastWriteIsLast(items: seq<(Edge, string)>, k: Edge, a: NodeId, b: NodeId, n: NodeId, j: int)
    requires 0 <= j < |items| && Touches(items[j].0, a, b) && Retarget(items[j].0, a, b, n) == k
    ensures j <= LastWrite(items, k, a, b, n)
    decreases |items|
  {
    var m := |items| - 1;
    if j < m && !(Touches(items[m].0, a, b) && Retarget(items[m].0, a, b, n) == k) {
      assert items[..m][j] == items[j];
      LastWriteIsLast(items[..m], k, a, b, n, j);
    }
  }

  /** On the snapshot of a dictionary, some edge lands on `k` exactly when one of its edges touching
      `a` or `b` is moved onto `k`. */
  lemma {:induction false} LastWriteOfSnapshot(r: Relations, k: Edge, a: NodeId, b: NodeId, n: NodeId)
    requires Valid(r)
    ensures LastWrite(Items(r), k, a, b, n) >= 0
        <==> exists e :: e in r.entries && Touches(e, a, b) && Retarget(e, a, b, n) == k
  {
    var items := Items(r);
    var w := LastWrite(items, k, a, b, n);
    if w >= 0 {
      var e := items[w].0;
      assert e == r.order[w] && r.order[w] in r.entries;
      assert Touches(e, a, b) && Retarget(e, a, b, n) == k;
    } else if exists e :: e in r.entries && Touches(e, a, b) && Retarget(e, a, b, n) == k {
      var e :| e in r.entries && Touches(e, a, b) && Retarget(e, a, b, n) == k;
      var j :| 0 <= j < |r.order| && r.order[j] == e;
      LastWriteIsLast(items, k, a, b, n, j);
      assert false;
    }
  }
}
