/** What the earlier graph store and its passes promise, proved about the functions of `LegacySpec`. */
module LegacyLaws {
  import opened PyStr
  import opened PyDict
  import opened NodeIds
  import opened Outcomes
  import Concepts
  import GraphSpec
  import StoreLaws
  import FusionSpec
  import opened LegacySpec

  // ---------------------------------------------------------------------------------------------
  // Single-entry operations

  /** A node is stored under its own id when that id is truthy, and otherwise under `'x'` followed
      by the number of nodes; the store stays well formed and every other node keeps its concept. */
  lemma AddInstanceSpec(inst: Instances, concept: string, idx: NodeId)
    requires Valid(inst)
    ensures var r := AddInstance(inst, concept, idx);
      var k := if Falsy(idx) then Named("x" + IntToString(|inst.order|)) else idx;
      Valid(r) && r.entries == inst.entries[k := concept]
      && (k in inst.entries ==> r.order == inst.order) && (k !in inst.entries ==> r.order == inst.order + [k])
    ensures AddInstance(inst, concept, idx).entries.Keys == inst.entries.Keys + {GraphSpec.InstanceKey(idx, |inst.order|)}
    ensures Composite([]) !in inst.entries ==> Composite([]) !in AddInstance(inst, concept, idx).entries
  {
    PutSpec(inst, GraphSpec.InstanceKey(idx, |inst.order|), concept);
  }

  /** `add_relation` succeeds exactly when both ends are nodes and the label starts with `:`, and
      then stores the label under the pair, whatever was there. */
  lemma AddRelationSpec(inst: Instances, r: Relations, h: NodeId, lbl: string, t: NodeId)
    ensures AddRelation(inst, r, h, lbl, t).Ok? <==> h in inst.entries && t in inst.entries && StartsWith(lbl, ":")
    ensures AddRelation(inst, r, h, lbl, t).Raise? ==> AddRelation(inst, r, h, lbl, t).error == AssertionError
    ensures AddRelation(inst, r, h, lbl, t).Ok? ==>
      var r1 := AddRelation(inst, r, h, lbl, t).value;
      r1.entries == r.entries[(h, t) := lbl] && (Valid(r) ==> Valid(r1))
  {
    if Valid(r) {
      PutSpec(r, (h, t), lbl);
    }
  }

  /** There is no self-loop check: an edge from a node to itself is stored, where the later store's
      `add_relation` leaves the relations as they were. */
  lemma SelfLoopKept(inst: Instances, r: Relations, h: NodeId, lbl: string, keys: seq<NodeId>)
    requires h in inst.entries && StartsWith(lbl, ":")
    ensures AddRelation(inst, r, h, lbl, h) == Ok(Put(r, (h, h), lbl))
    ensures (h, h) in AddRelation(inst, r, h, lbl, h).value.entries
    ensures GraphSpec.AddRel(r, h, lbl, h, keys) == r
  {
    PutKey(r, (h, h), lbl);
  }

  /** `get_relation` is the later store's `get_relation` with `include_inverted` always on. */
  lemma GetRelationAgrees(r: Relations, h: NodeId, t: NodeId)
    ensures GetRelation(r, h, t) == GraphSpec.GetRelation(r, h, t, true)
  {
  }

  /** Once an edge is stored, it is found from its head, and from its tail with `-of` toggled unless
      the reverse pair is itself an edge. */
  lemma GetRelationBothWays(r: Relations, h: NodeId, lbl: string, t: NodeId)
    requires h != t && (t, h) !in r.entries
    ensures GetRelation(Put(r, (h, t), lbl), h, t) == Some(lbl)
    ensures GetRelation(Put(r, (h, t), lbl), t, h) == Some(GraphSpec.Invert(lbl))
  {
    PutKey(r, (h, t), lbl);
  }

  /** `add_attribute` keeps one pair per node: it succeeds exactly when the node is a key and the
      label starts with `:`, and a second call replaces the first. */
  lemma AddAttributeSpec(s: State, idx: NodeId, rel: string, value: string, rel2: string, value2: string)
    requires Valid(s.attributes)
    ensures AddAttribute(s, idx, rel, value).Ok? <==> idx in s.instances.entries && StartsWith(rel, ":")
    ensures AddAttribute(s, idx, rel, value).Ok? ==>
      var d := AddAttribute(s, idx, rel, value).value;
      Valid(d) && d.entries == s.attributes.entries[idx := (rel, value)]
      && (StartsWith(rel2, ":") ==> AddAttribute(s.(attributes := d), idx, rel2, value2) == AddAttribute(s, idx, rel2, value2))
  {
    if AddAttribute(s, idx, rel, value).Ok? {
      PutSpec(s.attributes, idx, (rel, value));
      PutTwice(s.attributes, idx, (rel, value), (rel2, value2));
    }
  }

  // ---------------------------------------------------------------------------------------------
  // pairwise_merge: refusals and the new node

  /** Merging fails with KeyError when either node is missing, and always when a node is merged
      with itself, which is deleted twice; it fails with TypeError on a str id. */
  lemma MergeRefusals(s: State, a: NodeId, b: NodeId, words: int -> string)
    ensures Merge(s, a, a, words) == Raise(KeyError)
    ensures a !in s.instances.entries || b !in s.instances.entries ==> Merge(s, a, b, words) == Raise(KeyError)
    ensures a in s.instances.entries && b in s.instances.entries && a != b && (a.Named? || b.Named?) ==>
      Merge(s, a, b, words) == Raise(TypeError)
  {
  }

  /** No key of the store is the empty tuple: `add_instance` keys a falsy id by a name. */
  predicate NoEmptyKey(s: State) {
    Composite([]) !in s.instances.entries
  }

  /** A merged key differs from both of its parts. */
  lemma MergedIdNew(a: NodeId, b: NodeId)
    requires !a.Named? && !b.Named? && a != Composite([]) && b != Composite([])
    ensures MergedId(a, b) != a && MergedId(a, b) != b
  {
    MergedIdTokens(a, b);
    var n := MergedId(a, b);
    assert |multiset(n.words)| == |multiset(Flatten(a))| + |multiset(Flatten(b))|;
    assert |n.words| > |Flatten(a)| && |n.words| > |Flatten(b)|;
  }

  /** What a successful merge is made of: two distinct int or tuple keys, the repointed relations,
      and the state and key built from them. */
  lemma MergeOk(s: State, a: NodeId, b: NodeId, words: int -> string)
    requires Merge(s, a, b, words).Ok?
    ensures a in s.instances.entries && b in s.instances.entries && a != b && !a.Named? && !b.Named?
    ensures var n := MergedId(a, b);
      var inst := MergedInstances(s.instances, a, b, n, words);
      var r1 := GraphSpec.DropBetween(s.relations, a, b);
      var rp := Repoint(inst, r1, Snapshot(r1), a, b, n);
      rp.Ok?
      && Merge(s, a, b, words).value
         == (State(inst, rp.value, Rekey(s.attributes, Snapshot(s.attributes), a, b, n),
                   if s.top == Some(a) || s.top == Some(b) then Some(n) else s.top), n)
  {
  }

  /** A successful merge returns the key made of the sorted word ids of both nodes, whose concept
      is their surface forms joined by `_`; both nodes are gone, every other node keeps its concept,
      and the top node follows the merge. */
  lemma MergeNode(s: State, a: NodeId, b: NodeId, words: int -> string)
    requires NoEmptyKey(s) && Merge(s, a, b, words).Ok?
    ensures var (s1, n) := Merge(s, a, b, words).value;
      n == MergedId(a, b) && SortedInts(n.words) && Tokens(n) == Tokens(a) + Tokens(b)
      && multiset(n.words) == multiset(Flatten(a)) + multiset(Flatten(b))
      && n in s1.instances.entries && s1.instances.entries[n] == Join(GraphSpec.WordForms(n.words, words), "_")
      && a !in s1.instances.entries && b !in s1.instances.entries
      && (forall k :: k in s.instances.entries && k != a && k != b && k != n ==>
            k in s1.instances.entries && s1.instances.entries[k] == s.instances.entries[k])
      && s1.top == (if s.top == Some(a) || s.top == Some(b) then Some(n) else s.top)
      && NoEmptyKey(s1)
  {
    MergeOk(s, a, b, words);
    MergedIdTokens(a, b);
    MergedIdNew(a, b);
    MergedInstancesSpec(s.instances, a, b, MergedId(a, b), words);
  }

  /** The nodes after a merge: `n` with the joined surface forms, neither `a` nor `b`, and every
      other node as it was. */
  lemma MergedInstancesSpec(inst: Instances, a: NodeId, b: NodeId, n: NodeId, words: int -> string)
    requires n.Composite? && n != a && n != b
    ensures var i1 := MergedInstances(inst, a, b, n, words);
      n in i1.entries && i1.entries[n] == Join(GraphSpec.WordForms(n.words, words), "_")
      && a !in i1.entries && b !in i1.entries
      && (forall k :: k in i1.entries <==> k == n || (k in inst.entries && k != a && k != b))
      && (forall k :: k in inst.entries && k != a && k != b && k != n ==> i1.entries[k] == inst.entries[k])
  {
  }

  /** A successful merge removes both nodes and returns a node of the graph. */
  lemma MergeConsumes(s: State, a: NodeId, b: NodeId, words: int -> string)
    requires NoEmptyKey(s) && Merge(s, a, b, words).Ok?
    ensures var p := Merge(s, a, b, words).value;
      NoEmptyKey(p.0) && p.1 in p.0.instances.entries && a !in p.0.instances.entries && b !in p.0.instances.entries
  {
    MergeNode(s, a, b, words);
  }

  /** A merge adds no int or str key. */
  lemma MergeAddsNoPlainKey(s: State, a: NodeId, b: NodeId, words: int -> string, x: NodeId)
    requires Merge(s, a, b, words).Ok? && !x.Composite? && x !in s.instances.entries
    ensures x !in Merge(s, a, b, words).value.0.instances.entries
  {
    MergeOk(s, a, b, words);
  }

  /** Nothing redirects: once two nodes are merged, merging either of them again raises KeyError. */
  lemma NoRedirection(s: State, a: NodeId, b: NodeId, c: NodeId, words: int -> string)
    requires NoEmptyKey(s) && Merge(s, a, b, words).Ok?
    ensures var s1 := Merge(s, a, b, words).value.0;
      Merge(s1, a, c, words) == Raise(KeyError) && Merge(s1, c, a, words) == Raise(KeyError)
      && Merge(s1, b, c, words) == Raise(KeyError) && Merge(s1, c, b, words) == Raise(KeyError)
  {
    MergeNode(s, a, b, words);
  }

  // ---------------------------------------------------------------------------------------------
  // pairwise_merge: the edges

  /** One successful iteration of the re-pointing loop: an edge at `a` or `b` can only be one the
      relations had, other than the one this iteration handled; edges away from `a` and `b` stay;
      and the handled edge now leaves from, or enters, `n`, whose other end is a node. */
  lemma RepointStepSpec(inst: Instances, r: Relations, item: (Edge, string), a: NodeId, b: NodeId, n: NodeId)
    requires a !in inst.entries && b !in inst.entries
    requires RepointStep(inst, r, item, a, b, n).Ok?
    ensures var r1 := RepointStep(inst, r, item, a, b, n).value;
      (forall e :: e in r1.entries && Touches(e, a, b) ==> e in r.entries && e != item.0)
      && (forall e :: e in r.entries && !Touches(e, a, b) ==> e in r1.entries)
      && ((item.0.0 == a || item.0.0 == b) ==> item.0.1 in inst.entries && (n, item.0.1) in r1.entries)
      && ((item.0.1 == a || item.0.1 == b) ==> item.0.0 in inst.entries && (item.0.0, n) in r1.entries)
  {
  }

  /** Re-pointing keeps every edge away from `a` and `b`. */
  lemma {:induction false} RepointKeeps(inst: Instances, r: Relations, items: seq<(Edge, string)>, a: NodeId, b: NodeId, n: NodeId)
    requires a !in inst.entries && b !in inst.entries
    requires Repoint(inst, r, items, a, b, n).Ok?
    ensures forall e :: e in r.entries && !Touches(e, a, b) ==> e in Repoint(inst, r, items, a, b, n).value.entries
    decreases |items|
  {
    if items != [] {
      RepointStepSpec(inst, r, items[0], a, b, n);
      RepointKeeps(inst, RepointStep(inst, r, items[0], a, b, n).value, items[1..], a, b, n);
    }
  }

  /** Re-pointing leaves no edge at `a` or `b` when the snapshot held every such edge. */
  lemma {:induction false} RepointClears(inst: Instances, r: Relations, items: seq<(Edge, string)>, a: NodeId, b: NodeId, n: NodeId)
    requires a !in inst.entries && b !in inst.entries
    requires forall e :: e in r.entries && Touches(e, a, b) ==> e in Firsts(items)
    requires Repoint(inst, r, items, a, b, n).Ok?
    ensures forall e :: e in Repoint(inst, r, items, a, b, n).value.entries ==> !Touches(e, a, b)
    decreases |items|
  {
    if items != [] {
      var r1 := RepointStep(inst, r, items[0], a, b, n).value;
      RepointStepSpec(inst, r, items[0], a, b, n);
      assert Firsts(items) == [items[0].0] + Firsts(items[1..]);
      RepointClears(inst, r1, items[1..], a, b, n);
    }
  }

  /** After successful re-pointing, every snapshot edge leaving `a` or `b` leaves `n` instead, and
      every one entering them enters `n`; their other ends are nodes. */
  lemma {:induction false} RepointMoves(inst: Instances, r: Relations, items: seq<(Edge, string)>, a: NodeId, b: NodeId, n: NodeId)
    requires a !in inst.entries && b !in inst.entries
    requires Repoint(inst, r, items, a, b, n).Ok?
    ensures var r2 := Repoint(inst, r, items, a, b, n).value;
      forall j :: 0 <= j < |items| ==>
        ((items[j].0.0 == a || items[j].0.0 == b) ==> items[j].0.1 in inst.entries && (n, items[j].0.1) in r2.entries)
        && ((items[j].0.1 == a || items[j].0.1 == b) ==> items[j].0.0 in inst.entries && (items[j].0.0, n) in r2.entries)
    decreases |items|
  {
    if items != [] {
      var r1 := RepointStep(inst, r, items[0], a, b, n).value;
      RepointStepSpec(inst, r, items[0], a, b, n);
      RepointMoves(inst, r1, items[1..], a, b, n);
      RepointKeeps(inst, r1, items[1..], a, b, n);
      var r2 := Repoint(inst, r, items, a, b, n).value;
      assert r2 == Repoint(inst, r1, items[1..], a, b, n).value;
      forall j | 0 <= j < |items|
        ensures (items[j].0.0 == a || items[j].0.0 == b) ==> items[j].0.1 in inst.entries && (n, items[j].0.1) in r2.entries
        ensures (items[j].0.1 == a || items[j].0.1 == b) ==> items[j].0.0 in inst.entries && (items[j].0.0, n) in r2.entries
      {
        if j > 0 {
          assert items[j] == items[1..][j - 1];
        }
      }
    }
  }

  /** The one exception re-pointing can raise is AssertionError, when the snapshot lists distinct
      edges of the relations. */
  lemma {:induction false} RepointErrors(inst: Instances, r: Relations, items: seq<(Edge, string)>, a: NodeId, b: NodeId, n: NodeId)
    requires a !in inst.entries && b !in inst.entries
    requires NoDuplicates(Firsts(items)) && forall j :: 0 <= j < |items| ==> items[j].0 in r.entries
    requires Repoint(inst, r, items, a, b, n).Raise?
    ensures Repoint(inst, r, items, a, b, n).error == AssertionError
    decreases |items|
  {
    var st := RepointStep(inst, r, items[0], a, b, n);
    if st.Ok? {
      var r1 := st.value;
      assert Firsts(items) == [items[0].0] + Firsts(items[1..]);
      forall j | 0 <= j < |items| - 1 ensures items[1..][j].0 in r1.entries {
        assert items[1..][j] == items[j + 1];
        assert Firsts(items)[j + 1] != Firsts(items)[0];
      }
      RepointErrors(inst, r1, items[1..], a, b, n);
    }
  }

  /** The relations once the edges between `a` and `b` are deleted stay well formed, keep every
      other edge, and the snapshot taken of them lists each of their edges once. */
  lemma DropBetweenSpec(r: Relations, a: NodeId, b: NodeId)
    requires Valid(r)
    ensures var r1 := GraphSpec.DropBetween(r, a, b);
      Valid(r1) && Firsts(Snapshot(r1)) == r1.order && NoDuplicates(Firsts(Snapshot(r1)))
      && (forall j :: 0 <= j < |Snapshot(r1)| ==> Snapshot(r1)[j].0 in r1.entries)
      && forall e :: e in r1.entries <==> e in r.entries && e != (a, b) && e != (b, a)
  {
    var r0 := if (a, b) in r.entries then Remove(r, (a, b)) else r;
    RemoveSpec(r, (a, b));
    RemoveSpec(r0, (b, a));
    var r1 := GraphSpec.DropBetween(r, a, b);
    assert Firsts(Snapshot(r1)) == r1.order;
  }

  /** Every edge of well-formed relations is in their snapshot. */
  lemma SnapshotHas(r: Relations, e: Edge) returns (j: nat)
    requires Valid(r) && e in r.entries
    ensures j < |Snapshot(r)| && Snapshot(r)[j].0 == e
  {
    assert e in r.order;
    j :| 0 <= j < |r.order| && r.order[j] == e;
  }

  /** Re-pointing over a list of the relations' edges: no edge is left at `a` or `b`, edges away
      from them stay, and each edge at one of them now has `n` in its place. */
  lemma RepointListed(inst: Instances, r1: Relations, items: seq<(Edge, string)>, a: NodeId, b: NodeId, n: NodeId)
    requires a !in inst.entries && b !in inst.entries
    requires forall e :: e in r1.entries ==> e in Firsts(items)
    requires Repoint(inst, r1, items, a, b, n).Ok?
    ensures var r2 := Repoint(inst, r1, items, a, b, n).value;
      (forall e :: e in r2.entries ==> !Touches(e, a, b))
      && (forall e :: e in r1.entries && !Touches(e, a, b) ==> e in r2.entries)
      && (forall e :: e in r1.entries && (e.0 == a || e.0 == b) ==> e.1 in inst.entries && (n, e.1) in r2.entries)
      && (forall e :: e in r1.entries && (e.1 == a || e.1 == b) ==> e.0 in inst.entries && (e.0, n) in r2.entries)
  {
    RepointKeeps(inst, r1, items, a, b, n);
    RepointClears(inst, r1, items, a, b, n);
    RepointMoves(inst, r1, items, a, b, n);
    forall e | e in r1.entries
      ensures (e.0 == a || e.0 == b) ==> e.1 in inst.entries && (n, e.1) in Repoint(inst, r1, items, a, b, n).value.entries
      ensures (e.1 == a || e.1 == b) ==> e.0 in inst.entries && (e.0, n) in Repoint(inst, r1, items, a, b, n).value.entries
    {
      var j :| 0 <= j < |items| && Firsts(items)[j] == e;
    }
  }

  /** Re-pointing the relations that are left once the edges between `a` and `b` are deleted:
      the facts `MergeEdges` states, in terms of the relations before the merge. */
  lemma DroppedRepoint(r: Relations, inst: Instances, a: NodeId, b: NodeId, n: NodeId)
    requires Valid(r) && a !in inst.entries && b !in inst.entries
    requires var r1 := GraphSpec.DropBetween(r, a, b); Repoint(inst, r1, Snapshot(r1), a, b, n).Ok?
    ensures var r1 := GraphSpec.DropBetween(r, a, b);
      var r2 := Repoint(inst, r1, Snapshot(r1), a, b, n).value;
      (forall e :: e in r2.entries ==> !Touches(e, a, b))
      && (forall e :: e in r.entries && !Touches(e, a, b) ==> e in r2.entries)
      && (forall e :: e in r.entries && (e.0 == a || e.0 == b) && e.1 != a && e.1 != b ==>
            e.1 in inst.entries && (n, e.1) in r2.entries)
      && (forall e :: e in r.entries && (e.1 == a || e.1 == b) && e.0 != a && e.0 != b ==>
            e.0 in inst.entries && (e.0, n) in r2.entries)
  {
    var r1 := GraphSpec.DropBetween(r, a, b);
    DropBetweenSpec(r, a, b);
    RepointListed(inst, r1, Snapshot(r1), a, b, n);
  }

  /** After a successful merge no edge has `a` or `b` at either end; every edge away from them
      stays; every edge from one of them to a third node now leaves `n`, and every edge from a third
      node into one of them now enters `n`. */
  lemma MergeEdges(s: State, a: NodeId, b: NodeId, words: int -> string)
    requires NoEmptyKey(s) && Valid(s.relations) && Merge(s, a, b, words).Ok?
    ensures var (s1, n) := Merge(s, a, b, words).value;
      (forall e :: e in s1.relations.entries ==> !Touches(e, a, b))
      && (forall e :: e in s.relations.entries && !Touches(e, a, b) ==> e in s1.relations.entries)
      && (forall e :: e in s.relations.entries && (e.0 == a || e.0 == b) && e.1 != a && e.1 != b ==>
            e.1 in s1.instances.entries && (n, e.1) in s1.relations.entries)
      && (forall e :: e in s.relations.entries && (e.1 == a || e.1 == b) && e.0 != a && e.0 != b ==>
            e.0 in s1.instances.entries && (e.0, n) in s1.relations.entries)
  {
    MergeOk(s, a, b, words);
    MergedIdNew(a, b);
    var n := MergedId(a, b);
    MergedInstancesSpec(s.instances, a, b, n, words);
    DroppedRepoint(s.relations, MergedInstances(s.instances, a, b, n, words), a, b, n);
  }

  /** With no self-loop guard, a node can carry an edge to itself, and merging it then fails: the
      edge is moved to leave the new node for an end that is no longer a node. */
  lemma MergeSelfLoop(s: State, a: NodeId, b: NodeId, words: int -> string)
    requires NoEmptyKey(s) && Valid(s.relations)
    requires a in s.instances.entries && b in s.instances.entries && a != b && !a.Named? && !b.Named?
    requires (a, a) in s.relations.entries
    ensures Merge(s, a, b, words) == Raise(AssertionError)
  {
    MergedIdNew(a, b);
    var n := MergedId(a, b);
    var inst := MergedInstances(s.instances, a, b, n, words);
    MergedInstancesSpec(s.instances, a, b, n, words);
    var r1 := GraphSpec.DropBetween(s.relations, a, b);
    DropBetweenSpec(s.relations, a, b);
    var items := Snapshot(r1);
    var j := SnapshotHas(r1, (a, a));
    if Repoint(inst, r1, items, a, b, n).Ok? {
      RepointMoves(inst, r1, items, a, b, n);
      assert false;
    }
    RepointErrors(inst, r1, items, a, b, n);
  }

  // ---------------------------------------------------------------------------------------------
  // pairwise_merge: the attributes

  /** The attribute that ends up on the merged node: the last attribute of `a` or `b` in the
      order the loop visits them, if any. */
  function LastMoved(items: seq<(NodeId, (string, string))>, a: NodeId, b: NodeId): Option<(string, string)>
    decreases |items|
  {
    if items == [] then None
    else match LastMoved(items[1..], a, b)
      case Some(x) => Some(x)
      case None => if items[0].0 == a || items[0].0 == b then Some(items[0].1) else None
  }

  /** The attribute loop leaves the attribute of every node other than `a`, `b` and `n` alone. */
  lemma {:induction false} RekeyOthers(d: Attributes, items: seq<(NodeId, (string, string))>, a: NodeId, b: NodeId, n: NodeId, k: NodeId)
    requires k != a && k != b && k != n
    ensures var d2 := Rekey(d, items, a, b, n);
      (k in d2.entries <==> k in d.entries) && (k in d.entries ==> d2.entries[k] == d.entries[k])
    decreases |items|
  {
    if items != [] {
      RekeyOthers(RekeyStep(d, items[0], a, b, n), items[1..], a, b, n, k);
    }
  }

  /** The attribute loop gives `n` the last attribute of `a` or `b` it visits, and leaves `n`'s
      own attribute alone when it visits none. */
  lemma {:induction false} RekeyLast(d: Attributes, items: seq<(NodeId, (string, string))>, a: NodeId, b: NodeId, n: NodeId)
    requires n != a && n != b
    ensures var d2 := Rekey(d, items, a, b, n);
      (LastMoved(items, a, b).Some? ==> n in d2.entries && d2.entries[n] == LastMoved(items, a, b).value)
      && (LastMoved(items, a, b).None? ==> (n in d2.entries <==> n in d.entries) && (n in d.entries ==> d2.entries[n] == d.entries[n]))
    decreases |items|
  {
    if items != [] {
      RekeyLast(RekeyStep(d, items[0], a, b, n), items[1..], a, b, n);
    }
  }

  /** After the attribute loop, `a` or `b` has an attribute only when it had one and the loop
      never visited it. */
  lemma {:induction false} RekeyGone(d: Attributes, items: seq<(NodeId, (string, string))>, a: NodeId, b: NodeId, n: NodeId, k: NodeId)
    requires n != a && n != b && (k == a || k == b)
    requires k in Rekey(d, items, a, b, n).entries
    ensures k in d.entries && forall j :: 0 <= j < |items| ==> items[j].0 != k
    decreases |items|
  {
    if items != [] {
      RekeyGone(RekeyStep(d, items[0], a, b, n), items[1..], a, b, n, k);
      forall j | 0 <= j < |items| ensures items[j].0 != k {
        if j > 0 {
          assert items[j] == items[1..][j - 1];
        }
      }
    }
  }

  /** The attribute loop moves attributes of `a` and `b` to `n`, the last one visited winning;
      every other node keeps its attribute, and `a` or `b` keeps one only when the loop never
      visited it. */
  lemma RekeySpec(d: Attributes, items: seq<(NodeId, (string, string))>, a: NodeId, b: NodeId, n: NodeId)
    requires n != a && n != b
    ensures var d2 := Rekey(d, items, a, b, n);
      (forall k :: k != a && k != b && k != n ==>
         (k in d2.entries <==> k in d.entries) && (k in d.entries ==> d2.entries[k] == d.entries[k]))
      && (LastMoved(items, a, b).Some? ==> n in d2.entries && d2.entries[n] == LastMoved(items, a, b).value)
      && (LastMoved(items, a, b).None? ==> (n in d2.entries <==> n in d.entries) && (n in d.entries ==> d2.entries[n] == d.entries[n]))
      && (forall k :: (k == a || k == b) && k in d2.entries ==> k in d.entries && forall j :: 0 <= j < |items| ==> items[j].0 != k)
  {
    forall k | k != a && k != b && k != n
      ensures var d2 := Rekey(d, items, a, b, n);
        (k in d2.entries <==> k in d.entries) && (k in d.entries ==> d2.entries[k] == d.entries[k])
    {
      RekeyOthers(d, items, a, b, n, k);
    }
    RekeyLast(d, items, a, b, n);
    forall k | (k == a || k == b) && k in Rekey(d, items, a, b, n).entries
      ensures k in d.entries && forall j :: 0 <= j < |items| ==> items[j].0 != k
    {
      RekeyGone(d, items, a, b, n, k);
    }
  }

  /** After a successful merge neither `a` nor `b` has an attribute; the merged node has the last
      of their attributes in dictionary order (or its own, when they had none); every other node
      keeps its attribute. */
  lemma MergeAttributes(s: State, a: NodeId, b: NodeId, words: int -> string)
    requires NoEmptyKey(s) && Valid(s.attributes) && Merge(s, a, b, words).Ok?
    ensures var n := Merge(s, a, b, words).value.1;
      var moved := LastMoved(Items(s.attributes), a, b);
      var d := s.attributes.entries;
      var d2 := Merge(s, a, b, words).value.0.attributes.entries;
      a !in d2 && b !in d2
      && (moved.Some? ==> n in d2 && d2[n] == moved.value)
      && (moved.None? ==> (n in d2 <==> n in d) && (n in d ==> d2[n] == d[n]))
      && (forall k :: k != a && k != b && k != n ==> (k in d2 <==> k in d) && (k in d ==> d2[k] == d[k]))
  {
    MergeOk(s, a, b, words);
    MergedIdNew(a, b);
    var items := Items(s.attributes);
    RekeySpec(s.attributes, items, a, b, MergedId(a, b));
  }

  // ---------------------------------------------------------------------------------------------
  // amalgamate

  /** The fold stops at the first falsy id: what follows it is never merged. */
  lemma {:induction false} MergeAllStops(s: State, acc: NodeId, rest: seq<NodeId>, k: nat, words: int -> string)
    requires k < |rest| && Falsy(rest[k])
    ensures MergeAll(s, acc, rest, words) == MergeAll(s, acc, rest[..k], words)
    decreases k
  {
    if k > 0 && !Falsy(rest[0]) {
      var pre, tail := rest[..k], rest[1..];
      assert pre[0] == rest[0] && tail[k - 1] == rest[k] && pre[1..] == tail[..k - 1];
      MergeAllStep(s, acc, rest, words);
      MergeAllStep(s, acc, pre, words);
      var m := Merge(s, acc, rest[0], words);
      if m.Ok? {
        MergeAllStops(m.value.0, m.value.1, tail, k - 1, words);
      }
    }
  }

  /** One turn of the fold: a failed merge ends it with the merge's exception, a successful one
      continues from the merged node. */
  lemma MergeAllStep(s: State, acc: NodeId, rest: seq<NodeId>, words: int -> string)
    requires rest != [] && !Falsy(rest[0])
    ensures var m := Merge(s, acc, rest[0], words);
      MergeAll(s, acc, rest, words) == if m.Raise? then Raise(m.error) else MergeAll(m.value.0, m.value.1, rest[1..], words)
  {
  }

  /** The fold over two runs of truthy ids is the fold over the first, then over the second from
      where the first ended. */
  lemma {:induction false} MergeAllAppend(s: State, acc: NodeId, xs: seq<NodeId>, ys: seq<NodeId>, words: int -> string)
    requires forall i :: 0 <= i < |xs| ==> !Falsy(xs[i])
    ensures MergeAll(s, acc, xs + ys, words)
      == match MergeAll(s, acc, xs, words)
         case Raise(e) => Raise(e)
         case Ok(p) => MergeAll(p.0, p.1, ys, words)
    decreases |xs|
  {
    if xs == [] {
      assert xs + ys == ys;
    } else {
      assert (xs + ys)[0] == xs[0];
      assert (xs + ys)[1..] == xs[1..] + ys;
      MergeAllStep(s, acc, xs + ys, words);
      MergeAllStep(s, acc, xs, words);
      var m := Merge(s, acc, xs[0], words);
      if m.Ok? {
        MergeAllAppend(m.value.0, m.value.1, xs[1..], ys, words);
      }
    }
  }

  /** Ids that are truthy ints. */
  predicate WordIds(ns: seq<NodeId>) {
    forall i :: 0 <= i < |ns| ==> ns[i].Single? && ns[i] != Single(0)
  }

  /** The fold adds no int or str key. */
  lemma {:induction false} MergeAllAddsNoPlainKey(s: State, acc: NodeId, rest: seq<NodeId>, words: int -> string, x: NodeId)
    requires MergeAll(s, acc, rest, words).Ok? && !x.Composite? && x !in s.instances.entries
    ensures x !in MergeAll(s, acc, rest, words).value.0.instances.entries
    decreases |rest|
  {
    if rest != [] && !Falsy(rest[0]) {
      MergeAllStep(s, acc, rest, words);
      var p := Merge(s, acc, rest[0], words).value;
      MergeAddsNoPlainKey(s, acc, rest[0], words, x);
      MergeAllAddsNoPlainKey(p.0, p.1, rest[1..], words, x);
    }
  }

  /** A successful fold over word ids removes every id it merged and ends on a node of the graph. */
  lemma {:induction false} MergeAllConsumes(s: State, acc: NodeId, rest: seq<NodeId>, words: int -> string)
    requires NoEmptyKey(s) && WordIds(rest) && MergeAll(s, acc, rest, words).Ok?
    ensures var s1 := MergeAll(s, acc, rest, words).value.0;
      NoEmptyKey(s1)
      && (forall i :: 0 <= i < |rest| ==> rest[i] !in s1.instances.entries)
      && (rest != [] ==> MergeAll(s, acc, rest, words).value.1 in s1.instances.entries
                         && (!acc.Composite? ==> acc !in s1.instances.entries))
    decreases |rest|
  {
    if rest != [] {
      MergeAllStep(s, acc, rest, words);
      var p := Merge(s, acc, rest[0], words).value;
      MergeConsumes(s, acc, rest[0], words);
      MergeAllConsumes(p.0, p.1, rest[1..], words);
      MergeAllAddsNoPlainKey(p.0, p.1, rest[1..], words, rest[0]);
      if !acc.Composite? {
        MergeAllAddsNoPlainKey(p.0, p.1, rest[1..], words, acc);
      }
      var s1 := MergeAll(s, acc, rest, words).value.0;
      forall i | 0 <= i < |rest| ensures rest[i] !in s1.instances.entries {
        if i > 0 {
          assert rest[i] == rest[1..][i - 1];
        }
      }
    }
  }

  /** A successful `amalgamate` of word ids removes every one of them and returns a node of the
      graph. */
  lemma AmalgamateConsumes(s: State, nodes: seq<NodeId>, words: int -> string)
    requires NoEmptyKey(s) && WordIds(nodes) && Amalgamate(s, nodes, words).Ok?
    ensures var s1 := Amalgamate(s, nodes, words).value.0;
      NoEmptyKey(s1) && Amalgamate(s, nodes, words).value.1 in s1.instances.entries
      && forall i :: 0 <= i < |nodes| ==> nodes[i] !in s1.instances.entries
  {
    if |nodes| == 2 {
      MergeConsumes(s, nodes[0], nodes[1], words);
    } else {
      MergeAllConsumes(s, nodes[0], nodes[1..], words);
      var s1 := Amalgamate(s, nodes, words).value.0;
      forall i | 0 <= i < |nodes| ensures nodes[i] !in s1.instances.entries {
        if i > 0 {
          assert nodes[i] == nodes[1..][i - 1];
        }
      }
    }
  }

  /** With no redirection, amalgamating again with one of the first two ids already merged fails
      with KeyError. */
  lemma AmalgamateAgain(s: State, nodes: seq<NodeId>, ys: seq<NodeId>, words: int -> string)
    requires NoEmptyKey(s) && WordIds(nodes) && Amalgamate(s, nodes, words).Ok?
    requires |ys| >= 2 && (ys[0] in nodes || ys[1] in nodes) && (|ys| == 2 || !Falsy(ys[1]))
    ensures Amalgamate(Amalgamate(s, nodes, words).value.0, ys, words) == Raise(KeyError)
  {
    AmalgamateConsumes(s, nodes, words);
  }

  // ---------------------------------------------------------------------------------------------
  // The passes

  /** After the node loop of `parse_to_penman`, every word whose id is truthy and used once is a
      node with its surface form, and every other node keeps its concept. */
  lemma {:induction false} DepInstancesSpec(inst: Instances, ws: seq<FusionSpec.DepWord>)
    requires forall i :: 0 <= i < |ws| ==> ws[i].wordId != 0
    requires forall i, j :: 0 <= i < j < |ws| ==> ws[i].wordId != ws[j].wordId
    ensures var r := DepInstances(inst, ws);
      (forall i :: 0 <= i < |ws| ==> Single(ws[i].wordId) in r.entries && r.entries[Single(ws[i].wordId)] == ws[i].wordForm)
      && (forall k :: k in inst.entries && (forall i :: 0 <= i < |ws| ==> k != Single(ws[i].wordId)) ==>
            k in r.entries && r.entries[k] == inst.entries[k])
    decreases |ws|
  {
    if ws != [] {
      var inst1 := AddInstance(inst, ws[0].wordForm, Single(ws[0].wordId));
      PutKey(inst, Single(ws[0].wordId), ws[0].wordForm);
      DepInstancesSpec(inst1, ws[1..]);
      var r := DepInstances(inst, ws);
      forall i | 0 <= i < |ws|
        ensures Single(ws[i].wordId) in r.entries && r.entries[Single(ws[i].wordId)] == ws[i].wordForm
      {
        if i > 0 {
          assert ws[i] == ws[1..][i - 1];
        } else {
          forall j | 0 <= j < |ws| - 1 ensures Single(ws[0].wordId) != Single(ws[1..][j].wordId) {
            assert ws[1..][j] == ws[j + 1];
          }
        }
      }
      forall k | k in inst.entries && (forall i :: 0 <= i < |ws| ==> k != Single(ws[i].wordId))
        ensures k in r.entries && r.entries[k] == inst.entries[k]
      {
        assert k != Single(ws[0].wordId);
        forall j | 0 <= j < |ws| - 1 ensures k != Single(ws[1..][j].wordId) {
          assert ws[1..][j] == ws[j + 1];
        }
      }
    }
  }

  /** The root word becomes the top node; any other word gets the edge `:<label>.dep` from its
      head, which succeeds exactly when both are nodes; neither changes the nodes or attributes. */
  lemma DepLinkSpec(s: State, w: FusionSpec.DepWord)
    ensures w.head == -1 ==> DepLink(s, w) == Ok(s.(top := Some(Single(w.wordId))))
    ensures w.head != -1 ==>
      (DepLink(s, w).Ok? <==> Single(w.head) in s.instances.entries && Single(w.wordId) in s.instances.entries)
      && (DepLink(s, w).Raise? ==> DepLink(s, w).error == AssertionError)
      && (DepLink(s, w).Ok? ==>
            DepLink(s, w).value == s.(relations := Put(s.relations, (Single(w.head), Single(w.wordId)), ":" + w.deprel + ".dep")))
  {
    assert StartsWith(DepLabel(w.deprel), ":");
  }

  /** The roles one predicate writes: the role of the last argument of each word id. */
  function LastRole(args: seq<FusionSpec.SrlArgument>, w: int): Option<string>
    decreases |args|
  {
    if args == [] then None
    else match LastRole(args[1..], w)
      case Some(x) => Some(x)
      case None => if args[0].wordId == w then Some(args[0].role) else None
  }

  /** The role pass writes `:<label>.srl` under (predicate, argument) for the last argument of each
      word id, with no check that either is a node, and leaves every other edge as it was. */
  lemma {:induction false} ArgWritesSpec(r: Relations, p: NodeId, args: seq<FusionSpec.SrlArgument>)
    ensures var r2 := ArgWrites(r, p, args);
      (forall w :: LastRole(args, w).Some? ==>
         (p, Single(w)) in r2.entries && r2.entries[(p, Single(w))] == ":" + LastRole(args, w).value + ".srl")
      && (forall e: Edge :: (e.0 != p || !e.1.Single? || LastRole(args, e.1.word).None?) ==>
            (e in r2.entries <==> e in r.entries) && (e in r.entries ==> r2.entries[e] == r.entries[e]))
    decreases |args|
  {
    if args != [] {
      ArgWritesSpec(Put(r, (p, Single(args[0].wordId)), SrlLabel(args[0].role)), p, args[1..]);
    }
  }

  /** The role pass never removes an edge. */
  lemma {:induction false} SrlPassKeeps(r: Relations, srls: seq<FusionSpec.Srl>, spanToWord: (int, int) -> (int, int))
    ensures forall e :: e in r.entries ==> e in SrlPass(r, srls, spanToWord).entries
    decreases |srls|
  {
    if srls != [] {
      var p := PredicateWord(srls[0].pred, spanToWord);
      ArgWritesSpec(r, p, srls[0].arguments);
      SrlPassKeeps(ArgWrites(r, p, srls[0].arguments), srls[1..], spanToWord);
    }
  }

  /** An entity whose span covers fewer than two words is skipped. */
  lemma NerItemSkip(s: State, item: FusionSpec.NeItem, spanToWord: (int, int) -> (int, int), words: int -> string, wb: int, we: int)
    requires spanToWord(item.begin, item.end) == (wb, we) && wb >= we
    ensures NerItem(s, item, spanToWord, words) == Ok(s)
  {
  }

  /** An entity whose span covers words `wb..we`, at least two, amalgamates exactly those words. */
  lemma NerItemSpan(s: State, item: FusionSpec.NeItem, spanToWord: (int, int) -> (int, int), words: int -> string, wb: int, we: int)
    requires spanToWord(item.begin, item.end) == (wb, we) && wb < we
    ensures NerItem(s, item, spanToWord, words) == StateOf(Amalgamate(s, FusionSpec.Range(wb, we + 1), words))
  {
  }

  /** With no redirection, once an entity over words `wb..we` is amalgamated, a later entity over
      `wb2..we2` whose first or second word it covered fails with KeyError. */
  lemma NerOverlap(s: State, item1: FusionSpec.NeItem, item2: FusionSpec.NeItem, spanToWord: (int, int) -> (int, int),
                   words: int -> string, wb: int, we: int, wb2: int, we2: int)
    requires NoEmptyKey(s)
    requires spanToWord(item1.begin, item1.end) == (wb, we) && 0 < wb < we
    requires spanToWord(item2.begin, item2.end) == (wb2, we2) && 0 <= wb2 < we2 && wb - 1 <= wb2 <= we
    requires NerItem(s, item1, spanToWord, words).Ok?
    ensures NerItem(NerItem(s, item1, spanToWord, words).value, item2, spanToWord, words) == Raise(KeyError)
  {
    var span := FusionSpec.Range(wb, we + 1);
    var ys := FusionSpec.Range(wb2, we2 + 1);
    NerItemSpan(s, item1, spanToWord, words, wb, we);
    var s1 := Amalgamate(s, span, words).value.0;
    assert WordIds(span);
    if wb2 == wb - 1 {
      assert ys[1] == span[0];
    } else {
      assert ys[0] == span[wb2 - wb];
    }
    AmalgamateAgain(s, span, ys, words);
    NerItemSpan(s1, item2, spanToWord, words, wb2, we2);
  }

  // ---------------------------------------------------------------------------------------------
  // render

  /** The triples of `render`: one `:instance` triple per node with its concept, then one triple
      per edge, then one per attribute, each group in dictionary order. */
  lemma RenderSpec(s: State)
    requires Valid(s.instances) && Valid(s.relations) && Valid(s.attributes)
    ensures |RenderTriples(s)| == |s.instances.order| + |s.relations.order| + |s.attributes.order|
    ensures forall i :: 0 <= i < |s.instances.order| ==>
      var k := s.instances.order[i];
      RenderTriples(s)[i] == Concepts.Triple(Concepts.Node(k), ":instance", Concepts.Text(s.instances.entries[k]))
    ensures forall i :: 0 <= i < |s.relations.order| ==>
      var e := s.relations.order[i];
      RenderTriples(s)[|s.instances.order| + i] == Concepts.Triple(Concepts.Node(e.0), s.relations.entries[e], Concepts.Node(e.1))
    ensures forall i :: 0 <= i < |s.attributes.order| ==>
      var k := s.attributes.order[i];
      RenderTriples(s)[|s.instances.order| + |s.relations.order| + i]
        == Concepts.Triple(Concepts.Node(k), s.attributes.entries[k].0, Concepts.Text(s.attributes.entries[k].1))
  {
    StoreLaws.EdgeTriplesSpec(Items(s.relations));
  }
}
