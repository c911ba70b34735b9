/** The AMR graph store as an object: its `instances`, `relations` and `top` fields change in place,
    and every method is proved to leave them exactly as the functions of `GraphSpec` say. The word
    surface forms (`annotations.word`) are a function fixed at construction. */
module GraphStore {
  import opened PyStr
  import opened PyDict
  import opened NodeIds
  import opened Concepts
  import opened Outcomes
  import opened GraphSpec
  import MergeProps
  import MergeLaws
  import StoreLaws

  class AMRGraph {
    var instances: Instances
    var relations: Relations
    var top: Option<NodeId>
    const words: int -> string

    /** The fields as one value. */
    function Current(): State
      reads this
    {
      State(instances, relations, top)
    }

    /** The store's invariant. */
    predicate Valid()
      reads this
    {
      Wf(Current())
    }

    /** An empty graph without a top node. */
    constructor(words: int -> string)
      ensures Current() == State(Empty(), Empty(), None) && this.words == words
      ensures Valid()
    {
      instances := Empty();
      relations := Empty();
      top := None;
      this.words := words;
    }

    /** `add_instance(node_idx, concept_type, mapping)` */
    method AddInstance(idx: NodeId, conceptType: string, mapping: set<int>)
      modifies this
      ensures instances == GraphSpec.AddInstance(old(instances), idx, conceptType, mapping)
      ensures relations == old(relations) && top == old(top)
    {
      instances := Put(instances, InstanceKey(idx, |instances.order|), NewIndexFree(conceptType, Some(mapping)));
    }

    /** `redirect_node(node_idx)`: scan the keys in dictionary order for the first that covers `x`. */
    method RedirectNode(x: NodeId) returns (r: NodeId)
      ensures r == Redirect(instances.order, x)
    {
      var i := 0;
      while i < |instances.order|
        invariant 0 <= i <= |instances.order|
        invariant Redirect(instances.order[i..], x) == Redirect(instances.order, x)
      {
        var k := instances.order[i];
        if Covers(k, x) {
          return k;
        }
        assert instances.order[i..][1..] == instances.order[i + 1..];
        i := i + 1;
      }
      return x;
    }

    /** `add_relation(head_idx, relation, tail_idx)` */
    method AddRelation(h: NodeId, lbl: string, t: NodeId) returns (r: Outcome<()>)
      modifies this
      ensures instances == old(instances) && top == old(top)
      ensures match GraphSpec.AddRelation(old(Current()), h, lbl, t)
        case Ok(rels) => r == Ok(()) && relations == rels
        case Raise(e) => r == Raise(e) && relations == old(relations)
    {
      if h !in instances.entries || t !in instances.entries || !StartsWith(lbl, ":") {
        return Raise(AssertionError);
      }
      var rh := RedirectNode(h);
      var rt := RedirectNode(t);
      if rh != rt {
        relations := Put(relations, (h, t), lbl);
      }
      return Ok(());
    }

    /** `get_relation(head_idx, tail_idx, include_inverted)` */
    method GetRelation(h: NodeId, t: NodeId, inverted: bool) returns (r: Option<string>)
      ensures r == GraphSpec.GetRelation(relations, h, t, inverted)
    {
      if (h, t) in relations.entries {
        return Some(relations.entries[(h, t)]);
      } else if inverted && (t, h) in relations.entries {
        var lbl := relations.entries[(t, h)];
        return Some(if EndsWith(lbl, "-of") then lbl[..|lbl| - 3] else lbl + "-of");
      }
      return None;
    }

    /** `del_relation(head_idx, tail_idx, include_inverted)` */
    method DelRelation(h: NodeId, t: NodeId, inverted: bool) returns (r: Outcome<()>)
      modifies this
      ensures instances == old(instances) && top == old(top)
      ensures match GraphSpec.DelRelation(old(relations), h, t, inverted)
        case Ok(rels) => r == Ok(()) && relations == rels
        case Raise(e) => r == Raise(e) && relations == old(relations)
    {
      if (h, t) in relations.entries {
        relations := Remove(relations, (h, t));
      } else if inverted && (t, h) in relations.entries {
        relations := Remove(relations, (t, h));
      } else {
        return Raise(KeyError);
      }
      return Ok(());
    }

    /** `add_attribute(node_idx, relation, value)` */
    method AddAttribute(idx: NodeId, relation: string, value: string) returns (r: Outcome<()>)
      modifies this
      ensures relations == old(relations) && top == old(top)
      ensures match AddAttributeAt(old(instances), idx, relation, value)
        case Ok(inst) => r == Ok(()) && instances == inst
        case Raise(e) => r == Raise(e) && instances == old(instances)
    {
      if idx !in instances.entries || !StartsWith(relation, ":") {
        return Raise(AssertionError);
      }
      var c := instances.entries[idx];
      instances := Put(instances, idx, c.(attributes := Put(c.attributes, relation, value)));
      return Ok(());
    }

    /** `pairwise_merge(node_a, node_b)` */
    method PairwiseMerge(a: NodeId, b: NodeId) returns (r: Outcome<NodeId>)
      requires Valid()
      modifies this
      ensures Valid()
      ensures var m := Merge(old(Current()), a, b, words);
        if m.Ok? then
          r == Ok(m.value.1)
          && instances == m.value.0.instances && relations == m.value.0.relations && top == m.value.0.top
        else r == Raise(m.error) && instances == old(instances) && relations == old(relations) && top == old(top)
    {
      if a !in instances.entries || b !in instances.entries {
        return Raise(AssertionError);
      }
      if a == b {
        return Ok(a);
      }
      if a.Named? || b.Named? {
        return Raise(TypeError);
      }
      ghost var s := Current();
      assert Wf(s) && a in s.instances.entries && b in s.instances.entries;
      MergeLaws.MergeReady(s, a, b, words);
      var ca := instances.entries[a];
      var cb := instances.entries[b];
      var mapping := ca.mapping + cb.mapping;
      var attributes := Snapshot(ca.attributes) + Snapshot(cb.attributes);
      DeletePair(a, b);
      var n := MergedId(a, b);
      var conceptType := MergedConceptType(n.words, words);
      ghost var rest := instances;
      ghost var c := NewIndexFree(conceptType, Some(mapping));
      ghost var inst := MergedInstances(s.instances, a, b, n, MergedNode(s.instances, a, b, n, words));
      ghost var rels := MergedRelations(s.relations, a, b, n, inst.order);
      ghost var top' := if s.top == Some(a) || s.top == Some(b) then Some(n) else s.top;
      AddInstance(n, conceptType, mapping);
      assert instances == Put(rest, n, c);
      MigrateAttributes(n, attributes);
      assert instances == inst;
      RepointEdges(a, b, n);
      assert instances == inst;
      assert relations == rels;
      MoveTop(a, b, n);
      MergeLaws.MergeIs(s, a, b, words, inst, rels, top');
      return Ok(n);
    }

    /** The last step of `pairwise_merge`: the top node follows the merge. */
    method MoveTop(a: NodeId, b: NodeId, n: NodeId)
      modifies this
      ensures instances == old(instances) && relations == old(relations)
      ensures top == if old(top) == Some(a) || old(top) == Some(b) then Some(n) else old(top)
    {
      if top == Some(a) || top == Some(b) {
        top := Some(n);
      }
    }

    /** The first half of `pairwise_merge`: both nodes leave `instances`, and the edges between them
        leave `relations`. */
    method DeletePair(a: NodeId, b: NodeId)
      modifies this
      ensures instances == Remove(Remove(old(instances), a), b)
      ensures relations == DropBetween(old(relations), a, b) && top == old(top)
    {
      instances := Remove(Remove(instances, a), b);
      if (a, b) in relations.entries {
        relations := Remove(relations, (a, b));
      }
      if (b, a) in relations.entries {
        relations := Remove(relations, (b, a));
      }
    }

    /** The loop of `pairwise_merge` that replays `attributes` onto node `n` with `add_attribute`. */
    method MigrateAttributes(n: NodeId, attributes: seq<(string, string)>)
      requires n in instances.entries
      requires forall i :: 0 <= i < |attributes| ==> StartsWith(attributes[i].0, ":")
      modifies this
      ensures relations == old(relations) && top == old(top)
      ensures var c := old(instances).entries[n];
        instances == Put(old(instances), n, c.(attributes := Replay(c.attributes, attributes)))
    {
      ghost var start := instances;
      ghost var c := instances.entries[n];
      assert start.entries[n := c] == start.entries;
      var i := 0;
      while i < |attributes|
        invariant 0 <= i <= |attributes|
        invariant instances == Put(start, n, c.(attributes := Replay(c.attributes, attributes[..i])))
        invariant relations == old(relations) && top == old(top)
      {
        assert attributes[..i + 1][..i] == attributes[..i];
        PutTwice(start, n, c.(attributes := Replay(c.attributes, attributes[..i])),
                 c.(attributes := Replay(c.attributes, attributes[..i + 1])));
        var _ := AddAttribute(n, attributes[i].0, attributes[i].1);
        i := i + 1;
      }
      assert attributes[..i] == attributes;
    }

    /** The loop of `pairwise_merge` over a snapshot of the relations that moves every edge touching
        `a` or `b` onto `n`. */
    method RepointEdges(a: NodeId, b: NodeId, n: NodeId)
      requires PyDict.Valid(instances) && PyDict.Valid(relations)
      requires MergeProps.RepointPre(Items(relations), a, b, n, instances.order)
      requires forall e :: e in relations.entries ==> StartsWith(relations.entries[e], ":")
      modifies this
      ensures instances == old(instances) && top == old(top)
      ensures relations == Repoint(old(relations), Snapshot(old(relations)), a, b, n, instances.order)
    {
      ghost var r1 := relations;
      ghost var keys := instances.order;
      var items := Snapshot(relations);
      assert forall j :: 0 <= j < |items| ==> StartsWith(items[j].1, ":") by {
        forall j | 0 <= j < |items| ensures StartsWith(items[j].1, ":") {
          assert items[j].0 in r1.entries;
        }
      }
      var j := 0;
      while j < |items|
        invariant 0 <= j <= |items|
        invariant instances == old(instances) && top == old(top)
        invariant relations == Repoint(r1, items[..j], a, b, n, keys)
      {
        ghost var before := relations;
        RepointOne(items[j], a, b, n);
        RepointNext(r1, items, j, a, b, n, keys, before, relations);
        j := j + 1;
      }
      assert items[..j] == items;
    }

    /** One iteration of that loop: an edge leaving `a` or `b` is deleted and re-added from `n`, an
        edge entering them is deleted and re-added into `n`. */
    method RepointOne(item: (Edge, string), a: NodeId, b: NodeId, n: NodeId)
      requires PyDict.Valid(instances) && n in instances.entries && StartsWith(item.1, ":")
      requires a != b && n != a && n != b && DisjointKeys(instances.order)
      requires MergeProps.ItemOk(item.0, a, b, n, instances.order)
      modifies this
      ensures instances == old(instances) && top == old(top)
      ensures relations == RepointStep(old(relations), item, a, b, n, instances.order)
    {
      var pair := item.0;
      var lbl := item.1;
      if pair.0 == a || pair.0 == b {
        relations := Remove(relations, pair);
        var _ := AddRelation(n, lbl, pair.1);
      }
      if pair.1 == a || pair.1 == b {
        relations := Remove(relations, pair);
        var _ := AddRelation(pair.0, lbl, n);
      }
    }

    /** `[self.redirect_node(n) for n in nodes]` */
    method RedirectNodes(ns: seq<NodeId>) returns (r: seq<NodeId>)
      ensures r == RedirectAll(instances.order, ns)
    {
      r := [];
      var i := 0;
      while i < |ns|
        invariant 0 <= i <= |ns|
        invariant r == RedirectAll(instances.order, ns[..i])
      {
        var x := RedirectNode(ns[i]);
        RedirectAllAppend(instances.order, ns[..i], ns[i]);
        assert ns[..i + 1] == ns[..i] + [ns[i]];
        r := r + [x];
        i := i + 1;
      }
      assert ns[..i] == ns;
    }

    /** The triples of `render`: the product of every concept under its key in dictionary order,
        then one `(head, label, tail)` triple per edge. */
    method Render(unquote: string -> string) returns (triples: seq<Triple>)
      requires Valid()
      ensures Renderable(Current()) && triples == RenderTriples(Current(), unquote)
    {
      assert Renderable(Current()) by {
        forall k | k in instances.entries
          ensures PyDict.Valid(instances.entries[k].attributes)
        {
          assert ConceptOk(instances.entries[k]);
        }
      }
      var nodes := CollectNodeTriples(Items(instances), unquote);
      var edges := CollectEdgeTriples(Items(relations));
      triples := nodes + edges;
    }

    /** `amalgamate(nodes, redirect_true_node)`: when a merge raises, the merges before it stay done. */
    method Amalgamate(nodes: seq<NodeId>, redirect: bool) returns (r: Outcome<NodeId>)
      requires Valid()
      modifies this
      ensures Valid()
      ensures var m := GraphSpec.Amalgamate(old(Current()), nodes, redirect, words);
        (m.Ok? ==> r == Ok(m.value.1)
                   && instances == m.value.0.instances && relations == m.value.0.relations && top == m.value.0.top)
        && (m.Raise? ==> r == Raise(m.error))
    {
      if |nodes| < 2 {
        return Raise(AssertionError);
      }
      var ns := nodes;
      if redirect {
        ns := RedirectNodes(nodes);
      }
      if |ns| == 2 {
        r := PairwiseMerge(ns[0], ns[1]);
        return;
      }
      r := MergeLeft(ns[0], ns[1..], redirect);
      if r.Ok? && redirect {
        var last := RedirectNode(r.value);
        r := Ok(last);
      }
    }

    /** The `while` loop of `amalgamate`: `acc` is merged with each id of `rest` in turn, stopping
        at the first falsy one. */
    method MergeLeft(first: NodeId, rest: seq<NodeId>, redirect: bool) returns (r: Outcome<NodeId>)
      requires Valid() && rest != []
      modifies this
      ensures Valid()
      ensures var m := MergeAll(old(Current()), first, rest, redirect, words);
        (m.Ok? ==> r == Ok(m.value.1)
                   && instances == m.value.0.instances && relations == m.value.0.relations && top == m.value.0.top)
        && (m.Raise? ==> r == Raise(m.error))
    {
      ghost var s := Current();
      var acc := first;
      var i := 0;
      while i < |rest| && !Falsy(rest[i])
        invariant 0 <= i <= |rest|
        invariant Valid()
        invariant MergeAll(s, first, rest, redirect, words) == MergeAll(State(instances, relations, top), acc, rest[i..], redirect, words)
        decreases |rest| - i
      {
        ghost var before := Current();
        var x := acc;
        var y := rest[i];
        if redirect {
          x := RedirectNode(acc);
          y := RedirectNode(y);
        }
        var m := PairwiseMerge(x, y);
        MergeAllStep(before, acc, rest[i..], redirect, words, x, y);
        if m.Raise? {
          return Raise(m.error);
        }
        assert rest[i..][1..] == rest[i + 1..];
        acc := m.value;
        i := i + 1;
      }
      return Ok(acc);
    }
  }

  /** The first loop of `render`: `nodes.extend(concept.product(node_idx))` per item. */
  method CollectNodeTriples(items: seq<(NodeId, Concept)>, unquote: string -> string) returns (nodes: seq<Triple>)
    requires forall i :: 0 <= i < |items| ==> PyDict.Valid(items[i].1.attributes)
    ensures nodes == NodeTriples(items, unquote)
  {
    nodes := [];
    var i := 0;
    while i < |items|
      invariant 0 <= i <= |items|
      invariant nodes == NodeTriples(items[..i], unquote)
    {
      StoreLaws.NodeTriplesAppend(items[..i], [items[i]], unquote);
      assert items[..i + 1] == items[..i] + [items[i]];
      assert NodeTriples([items[i]], unquote) == Product(items[i].1, items[i].0, unquote);
      nodes := nodes + Product(items[i].1, items[i].0, unquote);
      i := i + 1;
    }
    assert items[..i] == items;
  }

  /** The edge list of `render`: `(head, relation, tail)` per edge item. */
  method CollectEdgeTriples(rels: seq<(Edge, string)>) returns (edges: seq<Triple>)
    ensures edges == EdgeTriples(rels)
  {
    edges := [];
    var j := 0;
    while j < |rels|
      invariant 0 <= j <= |rels|
      invariant |edges| == j
      invariant forall n :: 0 <= n < j ==> edges[n] == Triple(Node(rels[n].0.0), rels[n].1, Node(rels[n].0.1))
    {
      edges := edges + [Triple(Node(rels[j].0.0), rels[j].1, Node(rels[j].0.1))];
      j := j + 1;
    }
    StoreLaws.EdgeTriplesSpec(rels);
  }

  /** One iteration of the `amalgamate` loop is one step of `MergeAll`. */
  lemma {:induction false} MergeAllStep(s: State, acc: NodeId, todo: seq<NodeId>, redirect: bool, words: int -> string, x: NodeId, y: NodeId)
    requires todo != [] && !Falsy(todo[0])
    requires x == (if redirect then Redirect(s.instances.order, acc) else acc)
    requires y == (if redirect then Redirect(s.instances.order, todo[0]) else todo[0])
    ensures var m := Merge(s, x, y, words);
      MergeAll(s, acc, todo, redirect, words)
        == if m.Raise? then Raise(m.error)
           else MergeAll(State(m.value.0.instances, m.value.0.relations, m.value.0.top), m.value.1, todo[1..], redirect, words)
  {
  }

  /** One more iteration of the re-pointing loop is one more `RepointStep`. */
  lemma {:induction false} RepointSnoc(r: Relations, items: seq<(Edge, string)>, j: int, a: NodeId, b: NodeId, n: NodeId, keys: seq<NodeId>)
    requires 0 <= j < |items|
    ensures Repoint(r, items[..j + 1], a, b, n, keys) == RepointStep(Repoint(r, items[..j], a, b, n, keys), items[j], a, b, n, keys)
  {
    assert items[..j + 1][..j] == items[..j];
  }

  /** The relations after one more iteration of the re-pointing loop. */
  lemma {:induction false} RepointNext(r: Relations, items: seq<(Edge, string)>, j: int, a: NodeId, b: NodeId, n: NodeId, keys: seq<NodeId>, before: Relations, after: Relations)
    requires 0 <= j < |items|
    requires before == Repoint(r, items[..j], a, b, n, keys)
    requires after == RepointStep(before, items[j], a, b, n, keys)
    ensures after == Repoint(r, items[..j + 1], a, b, n, keys)
  {
    RepointSnoc(r, items, j, a, b, n, keys);
  }

  lemma {:induction false} RedirectAllAppend(keys: seq<NodeId>, ns: seq<NodeId>, x: NodeId)
    ensures RedirectAll(keys, ns + [x]) == RedirectAll(keys, ns) + [Redirect(keys, x)]
  {
  }
}
