/** What the single-entry operations of the graph store and its `amalgamate` fold promise: each keeps
    the store's invariant, `add_relation` drops exactly the self-loops, `del_relation` removes what
    `get_relation` finds, and the node `amalgamate` returns owns every word id it folded in. */
module StoreLaws {
  import opened PyStr
  import opened PyDict
  import opened NodeIds
  import opened Concepts
  import opened Outcomes
  import opened GraphSpec
  import MergeLaws

  // ---------------------------------------------------------------------------------------------
  // add_instance

  /** A synthesised key is a non-empty str, so it is never falsy itself; a truthy id is kept. */
  lemma {:induction false} InstanceKeyTruthy(idx: NodeId, count: nat)
    ensures !Falsy(InstanceKey(idx, count))
    ensures !Falsy(idx) ==> InstanceKey(idx, count) == idx
    ensures Falsy(idx) ==> InstanceKey(idx, count).Named? && InstanceKey(idx, count).name[0] == 'x'
  {
  }

  /** `add_instance` keeps the invariant when it replaces an existing node or adds a key that owns
      no word id another key owns; the stored concept is index-free, carries the mapping and has no
      attributes, and every other node is kept. */
  lemma {:induction false} AddInstanceWf(s: State, idx: NodeId, conceptType: string, mapping: set<int>)
    requires Wf(s)
    requires var k := InstanceKey(idx, |s.instances.order|);
      k in s.instances.entries
      || (k != Composite([]) && forall j :: j in s.instances.entries ==> Tokens(j) !! Tokens(k))
    ensures var k := InstanceKey(idx, |s.instances.order|);
      var inst := AddInstance(s.instances, idx, conceptType, mapping);
      Wf(State(inst, s.relations, s.top))
      && inst.entries[k] == Concept(conceptType, Empty(), mapping, IndexFree)
      && (forall j :: j in inst.entries <==> j in s.instances.entries || j == k)
      && (forall j :: j in s.instances.entries && j != k ==> inst.entries[j] == s.instances.entries[j])
  {
    var k := InstanceKey(idx, |s.instances.order|);
    var c := NewIndexFree(conceptType, Some(mapping));
    PutSpec(s.instances, k, c);
    var inst := AddInstance(s.instances, idx, conceptType, mapping);
    if k !in s.instances.entries {
      var keys := s.instances.order;
      assert forall i :: 0 <= i < |keys| ==> keys[i] in s.instances.entries;
      AppendDisjoint(keys, k);
    }
    assert ConceptOk(c);
    WfWithInstances(s, inst);
  }

  /** Appending a key that shares no word id with the others keeps the keys disjoint. */
  lemma {:induction false} AppendDisjoint(keys: seq<NodeId>, k: NodeId)
    requires DisjointKeys(keys) && k != Composite([])
    requires forall i :: 0 <= i < |keys| ==> Tokens(keys[i]) !! Tokens(k)
    ensures DisjointKeys(keys + [k])
  {
    var o := keys + [k];
    forall i, j | 0 <= i < j < |o|
      ensures Tokens(o[i]) !! Tokens(o[j])
    {
      assert o[i] == keys[i];
      if j < |keys| {
        assert o[j] == keys[j];
      }
    }
  }

  /** Replacing the instances by a well-formed dictionary with disjoint keys that keeps every old key
      and holds only well-formed concepts keeps the invariant: every edge still joins two keys. */
  lemma {:induction false} WfWithInstances(s: State, inst: Instances)
    requires Wf(s) && Valid(inst) && DisjointKeys(inst.order)
    requires forall k :: k in s.instances.entries ==> k in inst.entries
    requires forall k :: k in inst.entries ==> ConceptOk(inst.entries[k])
    ensures Wf(State(inst, s.relations, s.top))
  {
    var s' := State(inst, s.relations, s.top);
    forall e | e in s.relations.entries
      ensures EdgeOk(s', e)
    {
      assert EdgeOk(s, e);
    }
  }

  // ---------------------------------------------------------------------------------------------
  // add_relation, get_relation, del_relation

  /** On two keys of a well-formed store, `add_relation` stores the edge exactly when its ends are
      different nodes, keeps every other edge, and keeps the invariant. */
  lemma {:induction false} AddRelationSpec(s: State, h: NodeId, lbl: string, t: NodeId)
    requires Wf(s) && h in s.instances.entries && t in s.instances.entries && StartsWith(lbl, ":")
    ensures AddRelation(s, h, lbl, t).Ok?
    ensures var r := AddRelation(s, h, lbl, t).value;
      (h != t ==> (h, t) in r.entries && r.entries[(h, t)] == lbl)
      && (h == t ==> r == s.relations)
      && (forall e :: e != (h, t) ==> (e in r.entries <==> e in s.relations.entries))
      && (forall e :: e != (h, t) && e in r.entries ==> r.entries[e] == s.relations.entries[e])
      && Wf(State(s.instances, r, s.top))
  {
    RedirectKey(s.instances.order, h);
    RedirectKey(s.instances.order, t);
    var r := AddRelation(s, h, lbl, t).value;
    PutSpec(s.relations, (h, t), lbl);
    var s' := State(s.instances, r, s.top);
    forall e | e in r.entries
      ensures EdgeOk(s', e)
    {
      if e != (h, t) {
        assert EdgeOk(s, e);
      }
    }
  }

  /** `add_relation` fails with AssertionError exactly when an end is not a key or the label lacks
      the `:` prefix, and whatever it stores keeps the invariant. */
  lemma {:induction false} AddRelationWf(s: State, h: NodeId, lbl: string, t: NodeId)
    requires Wf(s)
    ensures AddRelation(s, h, lbl, t) == Raise(AssertionError)
      <==> h !in s.instances.entries || t !in s.instances.entries || !StartsWith(lbl, ":")
    ensures AddRelation(s, h, lbl, t).Ok? ==> Wf(State(s.instances, AddRelation(s, h, lbl, t).value, s.top))
  {
    if AddRelation(s, h, lbl, t).Ok? {
      AddRelationSpec(s, h, lbl, t);
    }
  }

  /** Inverting twice gives the label back, except for a label ending in `-of-of`: the first
      inversion strips one `-of` and the second strips another. */
  lemma {:induction false} InvertTwice(lbl: string)
    ensures Invert(Invert(lbl)) == lbl <==> !(EndsWith(lbl, "-of") && EndsWith(lbl[..|lbl| - 3], "-of"))
  {
    if EndsWith(lbl, "-of") {
      var l' := lbl[..|lbl| - 3];
      assert Invert(lbl) == l';
      if !EndsWith(l', "-of") {
        assert l' + "-of" == lbl;
      }
    } else {
      var l' := lbl + "-of";
      assert EndsWith(l', "-of") by {
        assert l'[|l'| - 3..] == "-of";
      }
      assert l'[..|l'| - 3] == lbl;
    }
  }

  /** `get_relation` finds the forward edge first; only with `include_inverted` does it fall back to
      the reverse edge, whose label it reports inverted. */
  lemma {:induction false} GetRelationSpec(r: Relations, h: NodeId, t: NodeId, inverted: bool)
    ensures GetRelation(r, h, t, inverted).Some?
      <==> (h, t) in r.entries || (inverted && (t, h) in r.entries)
    ensures (h, t) in r.entries ==> GetRelation(r, h, t, inverted) == Some(r.entries[(h, t)])
    ensures (h, t) !in r.entries && inverted && (t, h) in r.entries
      ==> GetRelation(r, h, t, inverted) == Some(Invert(r.entries[(t, h)]))
    ensures !inverted ==> GetRelation(r, h, t, inverted) == GetRelation(r, h, t, false)
  {
  }

  /** After storing an edge between two different keys, reading it back gives its label, and reading
      it from the other end with `include_inverted` gives the inverted label when no reverse edge
      exists. */
  lemma {:induction false} GetAfterAdd(s: State, h: NodeId, lbl: string, t: NodeId)
    requires Wf(s) && h in s.instances.entries && t in s.instances.entries && StartsWith(lbl, ":") && h != t
    ensures var r := AddRelation(s, h, lbl, t).value;
      GetRelation(r, h, t, false) == Some(lbl)
      && ((t, h) !in s.relations.entries ==> GetRelation(r, t, h, true) == Some(Invert(lbl)))
  {
    AddRelationSpec(s, h, lbl, t);
  }

  /** `del_relation` succeeds exactly when `get_relation` finds an edge, removes that edge and no
      other, and keeps the invariant. */
  lemma {:induction false} DelRelationSpec(s: State, h: NodeId, t: NodeId, inverted: bool)
    requires Wf(s)
    ensures DelRelation(s.relations, h, t, inverted).Ok? <==> GetRelation(s.relations, h, t, inverted).Some?
    ensures DelRelation(s.relations, h, t, inverted).Raise? ==> DelRelation(s.relations, h, t, inverted) == Raise(KeyError)
    ensures DelRelation(s.relations, h, t, inverted).Ok? ==>
      var r := DelRelation(s.relations, h, t, inverted).value;
      var gone := if (h, t) in s.relations.entries then (h, t) else (t, h);
      r.entries == s.relations.entries - {gone}
      && Wf(State(s.instances, r, s.top))
  {
    if DelRelation(s.relations, h, t, inverted).Ok? {
      var gone := if (h, t) in s.relations.entries then (h, t) else (t, h);
      RemoveSpec(s.relations, gone);
      var r := DelRelation(s.relations, h, t, inverted).value;
      var s' := State(s.instances, r, s.top);
      forall e | e in r.entries
        ensures EdgeOk(s', e)
      {
        assert EdgeOk(s, e);
      }
    }
  }

  // ---------------------------------------------------------------------------------------------
  // add_attribute

  /** `add_attribute` on the store fails exactly on a missing node or a label without `:`; otherwise
      it sets that one attribute of that one node and keeps the invariant. */
  lemma {:induction false} AddAttributeWf(s: State, idx: NodeId, relation: string, value: string)
    requires Wf(s)
    ensures AddAttributeAt(s.instances, idx, relation, value).Raise?
      <==> idx !in s.instances.entries || !StartsWith(relation, ":")
    ensures AddAttributeAt(s.instances, idx, relation, value).Ok? ==>
      var inst := AddAttributeAt(s.instances, idx, relation, value).value;
      inst.order == s.instances.order
      && inst.entries[idx].attributes.entries == s.instances.entries[idx].attributes.entries[relation := value]
      && (forall k :: k in inst.entries <==> k in s.instances.entries)
      && (forall k :: k in s.instances.entries && k != idx ==> inst.entries[k] == s.instances.entries[k])
      && Wf(State(inst, s.relations, s.top))
  {
    if idx in s.instances.entries && StartsWith(relation, ":") {
      var c := s.instances.entries[idx];
      AddAttributeSpec(c, relation, value);
      var c' := AddAttribute(c, relation, value).value;
      PutSpec(s.instances, idx, c');
      PutSpec(c.attributes, relation, value);
      var inst := AddAttributeAt(s.instances, idx, relation, value).value;
      assert ConceptOk(c');
      var s' := State(inst, s.relations, s.top);
      forall e | e in s.relations.entries
        ensures EdgeOk(s', e)
      {
        assert EdgeOk(s, e);
      }
    }
  }

  // ---------------------------------------------------------------------------------------------
  // redirect_node and amalgamate

  /** `redirect_node` never loses a word id: the node it resolves to owns every word id of the input. */
  lemma {:induction false} RedirectTokens(keys: seq<NodeId>, x: NodeId)
    ensures Tokens(x) <= Tokens(Redirect(keys, x))
  {
    RedirectFirstMatch(keys, x);
    var k := Redirect(keys, x);
    if k != x {
      match x
      case Single(i) =>
        assert i in k.words;
      case Named(_) =>
      case Composite(ws) =>
        forall w | w in Tokens(x)
          ensures w in Tokens(k)
        {
          var m :| 0 <= m < |ws| && ws[m] == w;
        }
    }
  }

  /** The node `pairwise_merge` returns owns every word id of both operands, and is a key. */
  lemma {:induction false} MergeTokens(s: State, a: NodeId, b: NodeId, words: int -> string)
    requires Wf(s) && Merge(s, a, b, words).Ok?
    ensures var (s', n) := Merge(s, a, b, words).value;
      Tokens(a) + Tokens(b) <= Tokens(n) && n in s'.instances.entries
  {
    if a != b {
      MergeLaws.MergeValue(s, a, b, words);
      MergeLaws.MergedKeyFresh(s.instances.order, a, b);
      var n := MergedId(a, b);
      PutKey(Remove(Remove(s.instances, a), b), n, MergedNode(s.instances, a, b, n, words));
    }
  }

  /** The `while` loop of `amalgamate` keeps the invariant. */
  lemma {:induction false} MergeAllWf(s: State, acc: NodeId, rest: seq<NodeId>, redirect: bool, words: int -> string)
    requires Wf(s) && MergeAll(s, acc, rest, redirect, words).Ok?
    ensures Wf(MergeAll(s, acc, rest, redirect, words).value.0)
    decreases |rest|
  {
    if rest != [] && !Falsy(rest[0]) {
      var x := if redirect then Redirect(s.instances.order, acc) else acc;
      var y := if redirect then Redirect(s.instances.order, rest[0]) else rest[0];
      MergeLaws.MergeWf(s, x, y, words);
      var p := Merge(s, x, y, words).value;
      MergeAllWf(p.0, p.1, rest[1..], redirect, words);
    }
  }

  /** The ids the loop of `amalgamate` merges in: those before the first falsy one. */
  function Folded(rest: seq<NodeId>): (r: seq<NodeId>)
    ensures |r| <= |rest| && forall i :: 0 <= i < |r| ==> r[i] == rest[i] && !Falsy(r[i])
  {
    if rest == [] || Falsy(rest[0]) then [] else [rest[0]] + Folded(rest[1..])
  }

  /** Every word id of a list of ids. */
  function AllTokens(xs: seq<NodeId>): set<int> {
    if xs == [] then {} else Tokens(xs[0]) + AllTokens(xs[1..])
  }

  /** The node the loop of `amalgamate` ends on owns every word id of the running node and of every
      id it merged in; it is a key once a merge ran. */
  lemma {:induction false} MergeAllTokens(s: State, acc: NodeId, rest: seq<NodeId>, redirect: bool, words: int -> string)
    requires Wf(s) && MergeAll(s, acc, rest, redirect, words).Ok?
    ensures var (s', n) := MergeAll(s, acc, rest, redirect, words).value;
      Tokens(acc) + AllTokens(Folded(rest)) <= Tokens(n)
      && (Folded(rest) != [] ==> n in s'.instances.entries)
    decreases |rest|
  {
    if rest != [] && !Falsy(rest[0]) {
      var x := if redirect then Redirect(s.instances.order, acc) else acc;
      var y := if redirect then Redirect(s.instances.order, rest[0]) else rest[0];
      RedirectTokens(s.instances.order, acc);
      RedirectTokens(s.instances.order, rest[0]);
      MergeTokens(s, x, y, words);
      MergeLaws.MergeWf(s, x, y, words);
      var p := Merge(s, x, y, words).value;
      MergeAllTokens(p.0, p.1, rest[1..], redirect, words);
      FoldedStep(rest);
    }
  }

  lemma {:induction false} FoldedStep(rest: seq<NodeId>)
    requires rest != [] && !Falsy(rest[0])
    ensures Folded(rest) != [] && AllTokens(Folded(rest)) == Tokens(rest[0]) + AllTokens(Folded(rest[1..]))
  {
    assert Folded(rest) == [rest[0]] + Folded(rest[1..]);
    assert ([rest[0]] + Folded(rest[1..]))[1..] == Folded(rest[1..]);
  }

  /** `amalgamate` keeps the invariant. */
  lemma {:induction false} AmalgamateWf(s: State, nodes: seq<NodeId>, redirect: bool, words: int -> string)
    requires Wf(s) && Amalgamate(s, nodes, redirect, words).Ok?
    ensures Wf(Amalgamate(s, nodes, redirect, words).value.0)
  {
    var ns := if redirect then RedirectAll(s.instances.order, nodes) else nodes;
    if |ns| == 2 {
      MergeLaws.MergeWf(s, ns[0], ns[1], words);
    } else {
      MergeAllWf(s, ns[0], ns[1..], redirect, words);
    }
  }

  /** The node `amalgamate` returns owns every word id of the first two ids it was given and of every
      later one before the first falsy one, and is a key whenever a merge ran. */
  lemma {:induction false} AmalgamateTokens(s: State, nodes: seq<NodeId>, redirect: bool, words: int -> string)
    requires Wf(s) && Amalgamate(s, nodes, redirect, words).Ok?
    ensures var ns := if redirect then RedirectAll(s.instances.order, nodes) else nodes;
      var (s', n) := Amalgamate(s, nodes, redirect, words).value;
      Tokens(nodes[0]) <= Tokens(n)
      && (|nodes| == 2 ==> Tokens(nodes[1]) <= Tokens(n) && n in s'.instances.entries)
      && (|nodes| != 2 ==> AllTokens(Folded(ns[1..])) <= Tokens(n)
                           && (Folded(ns[1..]) != [] ==> n in s'.instances.entries))
  {
    var ns := if redirect then RedirectAll(s.instances.order, nodes) else nodes;
    RedirectTokens(s.instances.order, nodes[0]);
    if |ns| == 2 {
      RedirectTokens(s.instances.order, nodes[1]);
      MergeTokens(s, ns[0], ns[1], words);
    } else {
      AmalgamateFoldTokens(s, ns, redirect, words);
    }
  }

  lemma {:induction false} AmalgamateFoldTokens(s: State, ns: seq<NodeId>, redirect: bool, words: int -> string)
    requires Wf(s) && |ns| > 2 && MergeAll(s, ns[0], ns[1..], redirect, words).Ok?
    ensures var p := MergeAll(s, ns[0], ns[1..], redirect, words).value;
      var n := if redirect then Redirect(p.0.instances.order, p.1) else p.1;
      Tokens(ns[0]) + AllTokens(Folded(ns[1..])) <= Tokens(n)
      && (Folded(ns[1..]) != [] ==> n in p.0.instances.entries)
  {
    var rest := ns[1..];
    MergeAllTokens(s, ns[0], rest, redirect, words);
    var p := MergeAll(s, ns[0], rest, redirect, words).value;
    if redirect {
      RedirectTokens(p.0.instances.order, p.1);
      if Folded(rest) != [] {
        MergeAllWf(s, ns[0], rest, redirect, words);
        RedirectKey(p.0.instances.order, p.1);
      }
    }
  }

  // ---------------------------------------------------------------------------------------------
  // render

  lemma {:induction false} NodeTriplesAppend(a: seq<(NodeId, Concept)>, b: seq<(NodeId, Concept)>, unquote: string -> string)
    requires forall i :: 0 <= i < |a| ==> Valid(a[i].1.attributes)
    requires forall i :: 0 <= i < |b| ==> Valid(b[i].1.attributes)
    ensures NodeTriples(a + b, unquote) == NodeTriples(a, unquote) + NodeTriples(b, unquote)
    decreases |a|
  {
    if a == [] {
      assert a + b == b;
    } else {
      assert (a + b)[0] == a[0] && (a + b)[1..] == a[1..] + b;
      NodeTriplesAppend(a[1..], b, unquote);
    }
  }

  /** One edge triple per edge, in order, naming the edge's ends and carrying its label. */
  lemma {:induction false} EdgeTriplesSpec(items: seq<(Edge, string)>)
    ensures |EdgeTriples(items)| == |items|
    ensures forall i :: 0 <= i < |items| ==>
      EdgeTriples(items)[i] == Triple(Node(items[i].0.0), items[i].1, Node(items[i].0.1))
    decreases |items|
  {
    if items != [] {
      EdgeTriplesSpec(items[1..]);
    }
  }

  /** Every triple of a node's product appears among the node triples. */
  lemma {:induction false} NodeTriplesContain(items: seq<(NodeId, Concept)>, i: nat, unquote: string -> string)
    requires forall j :: 0 <= j < |items| ==> Valid(items[j].1.attributes)
    requires i < |items|
    ensures forall t :: t in Product(items[i].1, items[i].0, unquote) ==> t in NodeTriples(items, unquote)
    decreases i
  {
    var head := Product(items[0].1, items[0].0, unquote);
    var rest := NodeTriples(items[1..], unquote);
    assert NodeTriples(items, unquote) == head + rest;
    if i > 0 {
      assert items[1..][i - 1] == items[i];
      NodeTriplesContain(items[1..], i - 1, unquote);
    }
  }

  /** Every concept's product opens with the `:instance` triple of its node. */
  lemma ProductDeclares(c: Concept, idx: NodeId, unquote: string -> string)
    requires Valid(c.attributes)
    ensures |Product(c, idx, unquote)| > 0
    ensures Product(c, idx, unquote)[0].source == Node(idx) && Product(c, idx, unquote)[0].role == ":instance"
  {
  }

  /** `render` declares every node (an `:instance` triple whose source is the key) and lists every
      edge exactly as stored: after the node triples come, in dictionary order, one triple per edge
      with the edge's head, label and tail. */
  lemma RenderSpec(s: State, unquote: string -> string)
    requires Renderable(s)
    ensures forall k :: k in s.instances.entries ==>
      exists t :: t in RenderTriples(s, unquote) && t.source == Node(k) && t.role == ":instance"
    ensures var n := |NodeTriples(Items(s.instances), unquote)|;
      var r := RenderTriples(s, unquote);
      |r| == n + |s.relations.order|
      && forall i :: 0 <= i < |s.relations.order| ==>
           r[n + i] == Triple(Node(s.relations.order[i].0), s.relations.entries[s.relations.order[i]], Node(s.relations.order[i].1))
    ensures forall e :: e in s.relations.entries ==>
      Triple(Node(e.0), s.relations.entries[e], Node(e.1)) in RenderTriples(s, unquote)
  {
    RenderDeclares(s, unquote);
    RenderEdgeOrder(s, unquote);
    RenderEdgesListed(s, unquote);
  }

  /** Every node key is the source of an `:instance` triple of the rendering. */
  lemma RenderDeclares(s: State, unquote: string -> string)
    requires Renderable(s)
    ensures forall k :: k in s.instances.entries ==>
      exists t :: t in RenderTriples(s, unquote) && t.source == Node(k) && t.role == ":instance"
  {
    var items := Items(s.instances);
    var nodes := NodeTriples(items, unquote);
    var r := RenderTriples(s, unquote);
    EdgeTriplesSpec(Items(s.relations));
    forall k | k in s.instances.entries
      ensures exists t :: t in r && t.source == Node(k) && t.role == ":instance"
    {
      var i :| 0 <= i < |s.instances.order| && s.instances.order[i] == k;
      NodeTriplesContain(items, i, unquote);
      ProductDeclares(items[i].1, k, unquote);
      var t := Product(items[i].1, k, unquote)[0];
      assert t in nodes;
    }
  }

  /** After the node triples the rendering lists the edges in dictionary order. */
  lemma RenderEdgeOrder(s: State, unquote: string -> string)
    requires Renderable(s)
    ensures var n := |NodeTriples(Items(s.instances), unquote)|;
      var r := RenderTriples(s, unquote);
      |r| == n + |s.relations.order|
      && forall i :: 0 <= i < |s.relations.order| ==>
           r[n + i] == Triple(Node(s.relations.order[i].0), s.relations.entries[s.relations.order[i]], Node(s.relations.order[i].1))
  {
    EdgeTriplesSpec(Items(s.relations));
  }

  /** Every stored edge appears in the rendering with its label. */
  lemma RenderEdgesListed(s: State, unquote: string -> string)
    requires Renderable(s)
    ensures forall e :: e in s.relations.entries ==>
      Triple(Node(e.0), s.relations.entries[e], Node(e.1)) in RenderTriples(s, unquote)
  {
    var nodes := NodeTriples(Items(s.instances), unquote);
    var r := RenderTriples(s, unquote);
    RenderEdgeOrder(s, unquote);
    forall e | e in s.relations.entries
      ensures Triple(Node(e.0), s.relations.entries[e], Node(e.1)) in r
    {
      var i :| 0 <= i < |s.relations.order| && s.relations.order[i] == e;
      assert r[|nodes| + i] == Triple(Node(e.0), s.relations.entries[e], Node(e.1));
    }
  }
}
