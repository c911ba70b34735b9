/** The earlier AMR graph store and its annotation object as objects: `AMRGraph`'s four
    dictionaries change in place under its methods, each method proved to leave them as the
    matching function of `LegacySpec` says, and `AMRAnnotation` runs its three passes on a fresh
    store. An exception the source raises is returned as `Raise`; unless a method states
    otherwise, the fields are then left unspecified, as the source leaves them part-way through. */
module LegacyStore {
  import opened PyStr
  import opened PyDict
  import opened NodeIds
  import opened Outcomes
  import opened LegacySpec
  import GraphSpec
  import FusionSpec
  import Concepts
  import LegacyLaws

  class AMRGraph {
    var instances: Instances
    var relations: Relations
    var attributes: Attributes
    var top: Option<NodeId>
    /** `annotations.word`: the surface form of a word id. */
    const words: int -> string

    /** The fields as one value. */
    function Current(): State
      reads this
    {
      State(instances, relations, attributes, top)
    }

    /** An empty graph without a top node. */
    constructor(words: int -> string)
      ensures instances == Empty() && relations == Empty() && attributes == Empty() && top == None
      ensures this.words == words
    {
      instances := Empty();
      relations := Empty();
      attributes := Empty();
      top := None;
      this.words := words;
    }

    /** `add_instance(concept, node_idx)` */
    method AddInstance(concept: string, idx: NodeId)
      modifies this
      ensures instances == LegacySpec.AddInstance(old(instances), concept, idx)
      ensures relations == old(relations) && attributes == old(attributes) && top == old(top)
    {
      instances := Put(instances, GraphSpec.InstanceKey(idx, |instances.order|), concept);
    }

    /** `add_relation(head_idx, relation, tail_idx)` */
    method AddRelation(h: NodeId, lbl: string, t: NodeId) returns (r: Outcome<()>)
      modifies this
      ensures instances == old(instances) && attributes == old(attributes) && top == old(top)
      ensures match LegacySpec.AddRelation(old(instances), old(relations), h, lbl, t)
        case Ok(rels) => r == Ok(()) && relations == rels
        case Raise(e) => r == Raise(e) && relations == old(relations)
    {
      if h !in instances.entries || t !in instances.entries || !StartsWith(lbl, ":") {
        return Raise(AssertionError);
      }
      relations := Put(relations, (h, t), lbl);
      return Ok(());
    }

    /** `get_relation(head_idx, tail_idx)` */
    method GetRelation(h: NodeId, t: NodeId) returns (r: Option<string>)
      ensures r == LegacySpec.GetRelation(relations, h, t)
    {
      if (h, t) in relations.entries {
        return Some(relations.entries[(h, t)]);
      } else if (t, h) in relations.entries {
        var lbl := relations.entries[(t, h)];
        return Some(if EndsWith(lbl, "-of") then lbl[..|lbl| - 3] else lbl + "-of");
      }
      return None;
    }

    /** `add_attribute(node_idx, relation, value)` */
    method AddAttribute(idx: NodeId, rel: string, value: string) returns (r: Outcome<()>)
      modifies this
      ensures instances == old(instances) && relations == old(relations) && top == old(top)
      ensures match LegacySpec.AddAttribute(old(Current()), idx, rel, value)
        case Ok(attrs) => r == Ok(()) && attributes == attrs
        case Raise(e) => r == Raise(e) && attributes == old(attributes)
    {
      if idx !in instances.entries || !StartsWith(rel, ":") {
        return Raise(AssertionError);
      }
      attributes := Put(attributes, idx, (rel, value));
      return Ok(());
    }

    /** `pairwise_merge(node_a, node_b)` */
    method PairwiseMerge(a: NodeId, b: NodeId) returns (r: Outcome<NodeId>)
      modifies this
      ensures var m := Merge(old(Current()), a, b, words);
        (m.Ok? ==> r == Ok(m.value.1)
                   && instances == m.value.0.instances && relations == m.value.0.relations
                   && attributes == m.value.0.attributes && top == m.value.0.top)
        && (m.Raise? ==> r == Raise(m.error))
    {
      ghost var s := Current();
      var d := DelInstance(a);
      if d.Raise? {
        return Raise(KeyError);
      }
      d := DelInstance(b);
      if d.Raise? {
        return Raise(KeyError);
      }
      DeletePair(a, b);
      if a.Named? || b.Named? {
        return Raise(TypeError);
      }
      var n := MergedId(a, b);
      MergedIdTruthy(a, b);
      AddInstance(GraphSpec.MergedConceptType(n.words, words), n);
      assert instances == MergedInstances(s.instances, a, b, n, words);
      var o := RepointEdges(a, b, n);
      MergeUnfolds(s, a, b, words, instances, relations, o);
      if o.Raise? {
        return Raise(o.error);
      }
      RekeyAttributes(a, b, n);
      MoveTop(a, b, n);
      return Ok(n);
    }

    /** `del self.instances[x]` */
    method DelInstance(x: NodeId) returns (r: Outcome<()>)
      modifies this
      ensures x in old(instances.entries) ==> r == Ok(()) && instances == Remove(old(instances), x)
      ensures x !in old(instances.entries) ==> r == Raise(KeyError)
      ensures relations == old(relations) && attributes == old(attributes) && top == old(top)
    {
      if x !in instances.entries {
        return Raise(KeyError);
      }
      instances := Remove(instances, x);
      return Ok(());
    }

    /** The edges between the two nodes leave `relations`. */
    method DeletePair(a: NodeId, b: NodeId)
      modifies this
      ensures relations == GraphSpec.DropBetween(old(relations), a, b)
      ensures instances == old(instances) && attributes == old(attributes) && top == old(top)
    {
      if (a, b) in relations.entries {
        relations := Remove(relations, (a, b));
      }
      if (b, a) in relations.entries {
        relations := Remove(relations, (b, a));
      }
    }

    /** The loop of `pairwise_merge` over `list(self.relations.items())`. */
    method RepointEdges(a: NodeId, b: NodeId, n: NodeId) returns (r: Outcome<()>)
      modifies this
      ensures instances == old(instances) && attributes == old(attributes) && top == old(top)
      ensures match Repoint(old(instances), old(relations), Snapshot(old(relations)), a, b, n)
        case Ok(rels) => r == Ok(()) && relations == rels
        case Raise(e) => r == Raise(e)
    {
      ghost var r1 := relations;
      var items := Snapshot(relations);
      var j := 0;
      while j < |items|
        invariant 0 <= j <= |items|
        invariant instances == old(instances) && attributes == old(attributes) && top == old(top)
        invariant Repoint(instances, r1, items, a, b, n) == Repoint(instances, relations, items[j..], a, b, n)
      {
        ghost var before := relations;
        assert items[j..][0] == items[j] && items[j..][1..] == items[j + 1..];
        var o := RepointOne(items[j], a, b, n);
        RepointCons(instances, before, items[j..], a, b, n);
        if o.Raise? {
          return o;
        }
        j := j + 1;
      }
      return Ok(());
    }

    /** One iteration of that loop: an edge leaving `a` or `b` is moved to leave `n`, then an edge
        entering them is moved to enter `n`. */
    method RepointOne(item: (Edge, string), a: NodeId, b: NodeId, n: NodeId) returns (r: Outcome<()>)
      modifies this
      ensures instances == old(instances) && attributes == old(attributes) && top == old(top)
      ensures match RepointStep(old(instances), old(relations), item, a, b, n)
        case Ok(rels) => r == Ok(()) && relations == rels
        case Raise(e) => r == Raise(e)
    {
      var pair := item.0;
      if pair.0 == a || pair.0 == b {
        r := Move(pair, n, item.1, pair.1);
        if r.Raise? {
          return;
        }
      }
      if pair.1 == a || pair.1 == b {
        r := Move(pair, pair.0, item.1, n);
        return;
      }
      return Ok(());
    }

    /** `del self.relations[pair]`, then `add_relation(h, lbl, t)`. */
    method Move(pair: Edge, h: NodeId, lbl: string, t: NodeId) returns (r: Outcome<()>)
      modifies this
      ensures instances == old(instances) && attributes == old(attributes) && top == old(top)
      ensures match LegacySpec.Move(old(instances), old(relations), pair, h, lbl, t)
        case Ok(rels) => r == Ok(()) && relations == rels
        case Raise(e) => r == Raise(e)
    {
      if pair !in relations.entries {
        return Raise(KeyError);
      }
      relations := Remove(relations, pair);
      r := AddRelation(h, lbl, t);
    }

    /** The attribute loop of `pairwise_merge`. */
    method RekeyAttributes(a: NodeId, b: NodeId, n: NodeId)
      modifies this
      ensures attributes == Rekey(old(attributes), Snapshot(old(attributes)), a, b, n)
      ensures instances == old(instances) && relations == old(relations) && top == old(top)
    {
      ghost var d0 := attributes;
      var items := Snapshot(attributes);
      var j := 0;
      while j < |items|
        invariant 0 <= j <= |items|
        invariant instances == old(instances) && relations == old(relations) && top == old(top)
        invariant Rekey(d0, items, a, b, n) == Rekey(attributes, items[j..], a, b, n)
      {
        assert items[j..][0] == items[j] && items[j..][1..] == items[j + 1..];
        RekeyOne(items[j], a, b, n);
        j := j + 1;
      }
    }

    /** One iteration of the attribute loop: an attribute of `a` or `b` moves to `n`. */
    method RekeyOne(item: (NodeId, (string, string)), a: NodeId, b: NodeId, n: NodeId)
      modifies this
      ensures attributes == RekeyStep(old(attributes), item, a, b, n)
      ensures instances == old(instances) && relations == old(relations) && top == old(top)
    {
      if item.0 == a || item.0 == b {
        attributes := Put(Remove(attributes, item.0), n, item.1);
      }
    }

    /** The last step of `pairwise_merge`: the top node follows the merge. */
    method MoveTop(a: NodeId, b: NodeId, n: NodeId)
      modifies this
      ensures top == if old(top) == Some(a) || old(top) == Some(b) then Some(n) else old(top)
      ensures instances == old(instances) && relations == old(relations) && attributes == old(attributes)
    {
      if top == Some(a) || top == Some(b) {
        top := Some(n);
      }
    }

    /** `amalgamate(nodes)`: when a merge raises, the merges before it stay done. */
    method Amalgamate(nodes: seq<NodeId>) returns (r: Outcome<NodeId>)
      modifies this
      ensures var m := LegacySpec.Amalgamate(old(Current()), nodes, words);
        (m.Ok? ==> r == Ok(m.value.1)
                   && instances == m.value.0.instances && relations == m.value.0.relations
                   && attributes == m.value.0.attributes && top == m.value.0.top)
        && (m.Raise? ==> r == Raise(m.error))
    {
      if |nodes| < 2 {
        return Raise(AssertionError);
      }
      if |nodes| == 2 {
        r := PairwiseMerge(nodes[0], nodes[1]);
        return;
      }
      r := MergeLeft(nodes[0], nodes[1..]);
    }

    /** The `while node_to_merge` loop of `amalgamate`, popping the ids off the front of the list
        one at a time. */
    method MergeLeft(first: NodeId, rest: seq<NodeId>) returns (r: Outcome<NodeId>)
      requires rest != []
      modifies this
      ensures var m := MergeAll(old(Current()), first, rest, words);
        (m.Ok? ==> r == Ok(m.value.1)
                   && instances == m.value.0.instances && relations == m.value.0.relations
                   && attributes == m.value.0.attributes && top == m.value.0.top)
        && (m.Raise? ==> r == Raise(m.error))
    {
      ghost var s := Current();
      var acc := first;
      var toMerge: Option<NodeId> := Some(rest[0]);
      var queue := rest[1..];
      assert [rest[0]] + queue == rest;
      while toMerge.Some? && !Falsy(toMerge.value)
        invariant toMerge.None? ==> queue == []
        invariant MergeAll(s, first, rest, words) == MergeAll(Current(), acc, Pending(toMerge, queue), words)
        decreases |queue| + (if toMerge.Some? then 1 else 0)
      {
        ghost var before := Current();
        var m := PairwiseMerge(acc, toMerge.value);
        LegacyStep(before, acc, toMerge.value, queue, words);
        if m.Raise? {
          return Raise(m.error);
        }
        acc := m.value;
        if queue != [] {
          toMerge := Some(queue[0]);
          assert [queue[0]] + queue[1..] == queue;
          queue := queue[1..];
        } else {
          toMerge := None;
        }
      }
      return Ok(acc);
    }

    /** The triples of `render`: nodes, then edges, then attributes, each in dictionary order. */
    method Render() returns (triples: seq<Concepts.Triple>)
      ensures triples == RenderTriples(Current())
    {
      var nodes := NodeTriples(Snapshot(instances));
      var edges := GraphSpec.EdgeTriples(Snapshot(relations));
      var attrs := AttributeTriples(Snapshot(attributes));
      triples := nodes + edges + attrs;
    }
  }

  /** The ids still to be merged: the popped one, if any, then the rest of the list. */
  function Pending(toMerge: Option<NodeId>, queue: seq<NodeId>): seq<NodeId> {
    (if toMerge.Some? then [toMerge.value] else []) + queue
  }

  /** A merged key of two distinct int or tuple ids has at least one word id, so it is truthy. */
  lemma MergedIdTruthy(a: NodeId, b: NodeId)
    requires !a.Named? && !b.Named?
    ensures a != b ==> !Falsy(MergedId(a, b))
  {
    var f := Flatten(a) + Flatten(b);
    SortIntsSpec(f);
    assert |multiset(SortInts(f))| == |f|;
    if a != b && a.Composite? && b.Composite? {
      assert a.words != [] || b.words != [];
    }
  }

  /** `Merge` once both ids are found, distinct and not str: the exception of the re-pointing
      loop, or the state it and the attribute loop leave. */
  lemma MergeUnfolds(s: State, a: NodeId, b: NodeId, words: int -> string, inst: Instances, rels: Relations, o: Outcome<()>)
    requires a in s.instances.entries && b != a && b in s.instances.entries && !a.Named? && !b.Named?
    requires inst == MergedInstances(s.instances, a, b, MergedId(a, b), words)
    requires var r1 := GraphSpec.DropBetween(s.relations, a, b);
      match Repoint(inst, r1, Snapshot(r1), a, b, MergedId(a, b))
      case Ok(rs) => o == Ok(()) && rels == rs
      case Raise(e) => o == Raise(e)
    ensures var m := Merge(s, a, b, words);
      var n := MergedId(a, b);
      (o.Raise? ==> m == Raise(o.error))
      && (o.Ok? ==> m == Ok((State(inst, rels, Rekey(s.attributes, Snapshot(s.attributes), a, b, n),
                                   if s.top == Some(a) || s.top == Some(b) then Some(n) else s.top), n)))
  {
  }

  /** One more re-pointing iteration is one more `RepointStep`. */
  lemma RepointCons(inst: Instances, r: Relations, items: seq<(Edge, string)>, a: NodeId, b: NodeId, n: NodeId)
    requires items != []
    ensures Repoint(inst, r, items, a, b, n)
      == match RepointStep(inst, r, items[0], a, b, n)
         case Raise(e) => Raise(e)
         case Ok(r1) => Repoint(inst, r1, items[1..], a, b, n)
  {
  }

  /** One turn of the `amalgamate` loop is one turn of `MergeAll`. */
  lemma LegacyStep(s: State, acc: NodeId, x: NodeId, queue: seq<NodeId>, words: int -> string)
    requires !Falsy(x)
    ensures var m := Merge(s, acc, x, words);
      MergeAll(s, acc, [x] + queue, words)
      == if m.Raise? then Raise(m.error)
         else MergeAll(m.value.0, m.value.1, Pending(if queue != [] then Some(queue[0]) else None, if queue != [] then queue[1..] else []), words)
  {
    assert ([x] + queue)[0] == x && ([x] + queue)[1..] == queue;
    if queue != [] {
      assert [queue[0]] + queue[1..] == queue;
    }
  }

  class AMRAnnotation {
    const annotations: FusionSpec.Annotations
    /** `sentence.span_ids_to_word_id`, given. */
    const spanToWord: (int, int) -> (int, int)
    const graph: AMRGraph
    /** `Ok(())` when every pass ran, else the exception that ended construction. */
    var status: Outcome<()>

    /** `__init__`: an empty graph, then `parse_to_penman`, `update_from_srl` and
        `update_from_ner` in that order. */
    constructor(annotations: FusionSpec.Annotations, spanToWord: (int, int) -> (int, int), words: int -> string)
      ensures this.annotations == annotations && this.spanToWord == spanToWord && fresh(graph) && graph.words == words
      ensures match Annotate(annotations, spanToWord, words)
        case Ok(s) => status == Ok(()) && graph.Current() == s
        case Raise(e) => status == Raise(e)
    {
      this.annotations := annotations;
      this.spanToWord := spanToWord;
      graph := new AMRGraph(words);
      new;
      status := RunPipeline();
    }

    /** The three passes of `__init__`, stopping at the first exception. */
    method RunPipeline() returns (r: Outcome<()>)
      requires graph.Current() == Initial()
      modifies graph
      ensures match Annotate(annotations, spanToWord, graph.words)
        case Ok(s) => r == Ok(()) && graph.Current() == s
        case Raise(e) => r == Raise(e)
    {
      r := ParseToPenman();
      if r.Raise? {
        return;
      }
      UpdateFromSrl();
      r := UpdateFromNer();
    }

    /** `encode()`: the triples of the graph. */
    method Encode() returns (triples: seq<Concepts.Triple>)
      ensures triples == RenderTriples(graph.Current())
    {
      triples := graph.Render();
    }

    /** `parse_to_penman`: a node per word, then an edge per word from its head, the root word
        becoming the top. */
    method ParseToPenman() returns (r: Outcome<()>)
      modifies graph
      ensures match LegacySpec.ParseToPenman(old(graph.Current()), annotations.dep)
        case Ok(s) => r == Ok(()) && graph.Current() == s
        case Raise(e) => r == Raise(e)
    {
      ghost var s0 := graph.Current();
      var ws := annotations.dep;
      var i := 0;
      while i < |ws|
        invariant 0 <= i <= |ws|
        invariant graph.relations == s0.relations && graph.attributes == s0.attributes && graph.top == s0.top
        invariant DepInstances(s0.instances, ws) == DepInstances(graph.instances, ws[i..])
      {
        assert ws[i..][1..] == ws[i + 1..];
        graph.AddInstance(ws[i].wordForm, Single(ws[i].wordId));
        i := i + 1;
      }
      ghost var s1 := graph.Current();
      assert s1 == s0.(instances := DepInstances(s0.instances, ws));
      i := 0;
      while i < |ws|
        invariant 0 <= i <= |ws|
        invariant DepLinks(s1, ws) == DepLinks(graph.Current(), ws[i..])
      {
        assert ws[i..][0] == ws[i] && ws[i..][1..] == ws[i + 1..];
        var w := ws[i];
        if w.head == -1 {
          SetTop(Single(w.wordId));
        } else {
          ghost var before := graph.Current();
          var o := graph.AddRelation(Single(w.head), DepLabel(w.deprel), Single(w.wordId));
          if o.Raise? {
            return o;
          }
          assert graph.Current() == before.(relations := graph.relations);
        }
        i := i + 1;
      }
      return Ok(());
    }

    /** `self.graph.top = tail_idx` */
    method SetTop(idx: NodeId)
      modifies graph
      ensures graph.top == Some(idx)
      ensures graph.instances == old(graph.instances) && graph.relations == old(graph.relations)
      ensures graph.attributes == old(graph.attributes)
    {
      graph.top := Some(idx);
    }

    /** `update_from_srl`: every argument's edge from the predicate's word is written straight
        into the relations. */
    method UpdateFromSrl()
      modifies graph
      ensures graph.relations == SrlPass(old(graph.relations), annotations.srl, spanToWord)
      ensures graph.instances == old(graph.instances) && graph.attributes == old(graph.attributes)
      ensures graph.top == old(graph.top)
    {
      ghost var r0 := graph.relations;
      var srls := annotations.srl;
      var i := 0;
      while i < |srls|
        invariant 0 <= i <= |srls|
        invariant graph.instances == old(graph.instances) && graph.attributes == old(graph.attributes)
        invariant graph.top == old(graph.top)
        invariant SrlPass(r0, srls, spanToWord) == SrlPass(graph.relations, srls[i..], spanToWord)
      {
        assert srls[i..][0] == srls[i] && srls[i..][1..] == srls[i + 1..];
        var span := spanToWord(srls[i].pred.begin, srls[i].pred.end);
        var p := Single(span.1);
        ghost var rs := graph.relations;
        var args := srls[i].arguments;
        var k := 0;
        while k < |args|
          invariant 0 <= k <= |args|
          invariant graph.instances == old(graph.instances) && graph.attributes == old(graph.attributes)
          invariant graph.top == old(graph.top)
          invariant ArgWrites(rs, p, args) == ArgWrites(graph.relations, p, args[k..])
        {
          assert args[k..][0] == args[k] && args[k..][1..] == args[k + 1..];
          WriteRelation((p, Single(args[k].wordId)), SrlLabel(args[k].role));
          k := k + 1;
        }
        i := i + 1;
      }
    }

    /** `self.graph.relations[e] = lbl` */
    method WriteRelation(e: Edge, lbl: string)
      modifies graph
      ensures graph.relations == Put(old(graph.relations), e, lbl)
      ensures graph.instances == old(graph.instances) && graph.attributes == old(graph.attributes)
      ensures graph.top == old(graph.top)
    {
      graph.relations := Put(graph.relations, e, lbl);
    }

    /** `update_from_ner`: every entity spanning two or more words has them amalgamated. */
    method UpdateFromNer() returns (r: Outcome<()>)
      modifies graph
      ensures match NerPass(old(graph.Current()), annotations.ner, spanToWord, graph.words)
        case Ok(s) => r == Ok(()) && graph.Current() == s
        case Raise(e) => r == Raise(e)
    {
      ghost var s0 := graph.Current();
      var items := annotations.ner;
      var i := 0;
      while i < |items|
        invariant 0 <= i <= |items|
        invariant NerPass(s0, items, spanToWord, graph.words) == NerPass(graph.Current(), items[i..], spanToWord, graph.words)
      {
        assert items[i..][0] == items[i] && items[i..][1..] == items[i + 1..];
        ghost var before := graph.Current();
        var span := spanToWord(items[i].begin, items[i].end);
        if span.0 < span.1 {
          LegacyLaws.NerItemSpan(before, items[i], spanToWord, graph.words, span.0, span.1);
          var m := graph.Amalgamate(FusionSpec.Range(span.0, span.1 + 1));
          if m.Raise? {
            return Raise(m.error);
          }
        } else {
          LegacyLaws.NerItemSkip(before, items[i], spanToWord, graph.words, span.0, span.1);
        }
        i := i + 1;
      }
      return Ok(());
    }
  }
}
