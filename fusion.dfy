/** `AbstractMeaningRepresentation` as an object: its constructor builds an empty graph store and
    runs the five fusion passes on it in place, each pass being a method over the store whose
    effect is proved to be that of the matching function of `FusionSpec`. An exception escaping a
    pass ends construction; the model records it in `status`. */
module Fusion {
  import opened PyStr
  import opened PyDict
  import opened NodeIds
  import opened Concepts
  import opened Outcomes
  import opened GraphSpec
  import opened NamedEntityTable
  import opened FusionSpec
  import opened GraphStore
  import FusionLaws

  class AbstractMeaningRepresentation {
    const annotations: Annotations
    const lookups: Lookups
    const graph: AMRGraph
    /** `NAMED_ENTITIES`, the table the entity pass reads. */
    const table: seq<Row>
    /** `Ok(())` when every pass ran, else the exception that ended construction. */
    var status: Outcome<()>

    /** The store's invariant, on a store that reads the sentence's words. */
    ghost predicate Valid()
      reads this, graph
    {
      graph.Valid() && graph.words == lookups.word
    }

    /** `__init__`: an empty graph, then the dependency, construction, entity, role and sense
        passes in that order. */
    constructor(annotations: Annotations, lookups: Lookups)
      ensures this.annotations == annotations && this.lookups == lookups && table == NamedEntities && fresh(graph)
      ensures match Pipeline(annotations, lookups, table)
        case Ok(s) => status == Ok(()) && graph.instances == s.instances && graph.relations == s.relations
                      && graph.top == s.top && Valid()
        case Raise(e) => status == Raise(e)
    {
      this.annotations := annotations;
      this.lookups := lookups;
      table := NamedEntities;
      graph := new AMRGraph(lookups.word);
      new;
      status := RunPipeline();
    }

    /** The pipeline loop of `__init__`. */
    method RunPipeline() returns (r: Outcome<()>)
      requires Valid() && graph.Current() == State(Empty(), Empty(), None)
      modifies graph
      ensures match Pipeline(annotations, lookups, table)
        case Ok(s) => r == Ok(()) && graph.instances == s.instances && graph.relations == s.relations
                      && graph.top == s.top && Valid()
        case Raise(e) => r == Raise(e)
    {
      r := UpdateFromDep();
      if r.Raise? {
        return;
      }
      r := UpdateFromMwe();
      if r.Raise? {
        return;
      }
      r := UpdateFromNer(true);
      if r.Raise? {
        return;
      }
      r := UpdateFromSrl();
      if r.Raise? {
        return;
      }
      r := UpdateFromWsd();
    }

    /** `encode()`: the triples of the graph. */
    method Encode(unquote: string -> string) returns (triples: seq<Triple>)
      requires Valid()
      ensures Renderable(graph.Current()) && triples == RenderTriples(graph.Current(), unquote)
    {
      triples := graph.Render(unquote);
    }

    // -------------------------------------------------------------------------------------------
    // update_from_dep

    /** `update_from_dep`: a node per word, then a `:dep.` edge per word from its head, the root
        word becoming the top. */
    method UpdateFromDep() returns (r: Outcome<()>)
      requires Valid() && PlainKeys(graph.instances.order)
      modifies graph
      ensures match DepPass(old(graph.Current()), annotations.dep)
        case Ok(s) => r == Ok(()) && graph.instances == s.instances && graph.relations == s.relations
                      && graph.top == s.top && Valid()
        case Raise(e) => r == Raise(e)
    {
      ghost var s0 := graph.Current();
      var ws := annotations.dep;
      var i := 0;
      while i < |ws|
        invariant 0 <= i <= |ws|
        invariant graph.relations == s0.relations && graph.top == s0.top
        invariant DepInstances(s0.instances, ws) == DepInstances(graph.instances, ws[i..])
      {
        assert ws[i..][1..] == ws[i + 1..];
        graph.AddInstance(Single(ws[i].wordId), ws[i].wordForm, {ws[i].wordId});
        i := i + 1;
      }
      ghost var s1 := graph.Current();
      assert s1 == s0.(instances := DepInstances(s0.instances, ws));
      r := AddDepLinks(ws);
      if DepPass(s0, ws).Ok? {
        FusionLaws.DepPassWf(s0, ws);
      }
    }

    /** The second loop of `update_from_dep`. */
    method AddDepLinks(ws: seq<DepWord>) returns (r: Outcome<()>)
      modifies graph
      ensures match DepLinks(old(graph.Current()), ws)
        case Ok(s) => r == Ok(()) && graph.instances == s.instances && graph.relations == s.relations
                      && graph.top == s.top
        case Raise(e) => r == Raise(e)
    {
      ghost var s0 := graph.Current();
      var i := 0;
      while i < |ws|
        invariant 0 <= i <= |ws|
        invariant DepLinks(s0, ws) == DepLinks(graph.Current(), ws[i..])
      {
        assert ws[i..][1..] == ws[i + 1..];
        var w := ws[i];
        if w.head == -1 {
          SetTop(Single(w.wordId));
        } else {
          var o := graph.AddRelation(Single(w.head), ":dep." + w.deprel, Single(w.wordId));
          if o.Raise? {
            return Raise(o.error);
          }
        }
        i := i + 1;
      }
      return Ok(());
    }

    /** `self.graph.top = idx` */
    method SetTop(idx: NodeId)
      modifies graph
      ensures graph.top == Some(idx)
      ensures graph.instances == old(graph.instances) && graph.relations == old(graph.relations)
    {
      graph.top := Some(idx);
    }

    /** `self.graph.instances[idx] = concept` */
    method SetConcept(idx: NodeId, c: Concept)
      modifies graph
      ensures graph.instances == Put(old(graph.instances), idx, c)
      ensures graph.relations == old(graph.relations) && graph.top == old(graph.top)
    {
      graph.instances := Put(graph.instances, idx, c);
    }

    // -------------------------------------------------------------------------------------------
    // update_from_mwe

    /** `update_from_mwe`: every construction pattern in turn. */
    method UpdateFromMwe() returns (r: Outcome<()>)
      requires Valid()
      modifies graph
      ensures match MwePass(old(graph.Current()), annotations.numbered, lookups)
        case Ok(s) => r == Ok(()) && graph.instances == s.instances && graph.relations == s.relations
                      && graph.top == s.top && Valid()
        case Raise(e) => r == Raise(e)
    {
      ghost var s0 := graph.Current();
      var patterns := lookups.patterns;
      var i := 0;
      while i < |patterns|
        invariant 0 <= i <= |patterns|
        invariant Valid()
        invariant MwePatterns(s0, patterns, annotations.numbered, lookups)
          == MwePatterns(graph.Current(), patterns[i..], annotations.numbered, lookups)
      {
        assert patterns[i..][0] == patterns[i] && patterns[i..][1..] == patterns[i + 1..];
        r := MatchPattern(patterns[i]);
        if r.Raise? {
          return;
        }
        i := i + 1;
      }
      return Ok(());
    }

    /** One `(pattern, guides)` pair: every window of as many words as the pattern has queries. */
    method MatchPattern(pattern: (string, seq<(string, string)>)) returns (r: Outcome<()>)
      requires Valid()
      modifies graph
      ensures match MwePattern(old(graph.Current()), pattern, annotations.numbered, lookups)
        case Ok(s) => r == Ok(()) && graph.instances == s.instances && graph.relations == s.relations
                      && graph.top == s.top && Valid()
        case Raise(e) => r == Raise(e)
    {
      ghost var s0 := graph.Current();
      var queries := Split(pattern.0);
      var windows := Windows(annotations.numbered, |queries|);
      var j := 0;
      while j < |windows|
        invariant 0 <= j <= |windows|
        invariant Valid()
        invariant MweWindows(s0, queries, windows, pattern.1, lookups)
          == MweWindows(graph.Current(), queries, windows[j..], pattern.1, lookups)
      {
        assert windows[j..][0] == windows[j] && windows[j..][1..] == windows[j + 1..];
        if AllMatch(queries, windows[j], lookups.search) {
          r := MergeWindow(windows[j], pattern.1);
          if r.Raise? {
            return;
          }
        }
        j := j + 1;
      }
      return Ok(());
    }

    /** A matching window: its words amalgamated with redirection, then the guides added. */
    method MergeWindow(window: seq<(int, string)>, guides: seq<(string, string)>) returns (r: Outcome<()>)
      requires Valid()
      modifies graph
      ensures match MweWindow(old(graph.Current()), window, guides, lookups.word)
        case Ok(s) => r == Ok(()) && graph.instances == s.instances && graph.relations == s.relations
                      && graph.top == s.top && Valid()
        case Raise(e) => r == Raise(e)
    {
      var n := graph.Amalgamate(WindowIds(window), true);
      if n.Raise? {
        return Raise(n.error);
      }
      r := AddGuides(n.value, guides);
    }

    /** The guide loop: `self.graph.instances[idx].add_attribute(relation, value)` per guide. */
    method AddGuides(idx: NodeId, guides: seq<(string, string)>) returns (r: Outcome<()>)
      requires Valid()
      modifies graph
      ensures match Guide(old(graph.Current()), idx, guides)
        case Ok(s) => r == Ok(()) && graph.instances == s.instances && graph.relations == s.relations
                      && graph.top == s.top && Valid()
        case Raise(e) => r == Raise(e)
    {
      ghost var s0 := graph.Current();
      var i := 0;
      while i < |guides|
        invariant 0 <= i <= |guides|
        invariant Guide(s0, idx, guides) == Guide(graph.Current(), idx, guides[i..])
      {
        FusionLaws.GuideNext(graph.Current(), idx, guides, i);
        if idx !in graph.instances.entries {
          return Raise(KeyError);
        }
        var c := Concepts.AddAttribute(graph.instances.entries[idx], guides[i].0, guides[i].1);
        if c.Raise? {
          return Raise(c.error);
        }
        SetConcept(idx, c.value);
        i := i + 1;
      }
      FusionLaws.GuideKeepsWf(s0, idx, guides);
      return Ok(());
    }

    // -------------------------------------------------------------------------------------------
    // update_from_ner

    /** `update_from_ner(wikification)`: every entity item of the chosen layer. */
    method UpdateFromNer(wikification: bool) returns (r: Outcome<()>)
      requires Valid()
      modifies graph
      ensures match NerPass(old(graph.Current()), annotations, wikification, lookups, table)
        case Ok(s) => r == Ok(()) && graph.instances == s.instances && graph.relations == s.relations
                      && graph.top == s.top && Valid()
        case Raise(e) => r == Raise(e)
    {
      ghost var s0 := graph.Current();
      var items := if wikification then annotations.el else annotations.ner;
      var i := 0;
      while i < |items|
        invariant 0 <= i <= |items|
        invariant Valid()
        invariant NerItems(s0, items, wikification, lookups, table) == NerItems(graph.Current(), items[i..], wikification, lookups, table)
      {
        ghost var before := graph.Current();
        FusionLaws.NerItemsNext(before, items, i, wikification, lookups, table);
        r := AddEntity(items[i], wikification);
        if r.Raise? {
          return;
        }
        i := i + 1;
      }
      return Ok(());
    }

    /** One entity item: the node of its span, then the node replaced by the table's concept. */
    method AddEntity(item: NeItem, wikification: bool) returns (r: Outcome<()>)
      requires Valid()
      modifies graph
      ensures match NerItem(old(graph.Current()), item, wikification, lookups, table)
        case Ok(s) => r == Ok(()) && graph.instances == s.instances && graph.relations == s.relations
                      && graph.top == s.top && Valid()
        case Raise(e) => r == Raise(e)
    {
      ghost var s0 := graph.Current();
      var (wb, we) := lookups.spanToWord(item.begin, item.end);
      var n := EntityNode(wb, we);
      if n.Raise? {
        return Raise(n.error);
      }
      r := Replace(n.value, item, wikification);
      if NerItem(s0, item, wikification, lookups, table).Ok? {
        FusionLaws.NerItemWf(s0, item, wikification, lookups, table);
      }
    }

    /** The node an entity lands on: its words amalgamated, its one word resolved, or ValueError
        for a reversed span. */
    method EntityNode(wb: int, we: int) returns (r: Outcome<NodeId>)
      requires Valid()
      modifies graph
      ensures match NerNode(old(graph.Current()), wb, we, lookups.word)
        case Ok(p) => r == Ok(p.1) && graph.instances == p.0.instances && graph.relations == p.0.relations
                      && graph.top == p.0.top && Valid()
        case Raise(e) => r == Raise(e)
    {
      if wb < we {
        r := graph.Amalgamate(Range(wb, we + 1), true);
      } else if wb == we {
        var n := graph.RedirectNode(Single(we));
        r := Ok(n);
      } else {
        r := Raise(ValueError);
      }
    }

    /** `concept_type, cls = NAMED_ENTITIES[label]`, then the node replaced by `cls(...)` built on
        its mapping. */
    method Replace(n: NodeId, item: NeItem, wikification: bool) returns (r: Outcome<()>)
      modifies graph
      ensures match NerEntity(old(graph.Current()), n, item, wikification, table)
        case Ok(s) => r == Ok(()) && graph.instances == s.instances && graph.relations == s.relations
                      && graph.top == s.top
        case Raise(e) => r == Raise(e)
    {
      var entry := Lookup(table, item.tag);
      if entry.None? {
        return Raise(KeyError);
      }
      match entry.value
      case NoneEntry =>
        return Raise(TypeError);
      case Bare(x) =>
        if |x| != 2 {
          return Raise(ValueError);
        }
        if n !in graph.instances.entries {
          return Raise(KeyError);
        }
        return Raise(TypeError);
      case Pair(conceptType, cls) =>
        if n !in graph.instances.entries {
          return Raise(KeyError);
        }
        var wiki := if wikification then item.url else None;
        var c := Construct(cls, conceptType, item.id, item.form, wiki, Some(graph.instances.entries[n].mapping));
        SetConcept(n, c);
        return Ok(());
    }

    // -------------------------------------------------------------------------------------------
    // update_from_srl

    /** `update_from_srl`: the arguments of every role frame, attached to the predicate's node. */
    method UpdateFromSrl() returns (r: Outcome<()>)
      requires Valid()
      modifies graph
      ensures match SrlItems(old(graph.Current()), annotations.srl, lookups)
        case Ok(s) => r == Ok(()) && graph.instances == s.instances && graph.relations == s.relations
                      && graph.top == s.top && Valid()
        case Raise(e) => r == Raise(e)
    {
      ghost var s0 := graph.Current();
      var srls := annotations.srl;
      var i := 0;
      while i < |srls|
        invariant 0 <= i <= |srls|
        invariant SrlItems(s0, srls, lookups) == SrlItems(graph.Current(), srls[i..], lookups)
      {
        assert srls[i..][0] == srls[i] && srls[i..][1..] == srls[i + 1..];
        var pred := srls[i].pred;
        var (_, target) := lookups.spanToWord(pred.begin, pred.end);
        var p := graph.RedirectNode(Single(target));
        r := AddArguments(p, srls[i].arguments);
        if r.Raise? {
          return;
        }
        i := i + 1;
      }
      FusionLaws.SrlItemsWf(s0, srls, lookups);
      return Ok(());
    }

    /** The argument loop of one role frame. */
    method AddArguments(p: NodeId, args: seq<SrlArgument>) returns (r: Outcome<()>)
      modifies graph
      ensures match SrlArguments(old(graph.Current()), p, args)
        case Ok(s) => r == Ok(()) && graph.instances == s.instances && graph.relations == s.relations
                      && graph.top == s.top
        case Raise(e) => r == Raise(e)
    {
      ghost var s0 := graph.Current();
      var i := 0;
      while i < |args|
        invariant 0 <= i <= |args|
        invariant SrlArguments(s0, p, args) == SrlArguments(graph.Current(), p, args[i..])
      {
        assert args[i..][0] == args[i] && args[i..][1..] == args[i + 1..];
        r := AddArgument(p, args[i]);
        if r.Raise? {
          return;
        }
        i := i + 1;
      }
      return Ok(());
    }

    /** One argument: a `:srl.` edge to its node, replacing a reverse dependency edge. */
    method AddArgument(p: NodeId, arg: SrlArgument) returns (r: Outcome<()>)
      modifies graph
      ensures match SrlArgumentStep(old(graph.Current()), p, arg)
        case Ok(s) => r == Ok(()) && graph.instances == s.instances && graph.relations == s.relations
                      && graph.top == s.top
        case Raise(e) => r == Raise(e)
    {
      if arg.role == "ARGM-NEG" {
        return Ok(());
      }
      var t := graph.RedirectNode(Single(arg.wordId));
      r := graph.AddRelation(p, ":srl." + arg.role, t);
      if r.Raise? {
        return;
      }
      var inverted := graph.GetRelation(t, p, false);
      if inverted.Some? && StartsWith(inverted.value, ":dep.") {
        r := graph.DelRelation(t, p, false);
      }
    }

    // -------------------------------------------------------------------------------------------
    // update_from_wsd

    /** `update_from_wsd`: the predicate nodes resolved first, then every node retyped in place. */
    method UpdateFromWsd() returns (r: Outcome<()>)
      requires Valid()
      modifies graph
      ensures match WsdPass(old(graph.Current()), annotations.srl, lookups)
        case Ok(s) => r == Ok(()) && graph.instances == s.instances && graph.relations == s.relations
                      && graph.top == s.top && Valid()
        case Raise(e) => r == Raise(e)
    {
      ghost var s0 := graph.Current();
      var srls := annotations.srl;
      var preds := graph.RedirectNodes(PredicateWords(srls, lookups));
      var items := Items(graph.instances);
      var i := 0;
      while i < |items|
        invariant 0 <= i <= |items|
        invariant graph.relations == s0.relations && graph.top == s0.top
        invariant SenseNodes(s0.instances, items, preds, srls, lookups)
          == SenseNodes(graph.instances, items[i..], preds, srls, lookups)
      {
        assert items[i..][0] == items[i] && items[i..][1..] == items[i + 1..];
        var t := TypeOf(items[i].0, items[i].1, preds);
        if t.Raise? {
          return Raise(t.error);
        }
        if t.value.Some? {
          SetConcept(items[i].0, Retyped(items[i].1, t.value));
        }
        i := i + 1;
      }
      FusionLaws.WsdPassSpec(s0, srls, lookups);
      return Ok(());
    }

    /** The body of the sense loop for one node: its new concept type, if any. */
    method TypeOf(k: NodeId, c: Concept, preds: seq<NodeId>) returns (t: Outcome<Option<string>>)
      requires |preds| == |annotations.srl|
      ensures t == SenseType(k, c, preds, annotations.srl, lookups)
    {
      if !c.variant.IndexFree? {
        return Ok(None);
      }
      var first := FirstIdx(k);
      if first.Raise? {
        return Raise(first.error);
      }
      var forms := lookups.rootForms(first.value);
      if k in preds {
        var pred := annotations.srl[IndexOf(preds, k)].pred;
        if forms != [] {
          var frames := RootFrames(forms);
          if frames == [] {
            frames := lookups.framesByLemma(pred.lemmaText);
          }
          if frames != [] {
            return Ok(Some(frames[0]));
          }
          return Ok(Some(LemmaForm(pred, lookups) + "-98"));
        }
        return Ok(Some(LemmaForm(pred, lookups) + "-99"));
      } else if forms != [] {
        return Ok(Some(Concat(Roots(forms))));
      }
      return Ok(None);
    }

    /** The prefix loop: the frames of the first prefix of root forms, shortest first, that has any. */
    method RootFrames(forms: seq<(string, string)>) returns (frames: seq<string>)
      ensures frames == RootFramesFrom(lookups.framesByRoot, forms, 0)
    {
      frames := [];
      var end := 0;
      while end <= |forms|
        invariant 0 <= end <= |forms| + 1
        invariant RootFramesFrom(lookups.framesByRoot, forms, 0) == RootFramesFrom(lookups.framesByRoot, forms, end)
      {
        frames := lookups.framesByRoot(RootQuery(forms, end));
        if frames != [] {
          return;
        }
        end := end + 1;
      }
      frames := [];
    }
  }
}
