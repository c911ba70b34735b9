/** What the fusion passes promise: each keeps the graph store's invariant, the dependency pass
    builds one node per word and puts the root on top, the construction pass leaves the graph
    alone where nothing matches, the entity pass replaces a node by its table class and keeps its
    alignment, the role pass swaps a dependency edge for a role edge, and the sense pass changes
    nothing but concept types. */
module FusionLaws {
  import opened PyStr
  import opened PyDict
  import opened NodeIds
  import opened Concepts
  import opened Outcomes
  import opened GraphSpec
  import opened NamedEntityTable
  import opened FusionSpec
  import StoreLaws

  // ---------------------------------------------------------------------------------------------
  // update_from_dep

  predicate NonzeroIds(ws: seq<DepWord>) {
    forall i :: 0 <= i < |ws| ==> ws[i].wordId != 0
  }

  /** Word `i` is the last word of `ws` with its id. */
  predicate LastOfId(ws: seq<DepWord>, i: int)
    requires 0 <= i < |ws|
  {
    forall j :: i < j < |ws| ==> ws[j].wordId != ws[i].wordId
  }

  function DepIds(ws: seq<DepWord>): set<int> {
    set i | 0 <= i < |ws| :: ws[i].wordId
  }

  lemma DepIdsCons(ws: seq<DepWord>)
    requires ws != []
    ensures DepIds(ws) == {ws[0].wordId} + DepIds(ws[1..])
  {
    forall x | x in DepIds(ws) ensures x in {ws[0].wordId} + DepIds(ws[1..]) {
      var i :| 0 <= i < |ws| && ws[i].wordId == x;
      if i > 0 {
        assert ws[1..][i - 1] == ws[i];
      }
    }
    forall x | x in DepIds(ws[1..]) ensures x in DepIds(ws) {
      var i :| 0 <= i < |ws[1..]| && ws[1..][i].wordId == x;
      assert ws[i + 1] == ws[1..][i];
    }
  }

  /** With truthy word ids, the instance loop stores under each id the index-free node of the last
      word with that id, aligned to that id alone; any other node is kept, and no other key appears. */
  lemma {:induction false} DepInstancesSpec(inst: Instances, ws: seq<DepWord>)
    requires NonzeroIds(ws)
    ensures var r := DepInstances(inst, ws);
      (forall i :: 0 <= i < |ws| && LastOfId(ws, i) ==>
         Single(ws[i].wordId) in r.entries
         && r.entries[Single(ws[i].wordId)] == Concept(ws[i].wordForm, Empty(), {ws[i].wordId}, IndexFree))
      && (forall k :: k in inst.entries && !(k.Single? && k.word in DepIds(ws)) ==> k in r.entries && r.entries[k] == inst.entries[k])
      && (forall k :: k in r.entries ==> k in inst.entries || (k.Single? && k.word in DepIds(ws)))
    decreases |ws|
  {
    if ws != [] {
      var w := ws[0];
      var k := Single(w.wordId);
      var inst1 := AddInstance(inst, k, w.wordForm, {w.wordId});
      assert inst1.entries == inst.entries[k := Concept(w.wordForm, Empty(), {w.wordId}, IndexFree)];
      var rest := ws[1..];
      assert NonzeroIds(rest) by {
        forall j | 0 <= j < |rest| ensures rest[j].wordId != 0 {
          assert rest[j] == ws[j + 1];
        }
      }
      DepInstancesSpec(inst1, rest);
      DepIdsCons(ws);
      var r := DepInstances(inst, ws);
      forall i | 0 <= i < |ws| && LastOfId(ws, i)
        ensures Single(ws[i].wordId) in r.entries
          && r.entries[Single(ws[i].wordId)] == Concept(ws[i].wordForm, Empty(), {ws[i].wordId}, IndexFree)
      {
        if i == 0 {
          assert forall j :: 0 <= j < |rest| ==> rest[j] == ws[j + 1];
          assert w.wordId !in DepIds(rest);
        } else {
          assert rest[i - 1] == ws[i];
          assert LastOfId(rest, i - 1) by {
            forall j | i - 1 < j < |rest| ensures rest[j].wordId != rest[i - 1].wordId {
              assert rest[j] == ws[j + 1];
            }
          }
        }
      }
    }
  }

  /** Starting from keys that are all int or str ids, the instance loop keeps the invariant and
      the keys plain, and keeps every key. */
  lemma {:induction false} DepInstancesWf(s: State, ws: seq<DepWord>)
    requires Wf(s) && PlainKeys(s.instances.order)
    ensures var s' := s.(instances := DepInstances(s.instances, ws));
      Wf(s') && PlainKeys(s'.instances.order)
      && (forall k :: k in s.instances.entries ==> k in s'.instances.entries)
    decreases |ws|
  {
    if ws != [] {
      var w := ws[0];
      var k := InstanceKey(Single(w.wordId), |s.instances.order|);
      assert !k.Composite?;
      if k !in s.instances.entries {
        forall j | j in s.instances.entries ensures Tokens(j) !! Tokens(k) {
          assert j in s.instances.order;
          var n :| 0 <= n < |s.instances.order| && s.instances.order[n] == j;
          assert !j.Composite?;
        }
      }
      StoreLaws.AddInstanceWf(s, Single(w.wordId), w.wordForm, {w.wordId});
      var s1 := s.(instances := AddInstance(s.instances, Single(w.wordId), w.wordForm, {w.wordId}));
      assert PlainKeys(s1.instances.order) by {
        PutSpec(s.instances, k, NewIndexFree(w.wordForm, Some({w.wordId})));
      }
      DepInstancesWf(s1, ws[1..]);
    }
  }

  /** One link: the root word becomes the top node; any other word fails with AssertionError
      exactly when its head or itself is not a node, and otherwise gets a `:dep.` edge from its
      head unless the two are one node; nodes stay, and the invariant is kept. */
  lemma {:induction false} DepLinkSpec(s: State, w: DepWord)
    requires Wf(s)
    ensures DepLink(s, w).Raise? <==>
      w.head != -1 && (Single(w.head) !in s.instances.entries || Single(w.wordId) !in s.instances.entries)
    ensures DepLink(s, w).Raise? ==> DepLink(s, w).error == AssertionError
    ensures w.head == -1 ==> DepLink(s, w) == Ok(s.(top := Some(Single(w.wordId))))
    ensures DepLink(s, w).Ok? && w.head != -1 ==>
      var s' := DepLink(s, w).value;
      s'.instances == s.instances && s'.top == s.top && Wf(s')
      && (w.head != w.wordId ==>
            (Single(w.head), Single(w.wordId)) in s'.relations.entries
            && s'.relations.entries[(Single(w.head), Single(w.wordId))] == ":dep." + w.deprel)
  {
    if w.head != -1 {
      var lbl := ":dep." + w.deprel;
      StartsWithPrefix(lbl, ":");
      StoreLaws.AddRelationWf(s, Single(w.head), lbl, Single(w.wordId));
      if DepLink(s, w).Ok? {
        StoreLaws.AddRelationSpec(s, Single(w.head), lbl, Single(w.wordId));
      }
    }
  }

  /** The link loop keeps the nodes and the invariant. */
  lemma {:induction false} DepLinksWf(s: State, ws: seq<DepWord>)
    requires Wf(s) && DepLinks(s, ws).Ok?
    ensures Wf(DepLinks(s, ws).value) && DepLinks(s, ws).value.instances == s.instances
    decreases |ws|
  {
    if ws != [] {
      DepLinkSpec(s, ws[0]);
      DepLinksWf(DepLink(s, ws[0]).value, ws[1..]);
    }
  }

  /** After the link loop the top node is the last root word, or the old top when no word is a root. */
  lemma {:induction false} DepLinksTop(s: State, ws: seq<DepWord>)
    requires DepLinks(s, ws).Ok?
    ensures forall i :: 0 <= i < |ws| && ws[i].head == -1 && (forall j :: i < j < |ws| ==> ws[j].head != -1) ==>
      DepLinks(s, ws).value.top == Some(Single(ws[i].wordId))
    ensures (forall i :: 0 <= i < |ws| ==> ws[i].head != -1) ==> DepLinks(s, ws).value.top == s.top
    decreases |ws|
  {
    if ws != [] {
      var s1 := DepLink(s, ws[0]).value;
      var rest := ws[1..];
      DepLinksTop(s1, rest);
      assert forall j :: 0 <= j < |rest| ==> rest[j] == ws[j + 1];
      if forall j :: 0 <= j < |rest| ==> rest[j].head != -1 {
        assert ws[0].head == -1 ==> s1.top == Some(Single(ws[0].wordId));
        assert ws[0].head != -1 ==> s1.top == s.top;
      }
      forall i | 0 <= i < |ws| && ws[i].head == -1 && (forall j :: i < j < |ws| ==> ws[j].head != -1)
        ensures DepLinks(s, ws).value.top == Some(Single(ws[i].wordId))
      {
        if i > 0 {
          assert rest[i - 1] == ws[i];
          assert forall j :: i - 1 < j < |rest| ==> rest[j].head != -1;
        } else {
          assert forall j :: 0 <= j < |rest| ==> rest[j].head != -1;
        }
      }
    }
  }

  /** The dependency pass, from plain keys: the invariant is kept, the keys stay plain, and the nodes
      are those of the instance loop. */
  lemma {:induction false} DepPassWf(s: State, ws: seq<DepWord>)
    requires Wf(s) && PlainKeys(s.instances.order) && DepPass(s, ws).Ok?
    ensures Wf(DepPass(s, ws).value) && PlainKeys(DepPass(s, ws).value.instances.order)
    ensures DepPass(s, ws).value.instances == DepInstances(s.instances, ws)
  {
    DepInstancesWf(s, ws);
    DepLinksWf(s.(instances := DepInstances(s.instances, ws)), ws);
  }

  // ---------------------------------------------------------------------------------------------
  // update_from_mwe

  predicate GuideLabelsOk(guides: seq<(string, string)>) {
    forall i :: 0 <= i < |guides| ==> StartsWith(guides[i].0, ":")
  }

  /** The guide loop succeeds exactly when there is nothing to add or the node is a key and every
      label has the `:` prefix, failing with KeyError on a missing node and AssertionError on a bad
      label; it touches that node only and keeps the invariant. */
  lemma {:induction false} GuideWf(s: State, n: NodeId, guides: seq<(string, string)>)
    requires Wf(s)
    ensures Guide(s, n, guides).Ok? <==> guides == [] || (n in s.instances.entries && GuideLabelsOk(guides))
    ensures guides != [] && n !in s.instances.entries ==> Guide(s, n, guides) == Raise(KeyError)
    ensures n in s.instances.entries && !GuideLabelsOk(guides) ==> Guide(s, n, guides) == Raise(AssertionError)
    ensures Guide(s, n, guides).Ok? ==>
      var s' := Guide(s, n, guides).value;
      Wf(s') && s'.relations == s.relations && s'.top == s.top && s'.instances.order == s.instances.order
      && (forall k :: k in s'.instances.entries <==> k in s.instances.entries)
      && (forall k :: k in s.instances.entries && k != n ==> s'.instances.entries[k] == s.instances.entries[k])
    decreases |guides|
  {
    if guides != [] && n in s.instances.entries {
      var g := guides[0];
      StoreLaws.AddAttributeWf(s, n, g.0, g.1);
      assert GuideLabelsOk(guides) <==> StartsWith(g.0, ":") && GuideLabelsOk(guides[1..]) by {
        assert forall i :: 0 <= i < |guides[1..]| ==> guides[1..][i] == guides[i + 1];
      }
      if StartsWith(g.0, ":") {
        var s1 := s.(instances := AddAttributeAt(s.instances, n, g.0, g.1).value);
        GuideWf(s1, n, guides[1..]);
      }
    }
  }

  /** The guide loop sets every guide label of the node, the last value given for a label winning,
      keeps its other attributes, and keeps its type, alignment and variant. */
  lemma {:induction false} GuideAttributes(s: State, n: NodeId, guides: seq<(string, string)>)
    requires Guide(s, n, guides).Ok? && n in s.instances.entries
    ensures var c := s.instances.entries[n];
      var inst := Guide(s, n, guides).value.instances;
      n in inst.entries
      && inst.entries[n].conceptType == c.conceptType && inst.entries[n].mapping == c.mapping
      && inst.entries[n].variant == c.variant
      && (forall l :: l in c.attributes.entries && (forall i :: 0 <= i < |guides| ==> guides[i].0 != l) ==>
            l in inst.entries[n].attributes.entries && inst.entries[n].attributes.entries[l] == c.attributes.entries[l])
      && (forall i :: 0 <= i < |guides| && (forall j :: i < j < |guides| ==> guides[j].0 != guides[i].0) ==>
            guides[i].0 in inst.entries[n].attributes.entries && inst.entries[n].attributes.entries[guides[i].0] == guides[i].1)
    decreases |guides|
  {
    if guides != [] {
      var c := s.instances.entries[n];
      var g := guides[0];
      var c1 := c.(attributes := Put(c.attributes, g.0, g.1));
      var s1 := s.(instances := Put(s.instances, n, c1));
      assert c1.attributes.entries == c.attributes.entries[g.0 := g.1];
      assert s1.instances.entries[n] == c1;
      var rest := guides[1..];
      GuideAttributes(s1, n, rest);
      var inst := Guide(s, n, guides).value.instances;
      assert forall i :: 0 <= i < |rest| ==> rest[i] == guides[i + 1];
      forall i | 0 <= i < |guides| && (forall j :: i < j < |guides| ==> guides[j].0 != guides[i].0)
        ensures guides[i].0 in inst.entries[n].attributes.entries && inst.entries[n].attributes.entries[guides[i].0] == guides[i].1
      {
        if i > 0 {
          assert rest[i - 1] == guides[i];
          assert forall j :: i - 1 < j < |rest| ==> rest[j].0 != rest[i - 1].0;
        } else {
          assert forall j :: 0 <= j < |rest| ==> rest[j].0 != g.0;
        }
      }
    }
  }

  /** A matching window keeps the invariant. */
  /** One step of the guide loop. */
  lemma GuideNext(s: State, n: NodeId, guides: seq<(string, string)>, i: nat)
    requires i < |guides|
    ensures Guide(s, n, guides[i..]) ==
      if n !in s.instances.entries then Raise(KeyError)
      else
        var c := Concepts.AddAttribute(s.instances.entries[n], guides[i].0, guides[i].1);
        if c.Raise? then Raise(c.error) else Guide(s.(instances := Put(s.instances, n, c.value)), n, guides[i + 1..])
  {
    assert guides[i..][0] == guides[i] && guides[i..][1..] == guides[i + 1..];
  }

  lemma GuideKeepsWf(s: State, n: NodeId, guides: seq<(string, string)>)
    requires Wf(s) && Guide(s, n, guides).Ok?
    ensures Wf(Guide(s, n, guides).value)
  {
    GuideWf(s, n, guides);
  }

  lemma {:induction false} MweWindowWf(s: State, window: seq<(int, string)>, guides: seq<(string, string)>, words: int -> string)
    requires Wf(s) && MweWindow(s, window, guides, words).Ok?
    ensures Wf(MweWindow(s, window, guides, words).value)
  {
    StoreLaws.AmalgamateWf(s, WindowIds(window), true, words);
    var p := Amalgamate(s, WindowIds(window), true, words).value;
    GuideWf(p.0, p.1, guides);
  }

  lemma {:induction false} MweWindowsWf(s: State, queries: seq<string>, windows: seq<seq<(int, string)>>,
                                        guides: seq<(string, string)>, lk: Lookups)
    requires Wf(s) && MweWindows(s, queries, windows, guides, lk).Ok?
    ensures Wf(MweWindows(s, queries, windows, guides, lk).value)
    decreases |windows|
  {
    if windows != [] {
      if AllMatch(queries, windows[0], lk.search) {
        MweWindowWf(s, windows[0], guides, lk.word);
        MweWindowsWf(MweWindow(s, windows[0], guides, lk.word).value, queries, windows[1..], guides, lk);
      } else {
        MweWindowsWf(s, queries, windows[1..], guides, lk);
      }
    }
  }

  lemma {:induction false} MwePatternsWf(s: State, patterns: seq<(string, seq<(string, string)>)>, numbered: seq<(int, string)>, lk: Lookups)
    requires Wf(s) && MwePatterns(s, patterns, numbered, lk).Ok?
    ensures Wf(MwePatterns(s, patterns, numbered, lk).value)
    decreases |patterns|
  {
    if patterns != [] {
      var queries := Split(patterns[0].0);
      MweWindowsWf(s, queries, Windows(numbered, |queries|), patterns[0].1, lk);
      MwePatternsWf(MwePattern(s, patterns[0], numbered, lk).value, patterns[1..], numbered, lk);
    }
  }

  /** The construction pass keeps the invariant. */
  lemma MwePassWf(s: State, numbered: seq<(int, string)>, lk: Lookups)
    requires Wf(s) && MwePass(s, numbered, lk).Ok?
    ensures Wf(MwePass(s, numbered, lk).value)
  {
    MwePatternsWf(s, lk.patterns, numbered, lk);
  }

  /** Where no window matches its queries, a construction changes nothing. */
  lemma {:induction false} MweNoMatch(s: State, queries: seq<string>, windows: seq<seq<(int, string)>>,
                                      guides: seq<(string, string)>, lk: Lookups)
    requires forall i :: 0 <= i < |windows| ==> !AllMatch(queries, windows[i], lk.search)
    ensures MweWindows(s, queries, windows, guides, lk) == Ok(s)
    decreases |windows|
  {
    if windows != [] {
      assert forall i :: 0 <= i < |windows[1..]| ==> windows[1..][i] == windows[i + 1];
      MweNoMatch(s, queries, windows[1..], guides, lk);
    }
  }

  /** Windows of fewer than two words: the first one that matches makes `amalgamate` fail its
      assertion. */
  lemma {:induction false} MweShortWindows(s: State, queries: seq<string>, windows: seq<seq<(int, string)>>,
                                           guides: seq<(string, string)>, lk: Lookups, m: nat)
    requires forall i :: 0 <= i < |windows| ==> |windows[i]| < 2
    requires m < |windows| && AllMatch(queries, windows[m], lk.search)
    ensures MweWindows(s, queries, windows, guides, lk) == Raise(AssertionError)
    decreases |windows|
  {
    if !AllMatch(queries, windows[0], lk.search) {
      assert m > 0;
      assert forall i :: 0 <= i < |windows[1..]| ==> windows[1..][i] == windows[i + 1];
      MweShortWindows(s, queries, windows[1..], guides, lk, m - 1);
    }
  }

  /** A one-word pattern that matches any word fails: `amalgamate` is given a single node. */
  lemma MweOneWordPattern(s: State, pattern: (string, seq<(string, string)>), numbered: seq<(int, string)>,
                          lk: Lookups, m: nat)
    requires |Split(pattern.0)| == 1
    requires m < |numbered| && lk.search(Split(pattern.0)[0], numbered[m].1)
    ensures MwePattern(s, pattern, numbered, lk) == Raise(AssertionError)
  {
    var queries := Split(pattern.0);
    var windows := Windows(numbered, 1);
    assert windows[m] == numbered[m..m + 1];
    MweShortWindows(s, queries, windows, pattern.1, lk, m);
  }

  // ---------------------------------------------------------------------------------------------
  // update_from_ner

  /** A reversed span raises ValueError, a one-word span resolves its word without changing the
      graph, and whatever the step returns keeps the invariant. */
  lemma {:induction false} NerNodeWf(s: State, wb: int, we: int, words: int -> string)
    requires Wf(s)
    ensures wb > we ==> NerNode(s, wb, we, words) == Raise(ValueError)
    ensures wb == we ==> NerNode(s, wb, we, words) == Ok((s, Redirect(s.instances.order, Single(we))))
    ensures NerNode(s, wb, we, words).Ok? ==> Wf(NerNode(s, wb, we, words).value.0)
  {
    if wb < we && NerNode(s, wb, we, words).Ok? {
      StoreLaws.AmalgamateWf(s, Range(wb, we + 1), true, words);
    }
  }

  /** Node `n` owns every word from `wb` to `we`. */
  predicate OwnsSpan(n: NodeId, wb: int, we: int) {
    forall w :: wb <= w <= we ==> w in Tokens(n)
  }

  /** With positive word ids, the node an entity lands on owns every word of its span, and is a key
      once words were merged. */
  lemma {:induction false} NerNodeTokens(s: State, wb: int, we: int, words: int -> string)
    requires Wf(s) && 0 < wb <= we && NerNode(s, wb, we, words).Ok?
    ensures var p := NerNode(s, wb, we, words).value;
      OwnsSpan(p.1, wb, we) && (wb < we ==> p.1 in p.0.instances.entries)
  {
    if wb == we {
      StoreLaws.RedirectTokens(s.instances.order, Single(we));
      OwnsBoth(Redirect(s.instances.order, Single(we)), wb, we);
    } else {
      var nodes := Range(wb, we + 1);
      var p := Amalgamate(s, nodes, true, words).value;
      assert nodes[0] == Single(wb);
      StoreLaws.AmalgamateTokens(s, nodes, true, words);
      if |nodes| == 2 {
        assert nodes[1] == Single(we);
        OwnsBoth(p.1, wb, we);
      } else {
        RangeRedirects(s.instances.order, wb, we);
        OwnsFirstAndRest(p.1, wb, we, RedirectAll(s.instances.order, nodes)[1..]);
      }
    }
  }

  lemma OwnsBoth(n: NodeId, wb: int, we: int)
    requires wb <= we <= wb + 1 && wb in Tokens(n) && we in Tokens(n)
    ensures OwnsSpan(n, wb, we)
  {
    forall w | wb <= w <= we ensures w in Tokens(n) {
      assert w == wb || w == we;
    }
  }

  lemma OwnsFirstAndRest(n: NodeId, wb: int, we: int, rest: seq<NodeId>)
    requires wb in Tokens(n) && StoreLaws.AllTokens(rest) <= Tokens(n)
    requires forall w :: wb < w <= we ==> w in StoreLaws.AllTokens(rest)
    ensures OwnsSpan(n, wb, we)
  {
  }

  /** Resolving the words after the first of a span of positive ids: none is falsy, and together
      they own every one of those words. */
  lemma {:induction false} RangeRedirects(keys: seq<NodeId>, wb: int, we: int)
    requires 0 < wb < we
    ensures var rest := RedirectAll(keys, Range(wb, we + 1))[1..];
      StoreLaws.Folded(rest) == rest && forall w :: wb < w <= we ==> w in StoreLaws.AllTokens(rest)
  {
    var rest := RedirectAll(keys, Range(wb, we + 1))[1..];
    forall i | 0 <= i < |rest| ensures !Falsy(rest[i]) && wb + 1 + i in Tokens(rest[i]) {
      assert rest[i] == Redirect(keys, Single(wb + 1 + i));
      StoreLaws.RedirectTokens(keys, Single(wb + 1 + i));
    }
    FoldedAll(rest);
    forall w | wb < w <= we ensures w in StoreLaws.AllTokens(rest) {
      AllTokensHas(rest, w - wb - 1);
    }
  }

  /** Ids none of which is falsy are all merged in. */
  lemma {:induction false} FoldedAll(xs: seq<NodeId>)
    requires forall i :: 0 <= i < |xs| ==> !Falsy(xs[i])
    ensures StoreLaws.Folded(xs) == xs
    decreases |xs|
  {
    if xs != [] {
      assert forall i :: 0 <= i < |xs[1..]| ==> xs[1..][i] == xs[i + 1];
      FoldedAll(xs[1..]);
    }
  }

  lemma {:induction false} AllTokensHas(xs: seq<NodeId>, i: nat)
    requires i < |xs|
    ensures Tokens(xs[i]) <= StoreLaws.AllTokens(xs)
    decreases i
  {
    if i > 0 {
      assert xs[1..][i - 1] == xs[i];
      AllTokensHas(xs[1..], i - 1);
    }
  }

  /** The entry of a table label is one of its rows, so its class agrees with its type. */
  lemma LookupAgrees(key: string)
    requires Lookup(NamedEntities, key).Some?
    ensures RowAgrees((key, Lookup(NamedEntities, key).value))
  {
    TableAgrees();
    var i :| 0 <= i < |NamedEntities| && NamedEntities[i] == (key, Lookup(NamedEntities, key).value);
  }

  /** The entity step raises KeyError for a label missing from the table, TypeError for a None
      entry and ValueError for a string entry that does not unpack into a type and a class; it
      succeeds exactly on a pair entry and a node that is a key. */
  lemma NerEntityOutcome(s: State, n: NodeId, item: NeItem, wikification: bool, table: seq<Row>)
    ensures Lookup(table, item.tag).None? ==> NerEntity(s, n, item, wikification, table) == Raise(KeyError)
    ensures Lookup(table, item.tag) == Some(NoneEntry) ==> NerEntity(s, n, item, wikification, table) == Raise(TypeError)
    ensures (Lookup(table, item.tag).Some? && Lookup(table, item.tag).value.Bare?
             && |Lookup(table, item.tag).value.name| != 2)
            ==> NerEntity(s, n, item, wikification, table) == Raise(ValueError)
    ensures NerEntity(s, n, item, wikification, table).Ok? <==>
      Lookup(table, item.tag).Some? && Lookup(table, item.tag).value.Pair? && n in s.instances.entries
  {
  }

  /** A successful entity step replaces only the node's concept, by one without attributes that
      keeps the node's alignment; the relations, the top and the key order stay as they were
      (and the invariant is kept, `NerEntityWf`). */
  lemma NerEntityReplaces(s: State, n: NodeId, item: NeItem, wikification: bool, table: seq<Row>)
    requires NerEntity(s, n, item, wikification, table).Ok?
    ensures var s' := NerEntity(s, n, item, wikification, table).value;
      var c := s'.instances.entries[n];
      s'.relations == s.relations && s'.top == s.top && s'.instances.order == s.instances.order
      && (forall k :: k in s'.instances.entries <==> k in s.instances.entries)
      && (forall k :: k in s.instances.entries && k != n ==> s'.instances.entries[k] == s.instances.entries[k])
      && c.mapping == s.instances.entries[n].mapping && c.attributes == Empty()
  {
    var e := Lookup(table, item.tag).value;
    var wiki := if wikification then item.url else None;
    var c := Construct(e.cls, e.conceptType, item.id, item.form, wiki, Some(s.instances.entries[n].mapping));
    assert NerEntity(s, n, item, wikification, table) == Ok(s.(instances := Put(s.instances, n, c)));
    assert c.attributes == Empty();
  }

  /** For an entry whose class agrees with its type (as every entry of the named-entity table
      does, `LookupAgrees`), the new concept has the pair's type, a variant that agrees with the
      type's kind (`ne.`, `tm.` or `ge.`) and the item's url normalised as its wiki (`-` without
      wikification). */
  lemma NerEntityKinds(s: State, n: NodeId, item: NeItem, wikification: bool, table: seq<Row>)
    requires NerEntity(s, n, item, wikification, table).Ok?
    requires ClassAgreesWithType(Lookup(table, item.tag).value)
    ensures var e := Lookup(table, item.tag).value;
      var c := NerEntity(s, n, item, wikification, table).value.instances.entries[n];
      c.conceptType == e.conceptType
      && (Kind(e.conceptType) == "ne." ==> c.variant.NamedEntity?)
      && (Kind(e.conceptType) == "tm." ==> c.variant.Terminology?)
      && (Kind(e.conceptType) == "ge." ==> c.variant.GenericName?)
      && (c.variant.NamedEntity? || c.variant.Terminology? || c.variant.GenericName?)
      && c.variant.wiki == WikiOf(if wikification then item.url else None)
  {
    var e := Lookup(table, item.tag).value;
    var wiki := if wikification then item.url else None;
    var c := Construct(e.cls, e.conceptType, item.id, item.form, wiki, Some(s.instances.entries[n].mapping));
    ConstructSubclass(e.cls, e.conceptType, item.id, item.form, wiki, Some(s.instances.entries[n].mapping));
    PutKey(s.instances, n, c);
  }

  /** One step of the entity loop. */
  lemma NerItemsNext(s: State, items: seq<NeItem>, i: nat, wikification: bool, lk: Lookups, table: seq<Row>)
    requires i < |items|
    ensures var next := NerItem(s, items[i], wikification, lk, table);
      NerItems(s, items[i..], wikification, lk, table)
      == if next.Raise? then Raise(next.error) else NerItems(next.value, items[i + 1..], wikification, lk, table)
  {
    assert items[i..][0] == items[i] && items[i..][1..] == items[i + 1..];
  }

  /** Replacing a node by the concept of any table entry keeps the invariant. */
  lemma {:induction false} NerEntityWf(s: State, n: NodeId, item: NeItem, wikification: bool, table: seq<Row>)
    requires Wf(s) && NerEntity(s, n, item, wikification, table).Ok?
    ensures Wf(NerEntity(s, n, item, wikification, table).value)
  {
    var e := Lookup(table, item.tag).value;
    var wiki := if wikification then item.url else None;
    var c := Construct(e.cls, e.conceptType, item.id, item.form, wiki, Some(s.instances.entries[n].mapping));
    assert c.attributes == Empty();
    PutSpec(s.instances, n, c);
    assert ConceptOk(c);
    StoreLaws.WfWithInstances(s, Put(s.instances, n, c));
  }

  /** `NAMED_ENTITIES[key]` over two tables in turn: the first table's entry if it has one. */
  lemma {:induction false} LookupConcat(a: seq<Row>, b: seq<Row>, key: string)
    ensures Lookup(a + b, key) == if Lookup(a, key).Some? then Lookup(a, key) else Lookup(b, key)
    decreases |a|
  {
    if a == [] {
      assert a + b == b;
    } else {
      assert (a + b)[0] == a[0] && (a + b)[1..] == a[1..] + b;
      LookupConcat(a[1..], b, key);
    }
  }

  /** A label whose first row lies in the second half of the table (CV_CURRENCY onward) never
      becomes an entity: its entry cannot be unpacked into a type and a class. */
  lemma NerOtherRowFails(s: State, n: NodeId, item: NeItem, wikification: bool)
    requires Wf(s)
    requires forall j :: 0 <= j < |PairRows| ==> PairRows[j].0 != item.tag
    requires exists i :: 0 <= i < |OtherRows| && OtherRows[i].0 == item.tag
    ensures NerEntity(s, n, item, wikification, NamedEntities).Raise?
  {
    LookupConcat(PairRows, OtherRows, item.tag);
    OtherRowsArePlain();
    var e := Lookup(OtherRows, item.tag).value;
    var i :| 0 <= i < |OtherRows| && OtherRows[i] == (item.tag, e);
    NerEntityOutcome(s, n, item, wikification, NamedEntities);
  }

  /** An entity item keeps the invariant. */
  lemma {:induction false} NerItemWf(s: State, item: NeItem, wikification: bool, lk: Lookups, table: seq<Row>)
    requires Wf(s) && NerItem(s, item, wikification, lk, table).Ok?
    ensures Wf(NerItem(s, item, wikification, lk, table).value)
  {
    var (wb, we) := lk.spanToWord(item.begin, item.end);
    NerNodeWf(s, wb, we, lk.word);
    var p := NerNode(s, wb, we, lk.word).value;
    NerEntityWf(p.0, p.1, item, wikification, table);
  }

  lemma {:induction false} NerItemsWf(s: State, items: seq<NeItem>, wikification: bool, lk: Lookups, table: seq<Row>)
    requires Wf(s) && NerItems(s, items, wikification, lk, table).Ok?
    ensures Wf(NerItems(s, items, wikification, lk, table).value)
    decreases |items|
  {
    if items != [] {
      NerItemWf(s, items[0], wikification, lk, table);
      NerItemsWf(NerItem(s, items[0], wikification, lk, table).value, items[1..], wikification, lk, table);
    }
  }

  // ---------------------------------------------------------------------------------------------
  // update_from_srl

  /** A negation argument changes nothing. Any other argument fails, with AssertionError, exactly
      when the predicate node or the argument's resolved node is not a key. */
  lemma SrlArgumentOutcome(s: State, p: NodeId, arg: SrlArgument)
    ensures arg.role == "ARGM-NEG" ==> SrlArgumentStep(s, p, arg) == Ok(s)
    ensures arg.role != "ARGM-NEG" ==>
      (SrlArgumentStep(s, p, arg).Raise? <==>
        p !in s.instances.entries || Redirect(s.instances.order, Single(arg.wordId)) !in s.instances.entries)
    ensures SrlArgumentStep(s, p, arg).Raise? ==> SrlArgumentStep(s, p, arg).error == AssertionError
  {
    if arg.role != "ARGM-NEG" {
      StartsWithPrefix(":srl." + arg.role, ":");
    }
  }

  /** A role argument only touches edges: the nodes and the top stay, and the invariant is kept. */
  lemma {:induction false} SrlArgumentWf(s: State, p: NodeId, arg: SrlArgument)
    requires Wf(s) && SrlArgumentStep(s, p, arg).Ok?
    ensures var s' := SrlArgumentStep(s, p, arg).value;
      s'.instances == s.instances && s'.top == s.top && Wf(s')
  {
    if arg.role != "ARGM-NEG" {
      var t := Redirect(s.instances.order, Single(arg.wordId));
      var lbl := ":srl." + arg.role;
      StoreLaws.AddRelationWf(s, p, lbl, t);
      var r := AddRelation(s, p, lbl, t).value;
      StoreLaws.DelRelationSpec(State(s.instances, r, s.top), t, p, false);
    }
  }

  /** Between two different nodes, a role argument stores the `:srl.` edge from the predicate to
      the argument and deletes the reverse edge exactly when it is a dependency edge; every other
      edge keeps its presence and its label. */
  lemma {:induction false} SrlArgumentEdges(s: State, p: NodeId, arg: SrlArgument)
    requires Valid(s.instances) && DisjointKeys(s.instances.order) && arg.role != "ARGM-NEG"
    requires p in s.instances.entries && Redirect(s.instances.order, Single(arg.wordId)) in s.instances.entries
    requires p != Redirect(s.instances.order, Single(arg.wordId))
    ensures SrlArgumentStep(s, p, arg).Ok?
    ensures var t := Redirect(s.instances.order, Single(arg.wordId));
      var r := SrlArgumentStep(s, p, arg).value.relations;
      (p, t) in r.entries && r.entries[(p, t)] == ":srl." + arg.role
      && ((t, p) in r.entries <==>
            (t, p) in s.relations.entries && !StartsWith(s.relations.entries[(t, p)], ":dep."))
      && (forall e :: e != (p, t) && e != (t, p) ==> (e in r.entries <==> e in s.relations.entries))
      && (forall e :: e != (p, t) && e in r.entries ==> r.entries[e] == s.relations.entries[e])
  {
    var t := Redirect(s.instances.order, Single(arg.wordId));
    StartsWithPrefix(":srl." + arg.role, ":");
    RedirectKey(s.instances.order, p);
    RedirectKey(s.instances.order, t);
  }

  /** When the argument resolves to the predicate's own node there is no edge to add and, the graph
      having no self-loops, none to delete: the step changes nothing. */
  lemma {:induction false} SrlArgumentSelf(s: State, p: NodeId, arg: SrlArgument)
    requires Wf(s) && p in s.instances.entries && p == Redirect(s.instances.order, Single(arg.wordId))
    ensures SrlArgumentStep(s, p, arg) == Ok(s)
  {
    if arg.role != "ARGM-NEG" {
      var lbl := ":srl." + arg.role;
      StartsWithPrefix(lbl, ":");
      StoreLaws.AddRelationSpec(s, p, lbl, p);
      assert EdgeOk(s, (p, p));
    }
  }

  lemma {:induction false} SrlArgumentsWf(s: State, p: NodeId, args: seq<SrlArgument>)
    requires Wf(s) && SrlArguments(s, p, args).Ok?
    ensures var s' := SrlArguments(s, p, args).value;
      s'.instances == s.instances && s'.top == s.top && Wf(s')
    decreases |args|
  {
    if args != [] {
      SrlArgumentWf(s, p, args[0]);
      SrlArgumentsWf(SrlArgumentStep(s, p, args[0]).value, p, args[1..]);
    }
  }

  /** The role pass only touches edges: the nodes and the top stay, and the invariant is kept. */
  lemma {:induction false} SrlItemsWf(s: State, srls: seq<Srl>, lk: Lookups)
    requires Wf(s) && SrlItems(s, srls, lk).Ok?
    ensures var s' := SrlItems(s, srls, lk).value;
      s'.instances == s.instances && s'.top == s.top && Wf(s')
    decreases |srls|
  {
    if srls != [] {
      SrlArgumentsWf(s, SrlHead(s, srls[0].pred, lk), srls[0].arguments);
      SrlItemsWf(SrlArguments(s, SrlHead(s, srls[0].pred, lk), srls[0].arguments).value, srls[1..], lk);
    }
  }

  // ---------------------------------------------------------------------------------------------
  // update_from_wsd

  /** The prefix loop from `end`: it finds frames exactly when some prefix query from `end` up to
      all the forms has frames, and then it returns those of the shortest such prefix. */
  lemma {:induction false} RootFramesFromSpec(byRoot: string -> seq<string>, forms: seq<(string, string)>, end: nat)
    requires end <= |forms| + 1
    ensures RootFramesFrom(byRoot, forms, end) != [] <==>
      exists e :: end <= e <= |forms| && byRoot(RootQuery(forms, e)) != []
    ensures RootFramesFrom(byRoot, forms, end) != [] ==>
      exists e :: end <= e <= |forms| && RootFramesFrom(byRoot, forms, end) == byRoot(RootQuery(forms, e))
        && forall e' :: end <= e' < e ==> byRoot(RootQuery(forms, e')) == []
    decreases |forms| + 1 - end
  {
    if end < |forms| + 1 && byRoot(RootQuery(forms, end)) == [] {
      RootFramesFromSpec(byRoot, forms, end + 1);
      if RootFramesFrom(byRoot, forms, end) != [] {
        var e :| end + 1 <= e <= |forms| && RootFramesFrom(byRoot, forms, end) == byRoot(RootQuery(forms, e))
          && forall e' :: end + 1 <= e' < e ==> byRoot(RootQuery(forms, e')) == [];
        assert forall e' :: end <= e' < e ==> byRoot(RootQuery(forms, e')) == [];
      }
    }
  }

  /** The sense type of a node fails only for an index-free concept under the empty tuple id,
      which has no first element; any other concept is never retyped. */
  lemma SenseTypeFails(k: NodeId, c: Concept, preds: seq<NodeId>, srls: seq<Srl>, lk: Lookups)
    requires |preds| == |srls|
    ensures SenseType(k, c, preds, srls, lk).Raise? <==> c.variant.IndexFree? && k == Composite([])
    ensures SenseType(k, c, preds, srls, lk).Raise? ==> SenseType(k, c, preds, srls, lk).error == IndexError
    ensures !c.variant.IndexFree? ==> SenseType(k, c, preds, srls, lk) == Ok(None)
  {
  }

  /** A predicate node always gets a type, taken from the first role frame whose predicate resolves
      to it: the first frame found by root or by lemma, else the lemma form marked `-98` when it
      has root forms and `-99` when it has none. */
  lemma SensePredicate(k: NodeId, c: Concept, preds: seq<NodeId>, srls: seq<Srl>, lk: Lookups, i: nat)
    requires |preds| == |srls| && c.variant.IndexFree? && k != Composite([])
    requires i < |preds| && preds[i] == k && forall j :: 0 <= j < i ==> preds[j] != k
    ensures SenseType(k, c, preds, srls, lk).Ok? && SenseType(k, c, preds, srls, lk).value.Some?
    ensures var forms := lk.rootForms(FirstIdx(k).value);
      var t := SenseType(k, c, preds, srls, lk).value.value;
      var frames := Frames(forms, srls[i].pred.lemmaText, lk);
      (forms == [] ==> t == LemmaForm(srls[i].pred, lk) + "-99")
      && (forms != [] && frames != [] ==> t == frames[0])
      && (forms != [] && frames == [] ==> t == LemmaForm(srls[i].pred, lk) + "-98")
  {
    assert IndexOf(preds, k) == i;
  }

  /** A concept after the sense pass: retyped by its sense type (which cannot fail on the keys of a
      well-formed graph). */
  function Sensed(k: NodeId, c: Concept, preds: seq<NodeId>, srls: seq<Srl>, lk: Lookups): Concept
    requires |preds| == |srls|
  {
    match SenseType(k, c, preds, srls, lk)
    case Ok(t) => Retyped(c, t)
    case Raise(_) => c
  }

  /** The retyping loop over current items succeeds when no key is the empty tuple, and keeps the
      dictionary's order and keys. */
  lemma {:induction false} SenseNodesShape(inst: Instances, items: seq<(NodeId, Concept)>, preds: seq<NodeId>, srls: seq<Srl>, lk: Lookups)
    requires Valid(inst) && |preds| == |srls|
    requires forall i :: 0 <= i < |items| ==> items[i].0 in inst.entries && items[i].0 != Composite([])
    ensures SenseNodes(inst, items, preds, srls, lk).Ok?
    ensures var r := SenseNodes(inst, items, preds, srls, lk).value;
      Valid(r) && r.order == inst.order && (forall k :: k in r.entries <==> k in inst.entries)
    decreases |items|
  {
    if items != [] {
      var k := items[0].0;
      var t := SenseType(k, items[0].1, preds, srls, lk);
      SenseTypeFails(k, items[0].1, preds, srls, lk);
      var inst1 := if t.value.Some? then Put(inst, k, Retyped(items[0].1, t.value)) else inst;
      PutSpec(inst, k, Retyped(items[0].1, t.value));
      var rest := items[1..];
      assert forall i :: 0 <= i < |rest| ==> rest[i] == items[i + 1];
      SenseNodesShape(inst1, rest, preds, srls, lk);
    }
  }

  /** A node the loop does not visit keeps its concept. */
  lemma {:induction false} SenseNodesUnvisited(inst: Instances, items: seq<(NodeId, Concept)>, preds: seq<NodeId>, srls: seq<Srl>, lk: Lookups, k: NodeId)
    requires |preds| == |srls| && SenseNodes(inst, items, preds, srls, lk).Ok?
    requires k in inst.entries && forall i :: 0 <= i < |items| ==> items[i].0 != k
    ensures var r := SenseNodes(inst, items, preds, srls, lk).value;
      k in r.entries && r.entries[k] == inst.entries[k]
    decreases |items|
  {
    if items != [] {
      var t := SenseType(items[0].0, items[0].1, preds, srls, lk);
      var inst1 := if t.value.Some? then Put(inst, items[0].0, Retyped(items[0].1, t.value)) else inst;
      var rest := items[1..];
      assert forall i :: 0 <= i < |rest| ==> rest[i] == items[i + 1];
      SenseNodesUnvisited(inst1, rest, preds, srls, lk, k);
    }
  }

  /** Over distinct items that describe the current nodes, the visited node `items[i].0` ends up
      with its concept retyped by its sense type. */
  lemma {:induction false} SenseNodesVisited(inst: Instances, items: seq<(NodeId, Concept)>, preds: seq<NodeId>, srls: seq<Srl>, lk: Lookups, i: nat)
    requires |preds| == |srls| && SenseNodes(inst, items, preds, srls, lk).Ok?
    requires forall j :: 0 <= j < |items| ==> items[j].0 in inst.entries && inst.entries[items[j].0] == items[j].1
    requires forall j, j' :: 0 <= j < j' < |items| ==> items[j].0 != items[j'].0
    requires i < |items|
    ensures var r := SenseNodes(inst, items, preds, srls, lk).value;
      items[i].0 in r.entries && r.entries[items[i].0] == Sensed(items[i].0, items[i].1, preds, srls, lk)
    decreases |items|
  {
    var k := items[0].0;
    var t := SenseType(k, items[0].1, preds, srls, lk);
    var inst1 := if t.value.Some? then Put(inst, k, Retyped(items[0].1, t.value)) else inst;
    PutKey(inst, k, Retyped(items[0].1, t.value));
    var rest := items[1..];
    assert forall j :: 0 <= j < |rest| ==> rest[j] == items[j + 1];
    if i == 0 {
      SenseNodesUnvisited(inst1, rest, preds, srls, lk, k);
    } else {
      SenseNodesVisited(inst1, rest, preds, srls, lk, i - 1);
    }
  }

  /** The sense pass never fails on a well-formed graph; it keeps the edges, the top, the order and
      the keys, retypes every node by its sense type (relative to the predicate nodes resolved
      beforehand), and keeps the invariant. */
  lemma {:induction false} WsdPassSpec(s: State, srls: seq<Srl>, lk: Lookups)
    requires Wf(s)
    ensures WsdPass(s, srls, lk).Ok?
    ensures var s' := WsdPass(s, srls, lk).value;
      var preds := RedirectAll(s.instances.order, PredicateWords(srls, lk));
      s'.relations == s.relations && s'.top == s.top && s'.instances.order == s.instances.order
      && (forall k :: k in s'.instances.entries <==> k in s.instances.entries)
      && (forall k :: k in s.instances.entries ==>
            s'.instances.entries[k] == Sensed(k, s.instances.entries[k], preds, srls, lk))
      && Wf(s')
  {
    var preds := RedirectAll(s.instances.order, PredicateWords(srls, lk));
    SenseSnapshot(s.instances, preds, srls, lk);
    var r := SenseNodes(s.instances, Snapshot(s.instances), preds, srls, lk).value;
    forall k | k in r.entries
      ensures ConceptOk(r.entries[k])
    {
      assert ConceptOk(s.instances.entries[k]);
    }
    StoreLaws.WfWithInstances(s, r);
  }

  /** The retyping loop over a snapshot of all the nodes of a store none of whose keys is the empty
      tuple. */
  lemma {:induction false} SenseSnapshot(inst: Instances, preds: seq<NodeId>, srls: seq<Srl>, lk: Lookups)
    requires Valid(inst) && Composite([]) !in inst.entries && |preds| == |srls|
    ensures SenseNodes(inst, Snapshot(inst), preds, srls, lk).Ok?
    ensures var r := SenseNodes(inst, Snapshot(inst), preds, srls, lk).value;
      Valid(r) && r.order == inst.order && (forall k :: k in r.entries <==> k in inst.entries)
      && (forall k :: k in inst.entries ==> r.entries[k] == Sensed(k, inst.entries[k], preds, srls, lk))
  {
    var items := Items(inst);
    assert forall i :: 0 <= i < |items| ==> items[i].0 == inst.order[i];
    SenseNodesShape(inst, items, preds, srls, lk);
    forall k | k in inst.entries
      ensures SenseNodes(inst, items, preds, srls, lk).value.entries[k] == Sensed(k, inst.entries[k], preds, srls, lk)
    {
      SnapshotVisits(inst, preds, srls, lk, k);
    }
  }

  lemma SnapshotVisits(inst: Instances, preds: seq<NodeId>, srls: seq<Srl>, lk: Lookups, k: NodeId)
    requires Valid(inst) && |preds| == |srls| && k in inst.entries
    requires SenseNodes(inst, Snapshot(inst), preds, srls, lk).Ok?
    ensures var r := SenseNodes(inst, Snapshot(inst), preds, srls, lk).value;
      k in r.entries && r.entries[k] == Sensed(k, inst.entries[k], preds, srls, lk)
  {
    var i :| 0 <= i < |inst.order| && inst.order[i] == k;
    SenseNodesVisited(inst, Items(inst), preds, srls, lk, i);
  }

  // ---------------------------------------------------------------------------------------------
  // The pipeline

  /** Whatever the pipeline builds keeps the store's invariant, and once the role pass has run it
      always finishes: the sense pass cannot fail. */
  lemma PipelineWf(ann: Annotations, lk: Lookups, table: seq<Row>)
    ensures Pipeline(ann, lk, table).Ok? ==> Wf(Pipeline(ann, lk, table).value)
    ensures var s0 := State(Empty(), Empty(), None);
      (DepPass(s0, ann.dep).Ok? && MwePass(DepPass(s0, ann.dep).value, ann.numbered, lk).Ok?
       && NerPass(MwePass(DepPass(s0, ann.dep).value, ann.numbered, lk).value, ann, true, lk, table).Ok?
       && SrlItems(NerPass(MwePass(DepPass(s0, ann.dep).value, ann.numbered, lk).value, ann, true, lk, table).value, ann.srl, lk).Ok?)
      ==> Pipeline(ann, lk, table).Ok?
  {
    var s0: State := State(Empty(), Empty(), None);
    assert Wf(s0) && PlainKeys(s0.instances.order);
    if DepPass(s0, ann.dep).Ok? {
      DepPassWf(s0, ann.dep);
      var s1 := DepPass(s0, ann.dep).value;
      if MwePass(s1, ann.numbered, lk).Ok? {
        MwePassWf(s1, ann.numbered, lk);
        var s2 := MwePass(s1, ann.numbered, lk).value;
        if NerPass(s2, ann, true, lk, table).Ok? {
          NerItemsWf(s2, ann.el, true, lk, table);
          var s3 := NerPass(s2, ann, true, lk, table).value;
          if SrlItems(s3, ann.srl, lk).Ok? {
            SrlItemsWf(s3, ann.srl, lk);
            WsdPassSpec(SrlItems(s3, ann.srl, lk).value, ann.srl, lk);
          }
        }
      }
    }
  }
}
