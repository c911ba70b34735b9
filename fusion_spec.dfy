/** The annotation-fusion passes of `AbstractMeaningRepresentation` as functions of the graph state:
    dependency parse, multi-word expressions, named entities, semantic roles and word senses, run in
    that order on an empty graph. Every look-up into the sentence and the lexical resources is a
    parameter (`Lookups`); a pass that raises is a `Raise` outcome, since the exception leaves the
    constructor and no graph survives it. */
module FusionSpec {
  import opened PyStr
  import opened PyDict
  import opened NodeIds
  import opened Concepts
  import opened Outcomes
  import opened GraphSpec
  import opened NamedEntityTable

  // ---------------------------------------------------------------------------------------------
  // Annotation layers

  /** A dependency-layer word: its id, surface form, head id (`-1` for the root) and dependency label. */
  datatype DepWord = DepWord(wordId: int, wordForm: string, head: int, deprel: string)

  /** A named-entity or entity-linking item: its character span, entity tag, id, form and linked url. */
  datatype NeItem = NeItem(begin: int, end: int, tag: string, id: int, form: string, url: Option<string>)

  datatype SrlArgument = SrlArgument(role: string, wordId: int)

  datatype SrlPredicate = SrlPredicate(begin: int, end: int, lemmaText: string)

  /** A semantic-role frame: the predicate and its arguments. */
  datatype Srl = Srl(pred: SrlPredicate, arguments: seq<SrlArgument>)

  /** The layers the passes read; `numbered` is `pos.numbered_items()`, the word ids with their
      part-of-speech strings. */
  datatype Annotations = Annotations(dep: seq<DepWord>, ner: seq<NeItem>, el: seq<NeItem>, srl: seq<Srl>,
                                     numbered: seq<(int, string)>)

  /** The sentence and resource accessors the passes call, which this model takes as given:
      `word` is the surface form of a word id, `spanToWord` is `span_ids_to_word_id`, `rootForms`
      is `wsd.get_forms` (form and tag pairs), `framesByRoot` and `framesByLemma` give the frame ids
      the verb-frame lexicon returns, `lemmaForm` is `pos.make_lemma_form`, `search` is `re.search`
      of a query against a word, and `patterns` is what `get_patterns` of the construction table
      returns. */
  datatype Lookups = Lookups(
    word: int -> string,
    spanToWord: (int, int) -> (int, int),
    rootForms: NodeId -> seq<(string, string)>,
    framesByRoot: string -> seq<string>,
    framesByLemma: string -> seq<string>,
    lemmaForm: int -> string,
    search: (string, string) -> bool,
    patterns: seq<(string, seq<(string, string)>)>)

  /** Every key is an int or str id, which own disjoint word ids as long as they differ. */
  predicate PlainKeys(keys: seq<NodeId>) {
    forall i :: 0 <= i < |keys| ==> !keys[i].Composite?
  }

  // ---------------------------------------------------------------------------------------------
  // update_from_dep

  /** The first loop: one index-free node per word, keyed by its id and aligned to it. */
  function DepInstances(inst: Instances, ws: seq<DepWord>): Instances
    decreases |ws|
  {
    if ws == [] then inst
    else DepInstances(AddInstance(inst, Single(ws[0].wordId), ws[0].wordForm, {ws[0].wordId}), ws[1..])
  }

  /** One step of the second loop: the root word becomes the top node, any other word gets a
      `:dep.<label>` edge from its head. */
  function DepLink(s: State, w: DepWord): Outcome<State> {
    if w.head == -1 then Ok(s.(top := Some(Single(w.wordId))))
    else match AddRelation(s, Single(w.head), ":dep." + w.deprel, Single(w.wordId))
      case Ok(r) => Ok(s.(relations := r))
      case Raise(e) => Raise(e)
  }

  function DepLinks(s: State, ws: seq<DepWord>): Outcome<State>
    decreases |ws|
  {
    if ws == [] then Ok(s)
    else match DepLink(s, ws[0])
      case Raise(e) => Raise(e)
      case Ok(s1) => DepLinks(s1, ws[1..])
  }

  /** `update_from_dep` */
  function DepPass(s: State, ws: seq<DepWord>): Outcome<State> {
    DepLinks(s.(instances := DepInstances(s.instances, ws)), ws)
  }

  // ---------------------------------------------------------------------------------------------
  // update_from_mwe

  /** `ngrams(items, n)`: every run of `n` consecutive items, left to right; none when `n` is 0 or
      exceeds the length. */
  function Windows<T>(items: seq<T>, n: nat): (r: seq<seq<T>>)
    ensures |r| == if n == 0 || |items| < n then 0 else |items| - n + 1
    ensures forall i :: 0 <= i < |r| ==> i + n <= |items| && r[i] == items[i..i + n]
    decreases |items|
  {
    if n == 0 || |items| < n then []
    else
      var rest := Windows(items[1..], n);
      assert forall i :: 0 <= i < |rest| ==> rest[i] == items[i + 1..i + 1 + n];
      [items[..n]] + rest
  }

  /** `all(re.search(q, w) for q, w in zip(queries, window))` */
  predicate AllMatch(queries: seq<string>, window: seq<(int, string)>, search: (string, string) -> bool) {
    forall i :: 0 <= i < |queries| && i < |window| ==> search(queries[i], window[i].1)
  }

  /** The word ids of a window, as node ids. */
  function WindowIds(window: seq<(int, string)>): (r: seq<NodeId>)
    ensures |r| == |window| && forall i :: 0 <= i < |window| ==> r[i] == Single(window[i].0)
  {
    if window == [] then [] else [Single(window[0].0)] + WindowIds(window[1..])
  }

  /** The guide loop: each `(relation, value)` is added to the merged node's concept, which must be
      a key of the instances. */
  function Guide(s: State, n: NodeId, guides: seq<(string, string)>): Outcome<State>
    decreases |guides|
  {
    if guides == [] then Ok(s)
    else if n !in s.instances.entries then Raise(KeyError)
    else match Concepts.AddAttribute(s.instances.entries[n], guides[0].0, guides[0].1)
      case Raise(e) => Raise(e)
      case Ok(c) => Guide(s.(instances := Put(s.instances, n, c)), n, guides[1..])
  }

  /** A matching window: its words are amalgamated with redirection and the guides added. */
  function MweWindow(s: State, window: seq<(int, string)>, guides: seq<(string, string)>, words: int -> string): Outcome<State> {
    match Amalgamate(s, WindowIds(window), true, words)
    case Raise(e) => Raise(e)
    case Ok(p) => Guide(p.0, p.1, guides)
  }

  function MweWindows(s: State, queries: seq<string>, windows: seq<seq<(int, string)>>,
                      guides: seq<(string, string)>, lk: Lookups): Outcome<State>
    decreases |windows|
  {
    if windows == [] then Ok(s)
    else if !AllMatch(queries, windows[0], lk.search) then MweWindows(s, queries, windows[1..], guides, lk)
    else match MweWindow(s, windows[0], guides, lk.word)
      case Raise(e) => Raise(e)
      case Ok(s1) => MweWindows(s1, queries, windows[1..], guides, lk)
  }

  /** One construction: its pattern is split into per-word queries, tried on every window of that
      many words. */
  function MwePattern(s: State, pattern: (string, seq<(string, string)>), numbered: seq<(int, string)>, lk: Lookups): Outcome<State> {
    var queries := Split(pattern.0);
    MweWindows(s, queries, Windows(numbered, |queries|), pattern.1, lk)
  }

  function MwePatterns(s: State, patterns: seq<(string, seq<(string, string)>)>, numbered: seq<(int, string)>, lk: Lookups): Outcome<State>
    decreases |patterns|
  {
    if patterns == [] then Ok(s)
    else match MwePattern(s, patterns[0], numbered, lk)
      case Raise(e) => Raise(e)
      case Ok(s1) => MwePatterns(s1, patterns[1..], numbered, lk)
  }

  /** `update_from_mwe` */
  function MwePass(s: State, numbered: seq<(int, string)>, lk: Lookups): Outcome<State> {
    MwePatterns(s, lk.patterns, numbered, lk)
  }

  // ---------------------------------------------------------------------------------------------
  // update_from_ner

  /** `list(range(lo, hi))` as node ids. */
  function Range(lo: int, hi: int): (r: seq<NodeId>)
    ensures |r| == if lo < hi then hi - lo else 0
    ensures forall i :: 0 <= i < |r| ==> r[i] == Single(lo + i)
    decreases hi - lo
  {
    if lo >= hi then [] else [Single(lo)] + Range(lo + 1, hi)
  }

  /** The node an entity spanning words `wb..we` lands on: a multi-word span is amalgamated, a
      one-word span resolved, and a reversed span raises ValueError. */
  function NerNode(s: State, wb: int, we: int, words: int -> string): Outcome<(State, NodeId)> {
    if wb < we then Amalgamate(s, Range(wb, we + 1), true, words)
    else if wb == we then Ok((s, Redirect(s.instances.order, Single(we))))
    else Raise(ValueError)
  }

  /** The table entry of a label, unpacked into a type and a class: a missing label is a KeyError,
      None cannot be unpacked (TypeError), nor can a string that is not two characters long
      (ValueError); a two-character string unpacks but is then called with the node's mapping,
      which is read first (KeyError when the node is missing, otherwise TypeError). */
  function NerEntity(s: State, n: NodeId, item: NeItem, wikification: bool, table: seq<Row>): Outcome<State> {
    match Lookup(table, item.tag)
    case None => Raise(KeyError)
    case Some(NoneEntry) => Raise(TypeError)
    case Some(Bare(x)) => if |x| != 2 then Raise(ValueError) else if n !in s.instances.entries then Raise(KeyError) else Raise(TypeError)
    case Some(Pair(conceptType, cls)) =>
      if n !in s.instances.entries then Raise(KeyError)
      else
        var wiki := if wikification then item.url else None;
        var c := Construct(cls, conceptType, item.id, item.form, wiki, Some(s.instances.entries[n].mapping));
        Ok(s.(instances := Put(s.instances, n, c)))
  }

  function NerItem(s: State, item: NeItem, wikification: bool, lk: Lookups, table: seq<Row>): Outcome<State> {
    var (wb, we) := lk.spanToWord(item.begin, item.end);
    match NerNode(s, wb, we, lk.word)
    case Raise(e) => Raise(e)
    case Ok(p) => NerEntity(p.0, p.1, item, wikification, table)
  }

  function NerItems(s: State, items: seq<NeItem>, wikification: bool, lk: Lookups, table: seq<Row>): Outcome<State>
    decreases |items|
  {
    if items == [] then Ok(s)
    else match NerItem(s, items[0], wikification, lk, table)
      case Raise(e) => Raise(e)
      case Ok(s1) => NerItems(s1, items[1..], wikification, lk, table)
  }

  /** `update_from_ner(wikification)`: the entity-linking layer with wikification, the named-entity
      layer without. */
  function NerPass(s: State, ann: Annotations, wikification: bool, lk: Lookups, table: seq<Row>): Outcome<State> {
    NerItems(s, if wikification then ann.el else ann.ner, wikification, lk, table)
  }

  // ---------------------------------------------------------------------------------------------
  // update_from_srl

  /** One argument: unless it is a negation, a `:srl.<label>` edge from the predicate node to the
      argument's node, after which a dependency edge in the opposite direction is deleted. */
  function SrlArgumentStep(s: State, p: NodeId, arg: SrlArgument): Outcome<State> {
    if arg.role == "ARGM-NEG" then Ok(s)
    else
      var t := Redirect(s.instances.order, Single(arg.wordId));
      match AddRelation(s, p, ":srl." + arg.role, t)
      case Raise(e) => Raise(e)
      case Ok(r) =>
        var inverted := GetRelation(r, t, p, false);
        if inverted.Some? && StartsWith(inverted.value, ":dep.") then
          match DelRelation(r, t, p, false)
          case Raise(e) => Raise(e)
          case Ok(r1) => Ok(s.(relations := r1))
        else Ok(s.(relations := r))
  }

  function SrlArguments(s: State, p: NodeId, args: seq<SrlArgument>): Outcome<State>
    decreases |args|
  {
    if args == [] then Ok(s)
    else match SrlArgumentStep(s, p, args[0])
      case Raise(e) => Raise(e)
      case Ok(s1) => SrlArguments(s1, p, args[1..])
  }

  /** The node of a predicate for the role pass: the END word of its span, resolved. */
  function SrlHead(s: State, pred: SrlPredicate, lk: Lookups): NodeId {
    Redirect(s.instances.order, Single(lk.spanToWord(pred.begin, pred.end).1))
  }

  function SrlItems(s: State, srls: seq<Srl>, lk: Lookups): Outcome<State>
    decreases |srls|
  {
    if srls == [] then Ok(s)
    else match SrlArguments(s, SrlHead(s, srls[0].pred, lk), srls[0].arguments)
      case Raise(e) => Raise(e)
      case Ok(s1) => SrlItems(s1, srls[1..], lk)
  }

  // ---------------------------------------------------------------------------------------------
  // update_from_wsd

  /** The BEGIN word of each predicate span, as a node id. */
  function PredicateWords(srls: seq<Srl>, lk: Lookups): (r: seq<NodeId>)
    ensures |r| == |srls|
    ensures forall i :: 0 <= i < |srls| ==> r[i] == Single(lk.spanToWord(srls[i].pred.begin, srls[i].pred.end).0)
  {
    if srls == [] then []
    else [Single(lk.spanToWord(srls[0].pred.begin, srls[0].pred.end).0)] + PredicateWords(srls[1..], lk)
  }

  /** `target_idx[0] if isinstance(target_idx, tuple) else target_idx`; an empty tuple has no first
      element. */
  function FirstIdx(k: NodeId): Outcome<NodeId> {
    match k
    case Composite(ws) => if ws == [] then Raise(IndexError) else Ok(Single(ws[0]))
    case _ => Ok(k)
  }

  /** `list.index`: the position of the first occurrence. */
  function IndexOf(xs: seq<NodeId>, x: NodeId): (i: nat)
    requires x in xs
    ensures i < |xs| && xs[i] == x && forall j :: 0 <= j < i ==> xs[j] != x
  {
    if xs[0] == x then 0 else 1 + IndexOf(xs[1..], x)
  }

  /** The query of the prefix loop: the first `end` root forms concatenated. */
  function RootQuery(forms: seq<(string, string)>, end: nat): string
    requires end <= |forms|
  {
    Concat(Firsts(forms[..end]))
  }

  /** The prefix loop from `end` upward: the frames of the first prefix query that has any, or none. */
  function RootFramesFrom(byRoot: string -> seq<string>, forms: seq<(string, string)>, end: nat): seq<string>
    requires end <= |forms| + 1
    decreases |forms| + 1 - end
  {
    if end == |forms| + 1 then []
    else
      var frames := byRoot(RootQuery(forms, end));
      if frames != [] then frames else RootFramesFrom(byRoot, forms, end + 1)
  }

  /** The frames the sense pass settles on for a predicate with root forms: by root prefix, and
      failing that by the predicate's lemma. */
  function Frames(forms: seq<(string, string)>, lemmaText: string, lk: Lookups): seq<string> {
    var byRoot := RootFramesFrom(lk.framesByRoot, forms, 0);
    if byRoot != [] then byRoot else lk.framesByLemma(lemmaText)
  }

  /** The roots of a non-predicate: every form whose tag is neither `VCP` nor `VX`. */
  function Roots(forms: seq<(string, string)>): seq<string> {
    if forms == [] then []
    else if forms[0].1 != "VCP" && forms[0].1 != "VX" then [forms[0].0] + Roots(forms[1..])
    else Roots(forms[1..])
  }

  /** The lemma form of a predicate's begin word, the fallback type of a predicate. */
  function LemmaForm(pred: SrlPredicate, lk: Lookups): string {
    lk.lemmaForm(lk.spanToWord(pred.begin, pred.end).0)
  }

  /** The new concept type of node `k`, if any: only plain index-free concepts are retyped. A
      predicate node takes its first frame, else its lemma form with `-98` (root forms but no
      frame) or `-99` (no root forms); any other node with root forms takes its concatenated roots. */
  function SenseType(k: NodeId, c: Concept, preds: seq<NodeId>, srls: seq<Srl>, lk: Lookups): Outcome<Option<string>>
    requires |preds| == |srls|
  {
    if !c.variant.IndexFree? then Ok(None)
    else match FirstIdx(k)
      case Raise(e) => Raise(e)
      case Ok(first) =>
        var forms := lk.rootForms(first);
        if k in preds then
          var pred := srls[IndexOf(preds, k)].pred;
          if forms != [] then
            var frames := Frames(forms, pred.lemmaText, lk);
            if frames != [] then Ok(Some(frames[0])) else Ok(Some(LemmaForm(pred, lk) + "-98"))
          else Ok(Some(LemmaForm(pred, lk) + "-99"))
        else if forms != [] then Ok(Some(Concat(Roots(forms))))
        else Ok(None)
  }

  /** A concept with its type replaced when the sense pass gives one. */
  function Retyped(c: Concept, t: Option<string>): Concept {
    if t.Some? then c.(conceptType := t.value) else c
  }

  /** The loop over `instances.items()`: each node is retyped in place. */
  function SenseNodes(inst: Instances, items: seq<(NodeId, Concept)>, preds: seq<NodeId>, srls: seq<Srl>, lk: Lookups): Outcome<Instances>
    requires |preds| == |srls|
    decreases |items|
  {
    if items == [] then Ok(inst)
    else match SenseType(items[0].0, items[0].1, preds, srls, lk)
      case Raise(e) => Raise(e)
      case Ok(t) =>
        var inst1 := if t.Some? then Put(inst, items[0].0, Retyped(items[0].1, t)) else inst;
        SenseNodes(inst1, items[1..], preds, srls, lk)
  }

  /** `update_from_wsd`: the predicate nodes are resolved before any node is retyped. */
  function WsdPass(s: State, srls: seq<Srl>, lk: Lookups): Outcome<State> {
    var preds := RedirectAll(s.instances.order, PredicateWords(srls, lk));
    match SenseNodes(s.instances, Snapshot(s.instances), preds, srls, lk)
    case Raise(e) => Raise(e)
    case Ok(inst) => Ok(s.(instances := inst))
  }

  // ---------------------------------------------------------------------------------------------
  // The pipeline

  /** The passes in their fixed order on an empty graph; the entity pass runs with wikification. */
  function Pipeline(ann: Annotations, lk: Lookups, table: seq<Row>): Outcome<State> {
    var s0 := State(Empty(), Empty(), None);
    match DepPass(s0, ann.dep)
    case Raise(e) => Raise(e)
    case Ok(s1) =>
      match MwePass(s1, ann.numbered, lk)
      case Raise(e) => Raise(e)
      case Ok(s2) =>
        match NerPass(s2, ann, true, lk, table)
        case Raise(e) => Raise(e)
        case Ok(s3) =>
          match SrlItems(s3, ann.srl, lk)
          case Raise(e) => Raise(e)
          case Ok(s4) => WsdPass(s4, ann.srl, lk)
  }
}
