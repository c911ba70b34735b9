/** The earlier AMR graph store (`synthetics/primitives/graph.py`) and its annotation passes, as
    functions of the state. It differs from the later store in four ways: a concept is a plain
    string, attributes live in a dictionary of their own with one `(label, value)` pair per node,
    `add_relation` neither resolves ids nor refuses self-loops, and `amalgamate` merges the ids as
    given. */
module LegacySpec {
  import opened PyStr
  import opened PyDict
  import opened NodeIds
  import opened Outcomes
  import Concepts
  import GraphSpec
  import FusionSpec

  type Edge = GraphSpec.Edge
  type Relations = GraphSpec.Relations
  /** `{node_idx: concept}` */
  type Instances = Dict<NodeId, string>
  /** `{node_idx: (relation, value)}` */
  type Attributes = Dict<NodeId, (string, string)>

  datatype State = State(instances: Instances, relations: Relations, attributes: Attributes, top: Option<NodeId>)

  /** A new `AMRGraph`: no node, no edge, no attribute, no top. */
  function Initial(): State {
    State(Empty(), Empty(), Empty(), None)
  }

  // ---------------------------------------------------------------------------------------------
  // Single-entry operations

  /** `add_instance(concept, node_idx)`: stored under `node_idx`, or under `'x' + len(instances)`
      when `node_idx` is falsy. */
  function AddInstance(inst: Instances, concept: string, idx: NodeId): Instances {
    Put(inst, GraphSpec.InstanceKey(idx, |inst.order|), concept)
  }

  /** `add_relation(head_idx, relation, tail_idx)`: both ends must be keys and the label must start
      with `:`; the edge is then stored as given. */
  function AddRelation(inst: Instances, r: Relations, h: NodeId, lbl: string, t: NodeId): Outcome<Relations> {
    if h !in inst.entries || t !in inst.entries || !StartsWith(lbl, ":") then Raise(AssertionError)
    else Ok(Put(r, (h, t), lbl))
  }

  /** `get_relation(head_idx, tail_idx)`: the stored label, else the reverse edge's label seen from
      the other end, else None. */
  function GetRelation(r: Relations, h: NodeId, t: NodeId): Option<string> {
    if (h, t) in r.entries then Some(r.entries[(h, t)])
    else if (t, h) in r.entries then Some(GraphSpec.Invert(r.entries[(t, h)]))
    else None
  }

  /** `add_attribute(node_idx, relation, value)`: the node must be a key and the label must start
      with `:`; the pair then replaces whatever the node had. */
  function AddAttribute(s: State, idx: NodeId, rel: string, value: string): Outcome<Attributes> {
    if idx !in s.instances.entries || !StartsWith(rel, ":") then Raise(AssertionError)
    else Ok(Put(s.attributes, idx, (rel, value)))
  }

  // ---------------------------------------------------------------------------------------------
  // pairwise_merge

  /** Whether an edge has `a` or `b` at either end. */
  predicate Touches(e: Edge, a: NodeId, b: NodeId) {
    e.0 == a || e.0 == b || e.1 == a || e.1 == b
  }

  /** `del relations[pair]`, then `add_relation(h, lbl, t)`. */
  function Move(inst: Instances, r: Relations, pair: Edge, h: NodeId, lbl: string, t: NodeId): Outcome<Relations> {
    if pair !in r.entries then Raise(KeyError) else AddRelation(inst, Remove(r, pair), h, lbl, t)
  }

  /** One iteration of the re-pointing loop over the snapshot of relations: an edge leaving `a` or
      `b` is moved to leave `n`, then an edge entering `a` or `b` is moved to enter `n`. */
  function RepointStep(inst: Instances, r: Relations, item: (Edge, string), a: NodeId, b: NodeId, n: NodeId): Outcome<Relations> {
    var pair := item.0;
    var first := if pair.0 == a || pair.0 == b then Move(inst, r, pair, n, item.1, pair.1) else Ok(r);
    match first
    case Raise(e) => Raise(e)
    case Ok(r1) => if pair.1 == a || pair.1 == b then Move(inst, r1, pair, pair.0, item.1, n) else Ok(r1)
  }

  /** The re-pointing loop, left to right, stopping at the first exception. */
  function Repoint(inst: Instances, r: Relations, items: seq<(Edge, string)>, a: NodeId, b: NodeId, n: NodeId): Outcome<Relations>
    decreases |items|
  {
    if items == [] then Ok(r)
    else match RepointStep(inst, r, items[0], a, b, n)
      case Raise(e) => Raise(e)
      case Ok(r1) => Repoint(inst, r1, items[1..], a, b, n)
  }

  /** One iteration of the attribute loop: an attribute of `a` or `b` is moved to `n`. */
  function RekeyStep(d: Attributes, item: (NodeId, (string, string)), a: NodeId, b: NodeId, n: NodeId): Attributes {
    if item.0 == a || item.0 == b then Put(Remove(d, item.0), n, item.1) else d
  }

  /** The attribute loop over the attributes in dictionary order. */
  function Rekey(d: Attributes, items: seq<(NodeId, (string, string))>, a: NodeId, b: NodeId, n: NodeId): Attributes
    decreases |items|
  {
    if items == [] then d else Rekey(RekeyStep(d, items[0], a, b, n), items[1..], a, b, n)
  }

  /** The instances once `a` and `b` are replaced by `n`, whose concept is the surface forms of its
      word ids joined by `_`. */
  function MergedInstances(inst: Instances, a: NodeId, b: NodeId, n: NodeId, words: int -> string): Instances
    requires n.Composite?
  {
    Put(Remove(Remove(inst, a), b), n, GraphSpec.MergedConceptType(n.words, words))
  }

  /** `pairwise_merge(node_a, node_b)`: both nodes are deleted (KeyError when one is missing, and
      when `node_b` is `node_a`, which is gone by then), the edges between them are deleted, the
      node `n` keyed by the sorted word ids of both takes their place, every edge touching them is
      moved onto `n`, their attributes are moved to `n`, and the top follows. A str id cannot be
      sorted together with int ids. */
  function Merge(s: State, a: NodeId, b: NodeId, words: int -> string): Outcome<(State, NodeId)> {
    if a !in s.instances.entries || b == a || b !in s.instances.entries then Raise(KeyError)
    else if a.Named? || b.Named? then Raise(TypeError)
    else
      var n := MergedId(a, b);
      var inst := MergedInstances(s.instances, a, b, n, words);
      var r1 := GraphSpec.DropBetween(s.relations, a, b);
      match Repoint(inst, r1, Snapshot(r1), a, b, n)
      case Raise(e) => Raise(e)
      case Ok(rels) =>
        var attrs := Rekey(s.attributes, Snapshot(s.attributes), a, b, n);
        var top := if s.top == Some(a) || s.top == Some(b) then Some(n) else s.top;
        Ok((State(inst, rels, attrs, top), n))
  }

  // ---------------------------------------------------------------------------------------------
  // amalgamate

  /** The `while` loop of `amalgamate`: merge the running node with the next id until the ids run
      out or the next one is falsy. */
  function MergeAll(s: State, acc: NodeId, rest: seq<NodeId>, words: int -> string): Outcome<(State, NodeId)>
    decreases |rest|
  {
    if rest == [] || Falsy(rest[0]) then Ok((s, acc))
    else match Merge(s, acc, rest[0], words)
      case Raise(e) => Raise(e)
      case Ok(p) => MergeAll(p.0, p.1, rest[1..], words)
  }

  /** `amalgamate(nodes)`: at least two ids; two are merged directly, more are folded from the left. */
  function Amalgamate(s: State, nodes: seq<NodeId>, words: int -> string): Outcome<(State, NodeId)> {
    if |nodes| < 2 then Raise(AssertionError)
    else if |nodes| == 2 then Merge(s, nodes[0], nodes[1], words)
    else MergeAll(s, nodes[0], nodes[1..], words)
  }

  // ---------------------------------------------------------------------------------------------
  // The passes of `AMRAnnotation`

  /** The first loop of `parse_to_penman`: one node per word, keyed by its id. */
  function DepInstances(inst: Instances, ws: seq<FusionSpec.DepWord>): Instances
    decreases |ws|
  {
    if ws == [] then inst else DepInstances(AddInstance(inst, ws[0].wordForm, Single(ws[0].wordId)), ws[1..])
  }

  /** The label of the dependency edge into a word: `:<label>.dep`. */
  function DepLabel(deprel: string): string {
    ":" + deprel + ".dep"
  }

  /** One step of the second loop: the root word becomes the top node, any other word gets an edge
      from its head. */
  function DepLink(s: State, w: FusionSpec.DepWord): Outcome<State> {
    if w.head == -1 then Ok(s.(top := Some(Single(w.wordId))))
    else match AddRelation(s.instances, s.relations, Single(w.head), DepLabel(w.deprel), Single(w.wordId))
      case Raise(e) => Raise(e)
      case Ok(r) => Ok(s.(relations := r))
  }

  function DepLinks(s: State, ws: seq<FusionSpec.DepWord>): Outcome<State>
    decreases |ws|
  {
    if ws == [] then Ok(s)
    else match DepLink(s, ws[0])
      case Raise(e) => Raise(e)
      case Ok(s1) => DepLinks(s1, ws[1..])
  }

  /** `parse_to_penman` */
  function ParseToPenman(s: State, ws: seq<FusionSpec.DepWord>): Outcome<State> {
    DepLinks(s.(instances := DepInstances(s.instances, ws)), ws)
  }

  /** The label of a role edge: `:<label>.srl`. */
  function SrlLabel(role: string): string {
    ":" + role + ".srl"
  }

  /** The inner loop of `update_from_srl`: `relations[(p, arg.word_id)] = ':<label>.srl'` per
      argument, written straight into the dictionary. */
  function ArgWrites(r: Relations, p: NodeId, args: seq<FusionSpec.SrlArgument>): Relations
    decreases |args|
  {
    if args == [] then r else ArgWrites(Put(r, (p, Single(args[0].wordId)), SrlLabel(args[0].role)), p, args[1..])
  }

  /** The word a predicate is attached at: the end word of its span. */
  function PredicateWord(pred: FusionSpec.SrlPredicate, spanToWord: (int, int) -> (int, int)): NodeId {
    Single(spanToWord(pred.begin, pred.end).1)
  }

  /** `update_from_srl` */
  function SrlPass(r: Relations, srls: seq<FusionSpec.Srl>, spanToWord: (int, int) -> (int, int)): Relations
    decreases |srls|
  {
    if srls == [] then r
    else SrlPass(ArgWrites(r, PredicateWord(srls[0].pred, spanToWord), srls[0].arguments), srls[1..], spanToWord)
  }

  /** One entity of `update_from_ner`: a span of two or more words is amalgamated, any other is
      skipped. */
  function NerItem(s: State, item: FusionSpec.NeItem, spanToWord: (int, int) -> (int, int), words: int -> string): Outcome<State> {
    var words2 := spanToWord(item.begin, item.end);
    if words2.0 < words2.1 then StateOf(Amalgamate(s, FusionSpec.Range(words2.0, words2.1 + 1), words))
    else Ok(s)
  }

  /** The graph of an outcome that also names a node, or its exception. */
  function StateOf(o: Outcome<(State, NodeId)>): Outcome<State> {
    match o
    case Raise(e) => Raise(e)
    case Ok(p) => Ok(p.0)
  }

  /** `update_from_ner` */
  function NerPass(s: State, items: seq<FusionSpec.NeItem>, spanToWord: (int, int) -> (int, int), words: int -> string): Outcome<State>
    decreases |items|
  {
    if items == [] then Ok(s)
    else match NerItem(s, items[0], spanToWord, words)
      case Raise(e) => Raise(e)
      case Ok(s1) => NerPass(s1, items[1..], spanToWord, words)
  }

  /** `AMRAnnotation.__init__`: the dependency pass, then the role pass, then the entity pass. */
  function Annotate(ann: FusionSpec.Annotations, spanToWord: (int, int) -> (int, int), words: int -> string): Outcome<State> {
    match ParseToPenman(Initial(), ann.dep)
    case Raise(e) => Raise(e)
    case Ok(s1) => NerPass(s1.(relations := SrlPass(s1.relations, ann.srl, spanToWord)), ann.ner, spanToWord, words)
  }

  // ---------------------------------------------------------------------------------------------
  // render

  function NodeTriples(items: seq<(NodeId, string)>): (r: seq<Concepts.Triple>)
    ensures |r| == |items|
    ensures forall i :: 0 <= i < |items| ==>
      r[i] == Concepts.Triple(Concepts.Node(items[i].0), ":instance", Concepts.Text(items[i].1))
  {
    if items == [] then []
    else [Concepts.Triple(Concepts.Node(items[0].0), ":instance", Concepts.Text(items[0].1))] + NodeTriples(items[1..])
  }

  function AttributeTriples(items: seq<(NodeId, (string, string))>): (r: seq<Concepts.Triple>)
    ensures |r| == |items|
    ensures forall i :: 0 <= i < |items| ==>
      r[i] == Concepts.Triple(Concepts.Node(items[i].0), items[i].1.0, Concepts.Text(items[i].1.1))
  {
    if items == [] then []
    else [Concepts.Triple(Concepts.Node(items[0].0), items[0].1.0, Concepts.Text(items[0].1.1))] + AttributeTriples(items[1..])
  }

  /** `nodes + edges + attrs`, the triples `render` hands to the encoder. */
  function RenderTriples(s: State): seq<Concepts.Triple> {
    NodeTriples(Snapshot(s.instances)) + GraphSpec.EdgeTriples(Snapshot(s.relations)) + AttributeTriples(Snapshot(s.attributes))
  }
}
