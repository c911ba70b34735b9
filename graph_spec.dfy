/** The state of the AMR graph store and the meaning of each of its operations, as functions of the
    state: instances (node id to concept, in insertion order), relations ((head, tail) to label, in
    insertion order) and the top node. The class in `GraphStore` is proved to change its fields
    exactly as these functions say. */
module GraphSpec {
  import opened PyStr
  import opened PyDict
  import opened NodeIds
  import opened Concepts
  import opened Outcomes

  type Edge = (NodeId, NodeId)
  type Instances = Dict<NodeId, Concept>
  type Relations = Dict<Edge, string>

  datatype State = State(instances: Instances, relations: Relations, top: Option<NodeId>)

  /** A concept whose attribute dictionary is well formed and whose labels all carry the `:` prefix
      that `add_attribute` demands. */
  predicate ConceptOk(c: Concept) {
    Valid(c.attributes) && forall l :: l in c.attributes.entries ==> StartsWith(l, ":")
  }

  /** An edge whose endpoints are both keys, that is no self-loop, and whose label has the `:` prefix. */
  predicate EdgeOk(s: State, e: Edge) {
    e in s.relations.entries ==>
      e.0 in s.instances.entries && e.1 in s.instances.entries && e.0 != e.1
      && StartsWith(s.relations.entries[e], ":")
  }

  /** The store's invariant: keys own disjoint word ids, every edge joins two distinct keys, every
      label and attribute label starts with `:`. */
  predicate Wf(s: State) {
    Valid(s.instances) && Valid(s.relations)
    && DisjointKeys(s.instances.order)
    && (forall k :: k in s.instances.entries ==> ConceptOk(s.instances.entries[k]))
    && (forall e :: e in s.relations.entries ==> EdgeOk(s, e))
  }

  // ---------------------------------------------------------------------------------------------
  // Single-entry operations

  /** The key `add_instance(idx, ...)` stores under: `idx`, or `'x' + str(len(instances))` when `idx`
      is falsy. */
  function InstanceKey(idx: NodeId, count: nat): NodeId {
    if Falsy(idx) then Named("x" + IntToString(count)) else idx
  }

  /** `add_instance(idx, concept_type, mapping)`: a fresh index-free concept, replacing any concept
      already stored under that key. */
  function AddInstance(inst: Instances, idx: NodeId, conceptType: string, mapping: set<int>): Instances {
    Put(inst, InstanceKey(idx, |inst.order|), NewIndexFree(conceptType, Some(mapping)))
  }

  /** The write `add_relation` makes once its assertions hold: the edge is stored only when its ends
      resolve to different nodes. */
  function AddRel(r: Relations, h: NodeId, lbl: string, t: NodeId, keys: seq<NodeId>): Relations {
    if Redirect(keys, h) != Redirect(keys, t) then Put(r, (h, t), lbl) else r
  }

  /** `add_relation(h, label, t)`: both ends must be keys and the label must start with `:`. */
  function AddRelation(s: State, h: NodeId, lbl: string, t: NodeId): Outcome<Relations> {
    if h !in s.instances.entries || t !in s.instances.entries || !StartsWith(lbl, ":") then Raise(AssertionError)
    else Ok(AddRel(s.relations, h, lbl, t, s.instances.order))
  }

  /** A label seen from the other end: a trailing `-of` is dropped, otherwise `-of` is appended. */
  function Invert(lbl: string): string {
    if EndsWith(lbl, "-of") then lbl[..|lbl| - 3] else lbl + "-of"
  }

  /** `get_relation(h, t, include_inverted)` */
  function GetRelation(r: Relations, h: NodeId, t: NodeId, inverted: bool): Option<string> {
    if (h, t) in r.entries then Some(r.entries[(h, t)])
    else if inverted && (t, h) in r.entries then Some(Invert(r.entries[(t, h)]))
    else None
  }

  /** `del_relation(h, t, include_inverted)`: KeyError when the edge (or, with `inverted`, both the
      edge and its reverse) is missing. */
  function DelRelation(r: Relations, h: NodeId, t: NodeId, inverted: bool): Outcome<Relations> {
    if (h, t) in r.entries then Ok(Remove(r, (h, t)))
    else if inverted && (t, h) in r.entries then Ok(Remove(r, (t, h)))
    else Raise(KeyError)
  }

  /** `add_attribute(idx, relation, value)` on the store. */
  function AddAttributeAt(inst: Instances, idx: NodeId, relation: string, value: string): Outcome<Instances> {
    if idx !in inst.entries || !StartsWith(relation, ":") then Raise(AssertionError)
    else match Concepts.AddAttribute(inst.entries[idx], relation, value)
      case Ok(c) => Ok(Put(inst, idx, c))
      case Raise(e) => Raise(e)
  }

  // ---------------------------------------------------------------------------------------------
  // pairwise_merge

  /** Replaying `(label, value)` pairs with `add_attribute`, left to right. */
  function Replay(d: Dict<string, string>, attrs: seq<(string, string)>): Dict<string, string>
    decreases |attrs|
  {
    if attrs == [] then d
    else
      var last := attrs[|attrs| - 1];
      Put(Replay(d, attrs[..|attrs| - 1]), last.0, last.1)
  }

  /** One iteration of the re-pointing loop over the snapshot of relations: an edge leaving `a` or `b`
      is deleted and re-added from the new node, an edge entering them is deleted and re-added into it. */
  function RepointStep(r: Relations, item: (Edge, string), a: NodeId, b: NodeId, n: NodeId, keys: seq<NodeId>): Relations {
    var pair := item.0;
    var r1 := if pair.0 == a || pair.0 == b then AddRel(Remove(r, pair), n, item.1, pair.1, keys) else r;
    if pair.1 == a || pair.1 == b then AddRel(Remove(r1, pair), pair.0, item.1, n, keys) else r1
  }

  /** The re-pointing loop over a snapshot `items`, left to right. */
  function Repoint(r: Relations, items: seq<(Edge, string)>, a: NodeId, b: NodeId, n: NodeId, keys: seq<NodeId>): Relations
    decreases |items|
  {
    if items == [] then r
    else RepointStep(Repoint(r, items[..|items| - 1], a, b, n, keys), items[|items| - 1], a, b, n, keys)
  }

  /** The concept type of a merged node: the surface forms of its word ids joined by `_`. */
  function MergedConceptType(ws: seq<int>, words: int -> string): string {
    Join(WordForms(ws, words), "_")
  }

  function WordForms(ws: seq<int>, words: int -> string): (r: seq<string>)
    ensures |r| == |ws| && forall i :: 0 <= i < |ws| ==> r[i] == words(ws[i])
  {
    if ws == [] then [] else [words(ws[0])] + WordForms(ws[1..], words)
  }

  /** The relations once the edges between `a` and `b` are gone. */
  function DropBetween(r: Relations, a: NodeId, b: NodeId): Relations {
    var r1 := if (a, b) in r.entries then Remove(r, (a, b)) else r;
    if (b, a) in r1.entries then Remove(r1, (b, a)) else r1
  }

  /** The relations after `pairwise_merge`: the edges between `a` and `b` are deleted, then the
      re-pointing loop runs over a snapshot of what is left. */
  function MergedRelations(r: Relations, a: NodeId, b: NodeId, n: NodeId, keys: seq<NodeId>): Relations {
    var r1 := DropBetween(r, a, b);
    Repoint(r1, Snapshot(r1), a, b, n, keys)
  }

  /** The instances once `a` and `b` are replaced by the merged node `n` with concept `c`. */
  function MergedInstances(inst: Instances, a: NodeId, b: NodeId, n: NodeId, c: Concept): Instances {
    Put(Remove(Remove(inst, a), b), n, c)
  }

  /** The concept of the node that merges `a` and `b` under the key `n`. */
  function MergedNode(inst: Instances, a: NodeId, b: NodeId, n: NodeId, words: int -> string): Concept
    requires a in inst.entries && b in inst.entries && n.Composite?
  {
    MergedConcept(inst.entries[a], inst.entries[b], MergedConceptType(n.words, words))
  }

  /** The concept of a merged node: a fresh index-free concept over both mappings, onto which the
      attributes of `ca` and then of `cb` are replayed. */
  function MergedConcept(ca: Concept, cb: Concept, conceptType: string): Concept {
    var merged := NewIndexFree(conceptType, Some(ca.mapping + cb.mapping));
    merged.(attributes := Replay(Empty(), Snapshot(ca.attributes) + Snapshot(cb.attributes)))
  }

  /** `pairwise_merge(a, b)`: the new state and the new node id. Merging a node with itself changes
      nothing; a str id cannot be sorted together with int ids. */
  function Merge(s: State, a: NodeId, b: NodeId, words: int -> string): Outcome<(State, NodeId)> {
    if a !in s.instances.entries || b !in s.instances.entries then Raise(AssertionError)
    else if a == b then Ok((s, a))
    else if a.Named? || b.Named? then Raise(TypeError)
    else
      var n := MergedId(a, b);
      var inst := MergedInstances(s.instances, a, b, n, MergedNode(s.instances, a, b, n, words));
      var rels := MergedRelations(s.relations, a, b, n, inst.order);
      var top := if s.top == Some(a) || s.top == Some(b) then Some(n) else s.top;
      Ok((State(inst, rels, top), n))
  }

  // ---------------------------------------------------------------------------------------------
  // amalgamate

  /** The `while` loop of `amalgamate`: merge the running node with the next id until the ids run out
      or the next one is falsy, resolving both sides first when `redirect` is set. */
  function MergeAll(s: State, acc: NodeId, rest: seq<NodeId>, redirect: bool, words: int -> string): Outcome<(State, NodeId)>
    decreases |rest|
  {
    if rest == [] || Falsy(rest[0]) then Ok((s, acc))
    else
      var x := if redirect then Redirect(s.instances.order, acc) else acc;
      var y := if redirect then Redirect(s.instances.order, rest[0]) else rest[0];
      match Merge(s, x, y, words)
      case Raise(e) => Raise(e)
      case Ok(p) => MergeAll(p.0, p.1, rest[1..], redirect, words)
  }

  function RedirectAll(keys: seq<NodeId>, ns: seq<NodeId>): (r: seq<NodeId>)
    ensures |r| == |ns| && forall i :: 0 <= i < |ns| ==> r[i] == Redirect(keys, ns[i])
  {
    if ns == [] then [] else [Redirect(keys, ns[0])] + RedirectAll(keys, ns[1..])
  }

  /** `amalgamate(nodes, redirect_true_node)` */
  function Amalgamate(s: State, nodes: seq<NodeId>, redirect: bool, words: int -> string): Outcome<(State, NodeId)> {
    if |nodes| < 2 then Raise(AssertionError)
    else
      var ns := if redirect then RedirectAll(s.instances.order, nodes) else nodes;
      if |ns| == 2 then Merge(s, ns[0], ns[1], words)
      else
        match MergeAll(s, ns[0], ns[1..], redirect, words)
        case Raise(e) => Raise(e)
        case Ok(p) => Ok((p.0, if redirect then Redirect(p.0.instances.order, p.1) else p.1))
  }

  // ---------------------------------------------------------------------------------------------
  // render

  /** The node triples of `render`: each concept's product under its key, in dictionary order. */
  function NodeTriples(items: seq<(NodeId, Concept)>, unquote: string -> string): seq<Triple>
    requires forall i :: 0 <= i < |items| ==> Valid(items[i].1.attributes)
  {
    if items == [] then [] else Product(items[0].1, items[0].0, unquote) + NodeTriples(items[1..], unquote)
  }

  /** The edge triples of `render`: `(head, label, tail)` per edge, in dictionary order. */
  function EdgeTriples(items: seq<(Edge, string)>): seq<Triple> {
    if items == [] then [] else [Triple(Node(items[0].0.0), items[0].1, Node(items[0].0.1))] + EdgeTriples(items[1..])
  }

  /** Every concept of the store has well-formed attributes, so it can produce its triples. */
  predicate Renderable(s: State) {
    Valid(s.instances) && Valid(s.relations)
    && forall k :: k in s.instances.entries ==> Valid(s.instances.entries[k].attributes)
  }

  /** `nodes + edges`, the triples `render` hands to the encoder. */
  function RenderTriples(s: State, unquote: string -> string): seq<Triple>
    requires Renderable(s)
  {
    NodeTriples(Items(s.instances), unquote) + EdgeTriples(Items(s.relations))
  }
}
