# Korean AMR synthetics: a verified model of the graph builders and their rules

This project models, in Dafny, the core of a tool that builds Abstract Meaning Representation (AMR)
graphs for Korean sentences from layered corpus annotations (dependency parse, part-of-speech tags,
named entities, entity links, semantic roles and word senses). The model covers these parts:

- **The AMR graph store** (`AMRGraph` of `synthetics/primitives/amr/graph.py`). It maps node ids to
  concepts and `(head, tail)` pairs to labels, and it has a top node. Its operations are
  `add_instance`, `add_relation`, `get_relation`, `del_relation`, `add_attribute`, `redirect_node`,
  `pairwise_merge`, the `amalgamate` fold and `render`.
- **The fusion passes** (`AbstractMeaningRepresentation`): the dependency, construction
  (periphrastic pattern), named-entity, semantic-role and word-sense passes that the constructor
  runs in order over an empty store.
- **The concept variants.** There is the index-free base concept, the named-entity, generic-name,
  terminology, role, e-mail and hyperlink concepts, and the two date concepts. Each turns itself
  into triples.
- **The named-entity classification table**, which the entity pass consults.
- **The earlier graph builder** (`synthetics/primitives/graph.py`): a store of plain concept strings
  with one attribute per node, its merge without redirection, and its three passes.
- **The rule tables**: the priority order of the periphrastic constructions and the singleton that
  serves them (in both copies of that code), and the DT_DAY decision list of the date normaliser.
- **The frame lexicons**: the argument-role and mapping tables of a verb frame and the two frame
  indexes, and the Sejong idiomatic verb-frame table with its theta-role parser and frame names.

A node id is a word id (`Single`), a synthesised string id (`Named`), or the sorted tuple of word
ids of a merged node (`Composite`). Python dictionaries keep insertion order. That order decides
several things: which key `redirect_node` finds first, the name of a synthesised key, which write
wins when two re-pointed edges collide, and the order of the rendered triples. So a dictionary is
modelled as an order plus a map (`PyDict.Dict`). An operation that can raise returns an `Outcome`:
either a value or the Python exception it raises.

Both graph stores are modelled twice:

- `GraphSpec` and `LegacySpec` give the meaning of every operation as a function of the state, and
  `FusionSpec` does the same for the passes.
- `GraphStore.AMRGraph` and `LegacyStore.AMRGraph` are classes whose fields change in place, and
  `Fusion.AbstractMeaningRepresentation` and `LegacyStore.AMRAnnotation` run the passes on them.
  Each method is proved to leave the fields exactly as the matching function says.

`MergeLaws`, `MergeProps`, `StoreLaws`, `FusionLaws` and `LegacyLaws` prove what those functions
promise. The later store keeps its invariant through every pass:

- keys own disjoint word ids;
- every edge joins two distinct keys;
- every label starts with `:`.

Inputs the code reads from outside the core are parameters: the word forms of a sentence, the
mapping from character spans to word ids, the pattern search of a construction query, the root
forms and lemma forms of a word, the frame look-ups by root and by lemma, `kr2num`, and the list of
constructions `get_patterns` returns. The frame look-ups of the sense pass
(`synthetics/primitives/amr/graph.py` lines 115 and 122) call `VerbFrameLexicon`, a class that no
file of the source defines; the model takes their results as parameters.

## Model

| member | source | states |
|---|---|---|
| NodeIds.RedirectFirstMatch | synthetics/primitives/amr/graph.py:208-222 | `redirect_node` returns the first key in dictionary order that covers the id (a tuple key containing the word id or every word id, or an equal plain key), and returns the id unchanged only when no key covers it |
| NodeIds.RedirectKey | synthetics/primitives/amr/graph.py:208-222 | when keys own disjoint word ids, `redirect_node` is the identity on every key |
| NodeIds.RedirectIdempotent | synthetics/primitives/amr/graph.py:208-222 | when keys own disjoint word ids, resolving twice is resolving once |
| NodeIds.SortIntsSpec | synthetics/primitives/amr/graph.py:280 | `sorted` returns a sorted permutation of its input |
| NodeIds.MergedIdTokens | synthetics/primitives/amr/graph.py:267-280 | the merged key is a sorted tuple holding exactly the word ids of both operands, with multiplicity, and is never falsy |
| NodeIds.MergedIdSymmetric | synthetics/primitives/amr/graph.py:267-280 | the merged key of `a` and `b` equals the merged key of `b` and `a` |
| Concepts.MappingOfSpec | synthetics/primitives/amr/concept.py:24 | a mapping of None or of the empty set becomes the empty set; any other mapping is kept |
| Concepts.AlignmentSpec | synthetics/primitives/amr/concept.py:32-33 | the alignment pairs the head triple with every mapped word id exactly once, ascending, under prefix `w.` |
| Concepts.WikiOfSpec | synthetics/primitives/amr/concept.py:76 | the wiki becomes `-` exactly when it is missing, empty, exactly `NA` or already `-`; otherwise it is kept |
| Concepts.AddAttributeSpec | synthetics/primitives/amr/concept.py:35-37 | `add_attribute` raises AssertionError exactly when the label lacks the `:` prefix; otherwise it overwrites that label's value, keeps its position if present, appends it if new, and changes nothing else |
| Concepts.AttributeTriplesSpec | synthetics/primitives/amr/concept.py:40 | there is one attribute triple per label, in insertion order, carrying that label's value |
| Concepts.BaseProductSpec | synthetics/primitives/amr/concept.py:39-41 | the base product is `(idx, :instance, concept_type)` followed by one triple per attribute in insertion order |
| Concepts.OpTriplesSpec | synthetics/primitives/amr/concept.py:83-84 | the k-th name word becomes `:op(k+1)` with the word quoted |
| Concepts.ProductExtendsBase | synthetics/primitives/amr/concept.py:86 | every variant except terminology begins with the base product |
| Concepts.NamedEntityProduct | synthetics/primitives/amr/concept.py:81-86 | a named entity appends the `name` sub-node, the `:name` edge, one quoted `:opK` per whitespace word of its name, and always one `:wiki` triple, in that order |
| Concepts.WikiTripleSpec | synthetics/primitives/amr/concept.py:76-85 | the `:wiki` triple is always emitted, and its target is `-` exactly when the wiki was missing, empty, `NA` or `-` |
| Concepts.NamedEntityWords | synthetics/primitives/amr/concept.py:73-76 | a constructed named entity's `:op` words are the whitespace words of the raw name whatever its spacing; it has index `n<id>`, the normalised wiki, the given type and mapping, and no attributes |
| Concepts.ConstructSubclass | synthetics/primitives/amr/concept.py:73-241 | each constructor builds a concept of its own class; a subclass that takes an index keeps the concept type and mapping, starts with no attributes, names its sub-node by its letter (n, g, t, o, r, e, h) and the index, keeps the single-spaced words of the raw text, and normalises the wiki |
| Concepts.LocalIdsDistinct | synthetics/primitives/amr/concept.py:74-239 | two different subclasses never give their sub-nodes the same id, whatever the indices |
| Concepts.ConstructedRoleCounts | synthetics/primitives/amr/concept.py:81-252 | a freshly constructed concept emits exactly one `:wiki` triple if it is a named entity, generic name or term, and none otherwise; two `:instance` triples if it declares a sub-node, one otherwise; and one `:value` triple exactly for e-mail addresses and hyperlinks |
| Concepts.SubNodeLinked | synthetics/primitives/amr/concept.py:81-250 | each class with a sub-node links it by exactly one edge of its role (`:name`, `:subclass-of`, `:ARG2` or `:ARG3`) from the node, and the sub-node is declared by an `:instance` triple |
| Concepts.HyphenatedLabels | synthetics/primitives/amr/concept.py:106-195 | for a generic name, a term or a role, the `:instance` label (on the sub-node, or on the node for a term) is the hyphen-joined words of the raw text and holds no whitespace |
| Concepts.HyphenatedNormalize | synthetics/primitives/amr/concept.py:108 | hyphen-joining the words of the whitespace-normalised text equals hyphen-joining the words of the raw text |
| Concepts.TerminologyProduct | synthetics/primitives/amr/concept.py:132-135 | a term's product does not depend on its concept type or its attributes; it has two triples, a single `:instance` whose label holds no whitespace and then exactly one `:wiki` |
| Concepts.ValueTriple | synthetics/primitives/amr/concept.py:219-252 | an e-mail address or hyperlink emits exactly one `:value` triple: the quoted single-spaced raw text, on the node for an address and on the `url-entity` sub-node for a hyperlink |
| Concepts.DateConceptArguments | synthetics/primitives/amr/date_entity.py:8-17 | a date concept's type is the hyphen-joined words of its text whatever type was passed, its text is whitespace-collapsed and stripped, and the index and wiki arguments have no effect |
| Concepts.DateConceptProduct | synthetics/primitives/amr/date_entity.py:8-23 | a constructed date concept emits one triple, `:instance` with the hyphen-joined words of the raw date text, whatever type, index and wiki were passed |
| NamedEntityTable.Lookup | synthetics/rules/named_entities.py:1-267 | a table look-up finds nothing exactly when no row has the label, and otherwise returns the entry of a row with that label |
| NamedEntityTable.KindIsPrefix | synthetics/rules/named_entities.py:23-159 | the kind of a type is its three-character prefix, as `str.startswith` tests it |
| NamedEntityTable.TableAgrees | synthetics/rules/named_entities.py:23-159 | every `ne.` pair builds a named-entity concept, every `tm.` pair a terminology concept, every `ge.` pair a generic-name concept, and no other class occurs; all FD_ labels are `tm.study-field*` and all TR_ labels `tm.theory*` |
| NamedEntityTable.FieldAndTheoryCounts | synthetics/rules/named_entities.py:31-56 | there are exactly six FD_ labels and six TR_ labels |
| NamedEntityTable.UnpackableRows | synthetics/rules/named_entities.py:162-266 | every label from CV_CURRENCY to TM_SPORTS maps to None or to a bare string that the NER pass's two-way unpacking cannot use; every earlier label maps to a pair |
| MergeProps.StepIsMove | synthetics/primitives/amr/graph.py:290-297 | one iteration of the re-pointing loop deletes an edge touching `a` or `b` and stores it re-targeted at the new node (unless it has become a self-loop), and leaves every other edge alone |
| MergeProps.RepointMoves | synthetics/primitives/amr/graph.py:290-297 | after the re-pointing loop, every edge is characterised: an edge that touched `a` or `b` is gone, and an edge into or out of the new node carries the label of the last snapshot item re-targeted onto it (the last write wins) |
| MergeProps.MovedOfSnapshot | synthetics/primitives/amr/graph.py:290 | the edges the loop moves are exactly the snapshot's edges that touch `a` or `b` |
| MergeProps.LastWriteOfSnapshot | synthetics/primitives/amr/graph.py:290-297 | an edge of the snapshot that touches `a` or `b` is re-targeted by some iteration |
| MergeLaws.MergedKeyFresh | synthetics/primitives/amr/graph.py:266-280 | the merged key is new, distinct from both operands, owns the word ids of both, and shares no word id with any other key |
| MergeLaws.MergedAttributes | synthetics/primitives/amr/graph.py:254-286 | replaying `a`'s attributes and then `b`'s gives their union, with `b` winning on a duplicate label |
| MergeLaws.MergedConceptSpec | synthetics/primitives/amr/graph.py:253-286 | the merged concept is a plain index-free concept with the given type, both mappings united and the pooled attributes; any earlier specialisation is lost |
| MergeLaws.MergedNodeSpec | synthetics/primitives/amr/graph.py:253-286 | the node stored under the merged key has as type the `_`-joined word forms of the sorted ids, the union of both mappings, the attributes of both operands, no specialisation, and is well formed |
| MergeLaws.MergedInstancesAt | synthetics/primitives/amr/graph.py:257-282 | both old keys are gone, the merged key is appended last and holds the merged concept, and every other node keeps its concept and its place |
| MergeLaws.DropBetweenSpec | synthetics/primitives/amr/graph.py:261-264 | exactly the edges `(a, b)` and `(b, a)` are removed before re-pointing |
| MergeLaws.MergedRelationsMoves | synthetics/primitives/amr/graph.py:260-297 | the merged relations are characterised edge by edge over the snapshot taken after the `a`–`b` edges are dropped |
| MergeLaws.MergeWf | synthetics/primitives/amr/graph.py:245-303 | `pairwise_merge` keeps the store's invariant |
| MergeLaws.RedirectAfterMerge | synthetics/primitives/amr/graph.py:245-303 | after a merge, `redirect_node` sends `a`, `b` and every int or tuple id that either covered to the new node |
| MergeLaws.MergeRelations | synthetics/primitives/amr/graph.py:260-297 | after a merge no edge mentions `a` or `b`; an edge between two other nodes is kept with its label; `(n, t)` is an edge exactly when `(a, t)` or `(b, t)` was, `(t, n)` exactly when `(t, a)` or `(t, b)` was, and each carries one of their labels |
| MergeLaws.MergeIs | synthetics/primitives/amr/graph.py:245-303 | the three parts the class method computes are the outcome of `pairwise_merge`, and the resulting state is well formed |
| StoreLaws.InstanceKeyTruthy | synthetics/primitives/amr/graph.py:174 | a falsy id is replaced by the string `x<count>`, which is never falsy; a truthy id is kept |
| StoreLaws.AddInstanceWf | synthetics/primitives/amr/graph.py:172-177 | `add_instance` stores a fresh index-free concept with the mapping and no attributes, replaces any concept under that key, keeps every other node, and keeps the invariant when the key is present or owns no word id of another key |
| StoreLaws.AddRelationSpec | synthetics/primitives/amr/graph.py:179-184 | on two keys with a `:` label, `add_relation` stores the edge when the ends differ, changes nothing for a self-loop, keeps every other edge, and keeps the invariant |
| StoreLaws.AddRelationWf | synthetics/primitives/amr/graph.py:179-182 | `add_relation` raises AssertionError exactly when an end is not a key or the label lacks `:` |
| StoreLaws.InvertTwice | synthetics/primitives/amr/graph.py:191 | inverting a label twice gives it back exactly when it does not end in `-of-of` |
| StoreLaws.GetRelationSpec | synthetics/primitives/amr/graph.py:186-192 | `get_relation` returns the forward label if there is one; with `include_inverted` and only a reverse edge it returns that label with `-of` toggled; otherwise None |
| StoreLaws.GetAfterAdd | synthetics/primitives/amr/graph.py:179-192 | an edge just stored between two different keys reads back with its label, and from the other end (with `include_inverted`, when no reverse edge exists) with the inverted label |
| StoreLaws.DelRelationSpec | synthetics/primitives/amr/graph.py:194-201 | `del_relation` succeeds exactly when `get_relation` with the same flag finds an edge; it removes the forward edge, or else the reverse one, and nothing else; otherwise it raises KeyError; it keeps the invariant |
| StoreLaws.AddAttributeWf | synthetics/primitives/amr/graph.py:203-206 | the store's `add_attribute` raises exactly on a missing node or a label without `:`; otherwise it sets that one attribute of that one node and keeps the invariant |
| StoreLaws.RedirectTokens | synthetics/primitives/amr/graph.py:208-222 | the node `redirect_node` returns owns every word id of its input |
| StoreLaws.MergeTokens | synthetics/primitives/amr/graph.py:245-303 | the node `pairwise_merge` returns is a key and owns every word id of both operands |
| StoreLaws.MergeAllWf | synthetics/primitives/amr/graph.py:233-240 | the `while` loop of `amalgamate` keeps the invariant |
| StoreLaws.MergeAllTokens | synthetics/primitives/amr/graph.py:233-240 | the loop's final node owns every word id of the first node and of every id merged in, up to the first falsy id, and is a key once a merge ran |
| StoreLaws.AmalgamateWf | synthetics/primitives/amr/graph.py:227-243 | `amalgamate` keeps the invariant |
| StoreLaws.AmalgamateTokens | synthetics/primitives/amr/graph.py:227-243 | the node `amalgamate` returns owns every word id of the first two ids and of every later id before the first falsy one, and is a key whenever a merge ran |
| GraphStore.AMRGraph.constructor | synthetics/primitives/amr/graph.py:146-151 | a new store is empty, has no top node, and is well formed |
| GraphStore.AMRGraph.AddInstance | synthetics/primitives/amr/graph.py:172-177 | the instances become `GraphSpec.AddInstance` of the old ones; relations and top are unchanged |
| GraphStore.AMRGraph.RedirectNode | synthetics/primitives/amr/graph.py:208-222 | the scanning loop returns `Redirect` over the keys in dictionary order |
| GraphStore.AMRGraph.AddRelation | synthetics/primitives/amr/graph.py:179-184 | the method raises or stores exactly as `GraphSpec.AddRelation` says and touches nothing else |
| GraphStore.AMRGraph.GetRelation | synthetics/primitives/amr/graph.py:186-192 | the method returns `GraphSpec.GetRelation` of the relations |
| GraphStore.AMRGraph.DelRelation | synthetics/primitives/amr/graph.py:194-201 | the method raises or deletes exactly as `GraphSpec.DelRelation` says |
| GraphStore.AMRGraph.AddAttribute | synthetics/primitives/amr/graph.py:203-206 | the method raises or updates exactly as `GraphSpec.AddAttributeAt` says |
| GraphStore.AMRGraph.PairwiseMerge | synthetics/primitives/amr/graph.py:245-303 | on a well-formed store the in-place merge leaves the fields equal to the state `GraphSpec.Merge` computes and returns its new key, or raises its error and changes nothing; the invariant is kept |
| GraphStore.AMRGraph.MigrateAttributes | synthetics/primitives/amr/graph.py:285-286 | the attribute loop replays the saved pairs onto the new node |
| GraphStore.AMRGraph.RepointEdges | synthetics/primitives/amr/graph.py:290-297 | the loop over the snapshot of relations leaves them equal to `GraphSpec.Repoint` of that snapshot |
| GraphStore.AMRGraph.RedirectNodes | synthetics/primitives/amr/graph.py:230 | resolving a list of ids gives `RedirectAll` |
| GraphStore.AMRGraph.Amalgamate | synthetics/primitives/amr/graph.py:227-243 | the in-place fold leaves the fields equal to the state `GraphSpec.Amalgamate` computes and returns its node, or raises its error; the invariant is kept |
| GraphStore.AMRGraph.MergeLeft | synthetics/primitives/amr/graph.py:233-240 | the `while` loop leaves the fields equal to the state `GraphSpec.MergeAll` computes |
| GraphStore.AMRGraph.DeletePair | synthetics/primitives/amr/graph.py:257-264 | both operands leave the nodes and exactly the edges `(a, b)` and `(b, a)` leave the relations; the top stays |
| GraphStore.AMRGraph.RepointOne | synthetics/primitives/amr/graph.py:291-297 | one iteration of the re-pointing loop leaves the relations equal to one `GraphSpec` re-pointing step, with the nodes and the top unchanged |
| GraphStore.AMRGraph.MoveTop | synthetics/primitives/amr/graph.py:300-301 | the top becomes the new node exactly when it was `a` or `b`, and is otherwise kept |
| GraphStore.AMRGraph.Render | synthetics/primitives/amr/graph.py:153-157 | the triples handed to `penman` are `RenderTriples` of the fields: the products of the concepts in dictionary order, then one triple per edge |
| GraphStore.CollectNodeTriples | synthetics/primitives/amr/graph.py:154-156 | the node loop concatenates the product of each concept under its key, in order |
| GraphStore.CollectEdgeTriples | synthetics/primitives/amr/graph.py:157 | the edge list has one `(head, label, tail)` triple per relation item, in order |
| StoreLaws.RenderSpec | synthetics/primitives/amr/graph.py:153-157 | every node is declared by an `:instance` triple on its key, and after the node triples come exactly the edges, in dictionary order, with their stored labels |
| StoreLaws.RenderDeclares | synthetics/primitives/amr/graph.py:153-155 | every node key is the source of an `:instance` triple of the rendering |
| StoreLaws.RenderEdgeOrder | synthetics/primitives/amr/graph.py:153-157 | the rendering is the node triples followed by one triple per edge, in dictionary order, with head, stored label and tail |
| StoreLaws.RenderEdgesListed | synthetics/primitives/amr/graph.py:156-157 | every stored edge appears in the rendering with its label |
| GraphSpec.RedirectAll | synthetics/primitives/amr/graph.py:230 | resolving a list of ids gives one resolved id per input, position by position |
| GraphSpec.WordForms | synthetics/primitives/amr/graph.py:281 | one word form per id, in the order of the ids |
| FusionSpec.Windows | synthetics/primitives/amr/graph.py:59 | `ngrams(items, n)` gives every run of `n` consecutive items, left to right, and none when `n` is 0 or longer than the list |
| FusionSpec.WindowIds | synthetics/primitives/amr/graph.py:62 | the node ids of a window are its word ids, position by position |
| FusionSpec.Range | synthetics/primitives/amr/graph.py:84 | `list(range(lo, hi))` holds the ids `lo` up to `hi - 1`, and nothing when `lo >= hi` |
| FusionSpec.PredicateWords | synthetics/primitives/amr/graph.py:102-103 | one word id per role frame: the first word of its predicate's span |
| FusionSpec.IndexOf | synthetics/primitives/amr/graph.py:120 | `list.index` returns the first position holding the value |
| PyDict.Firsts | synthetics/primitives/amr/graph.py:114 | the forms of the root-form pairs, position by position |
| FusionLaws.DepInstancesSpec | synthetics/primitives/amr/graph.py:43-44 | with nonzero word ids, each id ends up holding the index-free node of the last word with that id, aligned to that id alone; other nodes are kept and no other key appears |
| FusionLaws.DepInstancesWf | synthetics/primitives/amr/graph.py:43-44 | the node loop keeps the store's invariant and plain keys, and loses no key |
| FusionLaws.DepLinkSpec | synthetics/primitives/amr/graph.py:46-53 | the root word becomes the top; any other word raises AssertionError exactly when it or its head is not a node, and otherwise gets the `:dep.` edge from its head unless both are one node |
| FusionLaws.DepLinksWf | synthetics/primitives/amr/graph.py:46-53 | the link loop keeps the nodes and the invariant |
| FusionLaws.DepLinksTop | synthetics/primitives/amr/graph.py:50-51 | the top is the last root word, or the old top when no word is a root |
| FusionLaws.DepPassWf | synthetics/primitives/amr/graph.py:41-53 | `update_from_dep` keeps the invariant and plain keys, and its nodes are those of the node loop |
| FusionLaws.GuideWf | synthetics/primitives/amr/graph.py:64-66 | the guide loop succeeds exactly when there are no guides or the node is a key and every label starts with `:`; KeyError for a missing node, AssertionError for a bad label; only that node changes |
| FusionLaws.GuideAttributes | synthetics/primitives/amr/graph.py:64-66 | each guide label gets its last value, other attributes are kept, and the node keeps its type, alignment and variant |
| FusionLaws.MwePassWf | synthetics/primitives/amr/graph.py:55-66 | `update_from_mwe` keeps the invariant |
| FusionLaws.MweNoMatch | synthetics/primitives/amr/graph.py:59-61 | a construction none of whose windows matches leaves the graph unchanged |
| FusionLaws.MweShortWindows | synthetics/primitives/amr/graph.py:61-63 | with windows of fewer than two words, the first matching window makes `amalgamate` fail its assertion |
| FusionLaws.MweOneWordPattern | synthetics/primitives/amr/graph.py:57-63 | a one-query pattern that matches any word raises AssertionError |
| FusionLaws.NerNodeWf | synthetics/primitives/amr/graph.py:83-89 | a reversed span raises ValueError; a one-word span resolves its word and changes nothing; any result keeps the invariant |
| FusionLaws.NerNodeTokens | synthetics/primitives/amr/graph.py:83-87 | with positive word ids, the node an entity lands on owns every word of the span, and is a key once words were merged |
| FusionLaws.NerEntityOutcome | synthetics/primitives/amr/graph.py:90-98 | KeyError for a label missing from the table, TypeError for a None entry, ValueError for a string entry that will not unpack; success exactly on a pair entry and a node that is a key |
| FusionLaws.NerEntityReplaces | synthetics/primitives/amr/graph.py:90-98 | a successful entity step replaces only that node's concept, by one with the node's alignment and no attributes |
| FusionLaws.NerEntityKinds | synthetics/primitives/amr/graph.py:90-98 | the new concept has the entry's type, the class matching its `ne.`, `tm.` or `ge.` kind, and the url as wiki only with wikification |
| FusionLaws.NerOtherRowFails | synthetics/primitives/amr/graph.py:90 | a label first listed from CV_CURRENCY onward never becomes an entity |
| FusionLaws.NerItemWf | synthetics/primitives/amr/graph.py:82-98 | one entity item keeps the invariant |
| FusionLaws.NerItemsWf | synthetics/primitives/amr/graph.py:80-98 | `update_from_ner` keeps the invariant |
| FusionLaws.SrlArgumentOutcome | synthetics/primitives/amr/graph.py:72-78 | a negation argument changes nothing; any other fails, with AssertionError, exactly when the predicate node or the argument's node is not a key |
| FusionLaws.SrlArgumentWf | synthetics/primitives/amr/graph.py:72-78 | a role argument changes only edges and keeps the invariant |
| FusionLaws.SrlArgumentEdges | synthetics/primitives/amr/graph.py:73-78 | between two different nodes the `:srl.` edge is stored, the reverse edge is deleted exactly when it is a `:dep.` edge, and every other edge is kept with its label |
| FusionLaws.SrlArgumentSelf | synthetics/primitives/amr/graph.py:73-78 | an argument that resolves to the predicate's own node changes nothing |
| FusionLaws.SrlItemsWf | synthetics/primitives/amr/graph.py:68-78 | `update_from_srl` changes only edges and keeps the invariant |
| FusionLaws.RootFramesFromSpec | synthetics/primitives/amr/graph.py:112-117 | the prefix loop finds frames exactly when some prefix query has frames, and returns those of the shortest such prefix |
| FusionLaws.SenseTypeFails | synthetics/primitives/amr/graph.py:106-107 | the sense step raises IndexError exactly for an index-free concept under the empty tuple; a concept of any other class is never retyped |
| FusionLaws.SensePredicate | synthetics/primitives/amr/graph.py:109-137 | a predicate node always gets a type: the first frame found by root or by lemma, else the lemma form with `-98` when it has root forms and `-99` when it has none |
| FusionLaws.SenseNodesUnvisited | synthetics/primitives/amr/graph.py:106-142 | a node the sense loop does not visit keeps its concept |
| FusionLaws.SenseNodesVisited | synthetics/primitives/amr/graph.py:106-142 | each visited node ends with its concept retyped by its sense type |
| FusionLaws.WsdPassSpec | synthetics/primitives/amr/graph.py:101-142 | on a well-formed graph `update_from_wsd` never fails, keeps edges, top, order and keys, retypes every node by its sense type, and keeps the invariant |
| FusionLaws.PipelineWf | synthetics/primitives/amr/graph.py:24-32 | whatever the pipeline builds is well formed, and once the role pass succeeds the whole pipeline does |
| Fusion.AbstractMeaningRepresentation.constructor | synthetics/primitives/amr/graph.py:15-32 | construction yields the graph of `Pipeline` over an empty store, or the exception that stopped it |
| Fusion.AbstractMeaningRepresentation.RunPipeline | synthetics/primitives/amr/graph.py:24-32 | the five passes in order leave the graph `Pipeline` computes, or return its exception |
| Fusion.AbstractMeaningRepresentation.Encode | synthetics/primitives/amr/graph.py:38-39 | `encode` returns the render triples of the current graph |
| Fusion.AbstractMeaningRepresentation.UpdateFromDep | synthetics/primitives/amr/graph.py:41-53 | the two loops leave the graph `DepPass` computes, or return its exception |
| Fusion.AbstractMeaningRepresentation.AddDepLinks | synthetics/primitives/amr/graph.py:46-53 | the link loop leaves the graph `DepLinks` computes, or returns its exception |
| Fusion.AbstractMeaningRepresentation.SetTop | synthetics/primitives/amr/graph.py:51 | the top becomes the word; nodes and edges stay |
| Fusion.AbstractMeaningRepresentation.SetConcept | synthetics/primitives/amr/graph.py:98 | the node's concept is replaced in place; edges and top stay |
| Fusion.AbstractMeaningRepresentation.UpdateFromMwe | synthetics/primitives/amr/graph.py:55-66 | the pattern loop leaves the graph `MwePass` computes, or returns its exception |
| Fusion.AbstractMeaningRepresentation.MatchPattern | synthetics/primitives/amr/graph.py:58-66 | the window loop of one pattern leaves the graph `MwePattern` computes |
| Fusion.AbstractMeaningRepresentation.MergeWindow | synthetics/primitives/amr/graph.py:62-66 | a matching window is amalgamated with redirection and given its guides, as `MweWindow` says |
| Fusion.AbstractMeaningRepresentation.AddGuides | synthetics/primitives/amr/graph.py:65-66 | the guide loop leaves the graph `Guide` computes, or returns its exception |
| Fusion.AbstractMeaningRepresentation.UpdateFromNer | synthetics/primitives/amr/graph.py:80-98 | the entity loop over the chosen layer leaves the graph `NerPass` computes, or returns its exception |
| Fusion.AbstractMeaningRepresentation.AddEntity | synthetics/primitives/amr/graph.py:82-98 | one entity item leaves the graph `NerItem` computes |
| Fusion.AbstractMeaningRepresentation.EntityNode | synthetics/primitives/amr/graph.py:83-89 | the entity's node and graph are those `NerNode` computes, or ValueError for a reversed span |
| Fusion.AbstractMeaningRepresentation.Replace | synthetics/primitives/amr/graph.py:90-98 | the table look-up and replacement leave the graph `NerEntity` computes, or return its exception |
| Fusion.AbstractMeaningRepresentation.UpdateFromSrl | synthetics/primitives/amr/graph.py:68-78 | the role loop leaves the graph `SrlItems` computes, or returns its exception |
| Fusion.AbstractMeaningRepresentation.AddArguments | synthetics/primitives/amr/graph.py:72-78 | the argument loop of one frame leaves the graph `SrlArguments` computes |
| Fusion.AbstractMeaningRepresentation.AddArgument | synthetics/primitives/amr/graph.py:73-78 | one argument leaves the graph `SrlArgumentStep` computes |
| Fusion.AbstractMeaningRepresentation.UpdateFromWsd | synthetics/primitives/amr/graph.py:101-142 | the sense loop leaves the graph `WsdPass` computes, or returns its exception |
| Fusion.AbstractMeaningRepresentation.TypeOf | synthetics/primitives/amr/graph.py:107-142 | the body of the sense loop returns the node's `SenseType` |
| Fusion.AbstractMeaningRepresentation.RootFrames | synthetics/primitives/amr/graph.py:112-117 | the prefix loop returns the frames of the first prefix query that has any, or none |
| LegacyLaws.AddInstanceSpec | synthetics/primitives/graph.py:88-89 | a truthy id keys the node itself, a falsy one is keyed `x<count>`; exactly that key is added or overwritten and every other node keeps its concept |
| LegacyLaws.AddRelationSpec | synthetics/primitives/graph.py:91-95 | `add_relation` succeeds exactly when both ends are nodes and the label starts with `:`, else AssertionError; on success it stores the label under the pair and changes no other edge |
| LegacyLaws.SelfLoopKept | synthetics/primitives/graph.py:91-95 | a self-loop is stored, where the later store drops it |
| LegacyLaws.GetRelationAgrees | synthetics/primitives/graph.py:97-103 | `get_relation` is the later store's `get_relation` with inverted look-up always on |
| LegacyLaws.GetRelationBothWays | synthetics/primitives/graph.py:97-103 | a stored edge reads back from its head, and from its tail with `-of` toggled when there is no reverse edge |
| LegacyLaws.AddAttributeSpec | synthetics/primitives/graph.py:105-108 | `add_attribute` succeeds exactly on a node and a `:` label, keeps one pair per node, and a second call replaces the first |
| LegacyLaws.MergeRefusals | synthetics/primitives/graph.py:124-147 | KeyError when either node is missing, and always when a node is merged with itself; TypeError on a str id |
| LegacyLaws.MergedIdNew | synthetics/primitives/graph.py:133-147 | the merged key differs from both operands |
| LegacyLaws.MergeOk | synthetics/primitives/graph.py:121-173 | a merge succeeds only on two distinct int or tuple keys, and is then built from the merged nodes, the re-pointed edges and the re-keyed attributes |
| LegacyLaws.MergeNode | synthetics/primitives/graph.py:121-173 | a merge returns the sorted tuple of both nodes' word ids, whose concept is their forms joined by `_`; both nodes go, all others stay, and the top follows the merge |
| LegacyLaws.MergedInstancesSpec | synthetics/primitives/graph.py:124-149 | after the deletions and `add_instance`, the merged key holds the joined forms, `a` and `b` are gone and every other node is as it was |
| LegacyLaws.MergeConsumes | synthetics/primitives/graph.py:121-173 | a successful merge removes both nodes and returns a node of the graph |
| LegacyLaws.MergeAddsNoPlainKey | synthetics/primitives/graph.py:133-149 | a merge adds no int or str key |
| LegacyLaws.NoRedirection | synthetics/primitives/graph.py:124-125 | with no redirection, merging either merged node again raises KeyError |
| LegacyLaws.RepointStepSpec | synthetics/primitives/graph.py:153-160 | one iteration moves the edge it handles to leave or enter the new node and leaves edges away from `a` and `b` alone |
| LegacyLaws.RepointKeeps | synthetics/primitives/graph.py:153-160 | re-pointing keeps every edge away from `a` and `b` |
| LegacyLaws.RepointClears | synthetics/primitives/graph.py:153-160 | when the snapshot lists every edge at `a` or `b`, none is left afterwards |
| LegacyLaws.RepointMoves | synthetics/primitives/graph.py:153-160 | each snapshot edge out of `a` or `b` now leaves the new node, and each edge into them enters it |
| LegacyLaws.RepointErrors | synthetics/primitives/graph.py:153-160 | the only exception re-pointing can raise is AssertionError |
| LegacyLaws.DropBetweenSpec | synthetics/primitives/graph.py:128-131 | exactly the edges between `a` and `b` are deleted, and the snapshot lists each remaining edge once |
| LegacyLaws.RepointListed | synthetics/primitives/graph.py:153-160 | over a list of the relations' edges, no edge is left at `a` or `b`, edges away from them stay, and each edge at one of them has the new node in its place |
| LegacyLaws.DroppedRepoint | synthetics/primitives/graph.py:128-160 | the facts of `MergeEdges`, stated against the relations before the merge |
| LegacyLaws.MergeEdges | synthetics/primitives/graph.py:121-173 | after a merge no edge touches `a` or `b`, edges away from them stay, and each edge between one of them and a third node now has the new node in its place |
| LegacyLaws.MergeSelfLoop | synthetics/primitives/graph.py:153-160 | a node carrying an edge to itself cannot be merged: the moved edge points at a deleted node and raises AssertionError |
| LegacyLaws.RekeyOthers | synthetics/primitives/graph.py:163-167 | the attribute loop leaves every node other than `a`, `b` and the new node alone |
| LegacyLaws.RekeyLast | synthetics/primitives/graph.py:163-167 | the new node gets the last attribute of `a` or `b` visited, or keeps its own when none is |
| LegacyLaws.RekeyGone | synthetics/primitives/graph.py:163-167 | `a` or `b` keeps an attribute only if it had one and the loop never visited it |
| LegacyLaws.RekeySpec | synthetics/primitives/graph.py:163-167 | the attribute loop moves the attributes of `a` and `b` to the new node, the last one winning, and leaves the rest alone |
| LegacyLaws.MergeAttributes | synthetics/primitives/graph.py:162-167 | after a merge neither operand has an attribute, the new node has the last of theirs (or its own), and every other node keeps its attribute |
| LegacyLaws.MergeAllStops | synthetics/primitives/graph.py:116-118 | the `while` loop stops at the first falsy id; nothing after it is merged |
| LegacyLaws.MergeAllStep | synthetics/primitives/graph.py:116-118 | one turn of the loop: a failing merge ends it with that exception, a successful one continues from the merged node |
| LegacyLaws.MergeAllAppend | synthetics/primitives/graph.py:116-118 | the loop over two runs of truthy ids is the loop over the first, then the second from where the first ended |
| LegacyLaws.MergeAllAddsNoPlainKey | synthetics/primitives/graph.py:116-118 | the loop adds no int or str key |
| LegacyLaws.MergeAllConsumes | synthetics/primitives/graph.py:114-119 | a successful loop over word ids removes every id it merged and ends on a node |
| LegacyLaws.AmalgamateConsumes | synthetics/primitives/graph.py:110-119 | a successful `amalgamate` of word ids removes every one of them and returns a node |
| LegacyLaws.AmalgamateAgain | synthetics/primitives/graph.py:110-119 | amalgamating again with one of the first two ids already merged raises KeyError |
| LegacyLaws.DepInstancesSpec | synthetics/primitives/graph.py:29-32 | every word with a truthy id used once is a node with its surface form; other nodes keep their concepts |
| LegacyLaws.DepLinkSpec | synthetics/primitives/graph.py:34-41 | the root word becomes the top; any other word gets `:<label>.dep` from its head, succeeding exactly when both are nodes; nodes and attributes stay |
| LegacyLaws.ArgWritesSpec | synthetics/primitives/graph.py:46-47 | the argument loop writes `:<label>.srl` from the predicate word to the last argument of each word id, without checking either is a node, and keeps every other edge |
| LegacyLaws.SrlPassKeeps | synthetics/primitives/graph.py:43-47 | `update_from_srl` never removes an edge |
| LegacyLaws.NerItemSkip | synthetics/primitives/graph.py:51-52 | an entity covering fewer than two words changes nothing |
| LegacyLaws.NerItemSpan | synthetics/primitives/graph.py:51-54 | an entity over words `wb..we`, at least two, amalgamates exactly those words |
| LegacyLaws.NerOverlap | synthetics/primitives/graph.py:49-54 | an entity whose first or second word an earlier entity merged raises KeyError |
| LegacyLaws.RenderSpec | synthetics/primitives/graph.py:66-69 | one `:instance` triple per node, then one triple per edge, then one per attribute, each group in dictionary order |
| LegacyStore.AMRGraph.constructor | synthetics/primitives/graph.py:57-64 | a new graph has no nodes, edges or attributes and no top |
| LegacyStore.AMRGraph.AddInstance | synthetics/primitives/graph.py:88-89 | the nodes become `LegacySpec.AddInstance` of the old ones; nothing else changes |
| LegacyStore.AMRGraph.AddRelation | synthetics/primitives/graph.py:91-95 | the method raises or stores as `LegacySpec.AddRelation` says and touches nothing else |
| LegacyStore.AMRGraph.GetRelation | synthetics/primitives/graph.py:97-103 | the method returns `LegacySpec.GetRelation` of the relations |
| LegacyStore.AMRGraph.AddAttribute | synthetics/primitives/graph.py:105-108 | the method raises or sets the node's one attribute as `LegacySpec.AddAttribute` says |
| LegacyStore.AMRGraph.PairwiseMerge | synthetics/primitives/graph.py:121-173 | the in-place merge leaves the fields equal to `LegacySpec.Merge` and returns its key, or returns its exception |
| LegacyStore.AMRGraph.DelInstance | synthetics/primitives/graph.py:124-125 | `del` removes a present node and raises KeyError for a missing one |
| LegacyStore.AMRGraph.DeletePair | synthetics/primitives/graph.py:128-131 | exactly the edges between the two nodes are deleted |
| LegacyStore.AMRGraph.RepointEdges | synthetics/primitives/graph.py:153-160 | the loop over the snapshot leaves the relations `LegacySpec.Repoint` computes, or returns its exception |
| LegacyStore.AMRGraph.RepointOne | synthetics/primitives/graph.py:154-160 | one iteration leaves the relations one `RepointStep` computes |
| LegacyStore.AMRGraph.Move | synthetics/primitives/graph.py:156-160 | the pair is deleted and the re-targeted edge stored as `LegacySpec.Move` says |
| LegacyStore.AMRGraph.RekeyAttributes | synthetics/primitives/graph.py:163-167 | the attribute loop leaves the attributes `LegacySpec.Rekey` computes over their snapshot |
| LegacyStore.AMRGraph.RekeyOne | synthetics/primitives/graph.py:165-167 | an attribute of `a` or `b` moves to the new node; any other stays |
| LegacyStore.AMRGraph.MoveTop | synthetics/primitives/graph.py:170-171 | the top becomes the new node exactly when it was `a` or `b` |
| LegacyStore.AMRGraph.Amalgamate | synthetics/primitives/graph.py:110-119 | the fields end as `LegacySpec.Amalgamate` says and its node is returned, or its exception |
| LegacyStore.AMRGraph.MergeLeft | synthetics/primitives/graph.py:114-119 | the popping loop leaves the fields `MergeAll` computes |
| LegacyStore.AMRGraph.Render | synthetics/primitives/graph.py:66-69 | the triples are `RenderTriples` of the fields |
| LegacyStore.MergedIdTruthy | synthetics/primitives/graph.py:133-147 | the merged key of two distinct int or tuple ids is truthy, so the loop's `add_instance` keys it by itself |
| LegacyStore.AMRAnnotation.constructor | synthetics/primitives/graph.py:7-18 | construction yields the graph `Annotate` computes over an empty graph, or its exception |
| LegacyStore.AMRAnnotation.RunPipeline | synthetics/primitives/graph.py:16-18 | the three passes in order leave the graph `Annotate` computes, or return its exception |
| LegacyStore.AMRAnnotation.Encode | synthetics/primitives/graph.py:24-25 | `encode` returns the render triples of the graph |
| LegacyStore.AMRAnnotation.ParseToPenman | synthetics/primitives/graph.py:27-41 | the two loops leave the graph `LegacySpec.ParseToPenman` computes, or return its exception |
| LegacyStore.AMRAnnotation.SetTop | synthetics/primitives/graph.py:39 | the top becomes the word; nothing else changes |
| LegacyStore.AMRAnnotation.UpdateFromSrl | synthetics/primitives/graph.py:43-47 | the nested loops leave the relations `SrlPass` computes |
| LegacyStore.AMRAnnotation.WriteRelation | synthetics/primitives/graph.py:47 | the label is written under the pair directly; nothing else changes |
| LegacyStore.AMRAnnotation.UpdateFromNer | synthetics/primitives/graph.py:49-54 | the entity loop leaves the graph `NerPass` computes, or returns its exception |
| RulePriority.SortByMultiset | synthetics/rules/periphrastic_constructions.py:290-291 | `sorted` returns a permutation of its input |
| RulePriority.SortBySorted | synthetics/rules/periphrastic_constructions.py:290-291 | `sorted` orders by the key in the requested direction |
| RulePriority.SortByStable | synthetics/rules/periphrastic_constructions.py:290 | `sorted` is stable: elements with equal keys keep their input order |
| RulePriority.SortByDistinct | synthetics/rules/periphrastic_constructions.py:291 | sorting distinct elements keeps them distinct |
| RulePriority.FirstSeenSpec | synthetics/rules/periphrastic_constructions.py:286-289 | the keys of `ngram_ranks` are distinct and include the token count of every rule |
| RulePriority.BlocksMultiset | synthetics/rules/periphrastic_constructions.py:292-294 | the third loop concatenates the buckets of the listed counts, a permutation of the rules with those counts |
| RulePriority.HavingBlocks | synthetics/rules/periphrastic_constructions.py:292-294 | the rules of one token count in the result are exactly that count's sorted bucket |
| RulePriority.BlocksOrdered | synthetics/rules/periphrastic_constructions.py:291-294 | with counts in strict order, the concatenated buckets are ordered by count and then by pattern length |
| RulePriority.NOrderSpec | synthetics/rules/periphrastic_constructions.py:289-291 | `n_order` is distinct, strictly ordered and covers every rule's token count |
| RulePriority.PrioritizedSpec | synthetics/rules/periphrastic_constructions.py:282-295 | `prioritize` returns a permutation of the keys ordered by token count, then pattern length (ascending for `simple-to-complex`, descending otherwise), ties keeping dictionary order |
| RulePriority.Prioritize | synthetics/rules/periphrastic_constructions.py:282-295 | AssertionError for any other `sort`; otherwise the three loops return `Prioritized`; `synthetics/rules/singletons.py` lines 7-20 repeat the same function |
| RulePriority.Buckets | synthetics/rules/periphrastic_constructions.py:286-288 | the first loop files each key under its token count, in dictionary order, counts in order of first appearance |
| RulePriority.SortBuckets | synthetics/rules/periphrastic_constructions.py:289-290 | the second loop replaces each bucket by its stable sort on pattern length |
| Periphrastic.PatternsOf | synthetics/rules/periphrastic_constructions.py:287-288 | the table reduced to its patterns keeps its keys and order and maps each key to its pattern |
| Periphrastic.TableRaises | synthetics/rules/periphrastic_constructions.py:287-288 | prioritising the `(pattern, guides)` tuples of a non-empty table raises AttributeError, while prioritising their patterns gives a permutation of the keys |
| Periphrastic.InitArgument | synthetics/rules/periphrastic_constructions.py:307 | a call without `sort` raises TypeError; otherwise `sort` is that argument |
| Periphrastic.PatternListSpec | synthetics/rules/periphrastic_constructions.py:316 | listing present keys gives one construction per key, in the same order |
| Periphrastic.PatternsInPriority | synthetics/rules/periphrastic_constructions.py:311-316 | `get_patterns` after a successful first construction lists every construction of the table once, in priority order |
| Periphrastic.Constructions.constructor | synthetics/rules/periphrastic_constructions.py:298-300 | the class starts with no instance, intact, and no instance attributes |
| Periphrastic.Constructions.Call | synthetics/rules/periphrastic_constructions.py:302-312 | the constructor call as written: without `sort` TypeError and nothing stored; on the intact class with a `sort`, table and sort are stored and the call raises AssertionError for an unknown sort and AttributeError for an accepted one on a non-empty table, staying intact; later calls change nothing; the singleton repeated at `synthetics/rules/singletons.py` lines 27-37 behaves the same way |
| Periphrastic.Constructions.CallCorrected | synthetics/rules/periphrastic_constructions.py:302-312 | with `prioritize` reading the patterns: only the first call with a valid `sort` stores table, sort and priority and clears `intact`; a call without `sort` raises TypeError; later calls change nothing |
| Periphrastic.Constructions.New | synthetics/rules/periphrastic_constructions.py:302-305 | `__new__` creates the one instance and changes no attribute |
| Periphrastic.Constructions.Init | synthetics/rules/periphrastic_constructions.py:307-312 | `__init__` as written on the intact class stores the table and the sort, then fails in `prioritize`: AssertionError for an unknown sort, AttributeError on a non-empty table, staying intact; only the empty table is prioritised; otherwise nothing changes |
| Periphrastic.Constructions.InitCorrected | synthetics/rules/periphrastic_constructions.py:307-312 | with `prioritize` reading the patterns, `__init__` on the intact class stores the table, the sort and `Prioritized`, or fails the assertion and stays intact; otherwise nothing changes |
| Periphrastic.EmptyTableAgrees | synthetics/rules/periphrastic_constructions.py:282-295 | on the empty table, prioritising the tuples and prioritising the patterns both give `[]` |
| Periphrastic.Constructions.GetPatterns | synthetics/rules/periphrastic_constructions.py:314-316 | AttributeError while no priority is stored; otherwise the table's constructions in priority order; `synthetics/rules/singletons.py` lines 39-41 repeat it |
| DateRules.Offset | synthetics/rules/date_entities.py:80-81 | a deixis word is found exactly when a row has it, and then its offset is on such a row |
| DateRules.LastPieceSpec | synthetics/rules/date_entities.py:54 | `split('·')[-1]` is the suffix after the last `·`, or the whole text |
| DateRules.StripSpec | synthetics/rules/date_entities.py:55 | `strip()` keeps characters of its argument and leaves no blank at either end |
| DateRules.PreprocessSpec | synthetics/rules/date_entities.py:51-55 | preprocessing keeps only the stripped text after the last `·`: no `·` and no blank at either end |
| DateRules.PreprocessPlain | synthetics/rules/date_entities.py:51-55 | a text without lead word, particle, `·` or end blanks is left as it is |
| DateRules.DropParticlesNone | synthetics/rules/date_entities.py:53 | a text without particle characters is not changed by the deletion |
| DateRules.SplitOnAbsent | synthetics/rules/date_entities.py:54 | splitting a text without the separator gives the text alone |
| DateRules.UnreachableNamedDates | synthetics/rules/date_entities.py:21 | "8·15" and "3·1절 " can never be matched, because preprocessing drops everything up to `·` and strips |
| DateRules.DropParticlesClean | synthetics/rules/date_entities.py:53 | deleting the particles leaves none of 쯤, 께, 경, 중 and 치 anywhere in the text |
| DateRules.PreprocessClean | synthetics/rules/date_entities.py:51-55 | a preprocessed text never holds 쯤, 께, 경, 중 or 치 |
| DateRules.ParticleKeysUnreachable | synthetics/rules/date_entities.py:4-48 | no key of the general, named-date or deixis tables that holds one of those characters can equal a preprocessed text, so none of them ever matches |
| DateRules.ParticleKeys | synthetics/rules/date_entities.py:7-48 | the deixis words 어저께, 그저께, 엊그저께 and 그끄저께 and the named dates 경로의 날, 경찰의 날, 경칩, 국경절, 중복, 중복날, 중양절 and 중추절 are table keys that hold such a character |
| DateRules.IndexOf | synthetics/rules/date_entities.py:64 | `index` returns the first position of the character, and raises ValueError exactly when it is absent |
| DateRules.ParseWeekdaySpec | synthetics/rules/date_entities.py:62-64 | `parse_weekday` succeeds exactly when the first character is a weekday and names it; IndexError on the empty text, ValueError otherwise |
| DateRules.ParseNumber | synthetics/rules/date_entities.py:58-59 | `parse_number` returns a non-empty run of digits, and AttributeError exactly when the text has no digit |
| DateRules.FirstIn | synthetics/rules/date_entities.py:86-88 | the first position holding one of the characters, found exactly when there is one |
| DateRules.NormalizeTypes | synthetics/rules/date_entities.py:69-91 | an unknown type fails the assertion; every allowed type but DT_DAY gives None |
| DateRules.NormalizeDay | synthetics/rules/date_entities.py:74-75 | DT_DAY runs the decision list on the preprocessed text |
| DateRules.DayOrder | synthetics/rules/date_entities.py:76-81 | general concepts are checked first, then named dates, then deictic words with their row's offset |
| DateRules.OffsetDistinct | synthetics/rules/date_entities.py:80-81 | in a table without repeated words, a word's offset is the one on its row |
| DateRules.DeixisKeysDistinct | synthetics/rules/date_entities.py:23-48 | the deixis table repeats no word, so each word has one offset |
| DateRules.DeixisShort | synthetics/rules/date_entities.py:23-48 | every deictic word is at most five characters long |
| DateRules.DeixisExample | synthetics/rules/date_entities.py:23-48 | 내일 gives `+1`, 어제 gives `-1` and 모레 gives `+2` |
| DateRules.DeixisNormalize | synthetics/rules/date_entities.py:74-81 | a text that preprocessing keeps and only the deixis table knows gets its offset |
| DateRules.DayDeixis | synthetics/rules/date_entities.py:80-81 | a word in no earlier table gets its deixis offset |
| DateRules.DayWeekday | synthetics/rules/date_entities.py:86-87 | past the table and number branches, a text with a weekday character takes the weekday branch |
| DateRules.OrdinalSpec | synthetics/rules/date_entities.py:88-89 | the ordinal branch gives `D+k` for the k-th of 첫둘셋넷 at the start of the text |
| DateRules.LastSpec | synthetics/rules/date_entities.py:90-91 | 마지막 gives `D-1` once no earlier branch applies, and a text no branch accepts gives None |
| DateRules.WeekdayAsWritten | synthetics/rules/date_entities.py:86-87 | "다음 주 월요일" reaches the weekday branch and raises ValueError, because `parse_weekday` reads 다 |
| DateRules.WeekdayMatched | synthetics/rules/date_entities.py:86-87 | reading the matched character, "다음 주 월요일" is 월요일 |
| DateRules.MatchedWeekdaySpec | synthetics/rules/date_entities.py:86-87 | reading the matched character, the weekday branch never raises and names the first weekday character |
| DateRules.MatchedOrdinalSpec | synthetics/rules/date_entities.py:88-89 | reading the matched character, the ordinal branch never raises and gives `D+k` for the first ordinal character |
| DateRules.MatchedNeverRaises | synthetics/rules/date_entities.py:74-91 | reading the matched character, the DT_DAY decision list never raises |
| Predicates.VerbFrame.constructor | synthetics/resources/predicates.py:8-16 | a new frame stores its fields and starts with an empty roleset and empty mappings |
| Predicates.VerbFrame.AddArgrole | synthetics/resources/predicates.py:21-27 | AssertionError unless `argnum` is one digit or `A`; otherwise the stripped role is filed under `ARG<argnum>`, appended after a blank-bar-blank separator when the key exists |
| Predicates.VerbFrame.AddMapping | synthetics/resources/predicates.py:29-36 | the mappings become `Mapped` of the old ones; the roleset stays |
| Predicates.Lexicon.constructor | synthetics/resources/predicates.py:54-58 | a new lexicon has its frame files and two empty indexes |
| Predicates.Lexicon.AddForm | synthetics/resources/predicates.py:60-63 | the form index becomes `Added` of the old one; the lemma index stays |
| Predicates.Lexicon.AddFrame | synthetics/resources/predicates.py:65-68 | the lemma index becomes `Added` of the old one; the form index stays |
| Predicates.ReplaySpec | synthetics/resources/predicates.py:21-27 | after a run of `add_argrole` calls, a key is present exactly when some call filed a role under it, and holds those roles joined by the blank-bar-blank separator in call order |
| Predicates.MappedSpec | synthetics/resources/predicates.py:29-36 | after `add_mapping`, `mappings[rel][trg]` is `src`, the inner map is created when missing, and every other entry is unchanged |
| Predicates.MappedOverwrite | synthetics/resources/predicates.py:32-36 | a later mapping of the same relation and target wins, and repeating one changes nothing |
| Predicates.AddedSpec | synthetics/resources/predicates.py:60-68 | the key holds its old frames plus the new one, the set is created on first use, and nothing else changes |
| Predicates.AddedPresent | synthetics/resources/predicates.py:60-68 | re-adding a frame already filed under the key changes nothing |
| Predicates.AddedTwice | synthetics/resources/predicates.py:60-68 | adding twice is adding once |
| Predicates.FrameIdClean | synthetics/resources/predicates.py:83-85 | a frame id contains no `.` and no whitespace |
| Predicates.FrameIdIdempotent | synthetics/resources/predicates.py:83-85 | normalising a frame id twice is normalising it once |
| Sejong.ParseThetaRoleSpec | synthetics/resources/sejong.py:45-48 | a missing or empty description gives `[None]`; any other gives one tuple per token, and joining a tuple with `=` gives its token back; blanks only give no tuple |
| Sejong.VerbFrame.constructor | synthetics/resources/sejong.py:12-25 | a new entry has no form (the base class ignores it), the given frame name, no lemma or definition, and empty roleset and examples |
| Sejong.IdiomaticVerbFrames.constructor | synthetics/resources/sejong.py:55-58 | a new table has no entries and no update time |
| Sejong.IdiomaticVerbFrames.Length | synthetics/resources/sejong.py:33-34 | `len` is the number of frame names filed |
| Sejong.IdiomaticVerbFrames.AddEntry | synthetics/resources/sejong.py:60-61 | the entry is filed under its frame name, replacing any entry with that name |
| Sejong.FiledLength | synthetics/resources/sejong.py:60-61 | filing under a new name adds one to the length, under an existing name keeps it; the entry is found under its name and other names are unchanged |
| Sejong.FrameNameSpec | synthetics/resources/sejong.py:84 | the frame name is the headword's words then the sense number zero-padded to at least two characters, joined by `-`; AttributeError without a sense number |

## Left out

- Rendering through `penman.Graph` and `penman.encode`, and the mapping of their exceptions to None. `penman` is an external library. Only the triple lists that `render` assembles are modelled.
- `print` calls and the `timestamp` metadata, which are side output only.
- Partial mutation before an exception. When `pairwise_merge` or `amalgamate` raises part-way, Python leaves the dictionaries partly updated. Only some methods promise the store after an error:
  - These leave every field unchanged on an error, because they check each condition before they write anything: `GraphStore.AMRGraph.PairwiseMerge`, `GraphStore.AMRGraph.AddRelation`, `GraphStore.AMRGraph.DelRelation`, `GraphStore.AMRGraph.AddAttribute`, `LegacyStore.AMRGraph.AddRelation`, `LegacyStore.AMRGraph.AddAttribute` and `LegacyStore.AMRGraph.DelInstance`.
  - These state only the exception, so the fields after it are unspecified: `GraphStore.AMRGraph.Amalgamate`, `GraphStore.AMRGraph.MergeLeft`, and in the earlier builder `PairwiseMerge`, `RepointEdges`, `RepointOne`, `Move`, `Amalgamate` and `MergeLeft`.
- GraphStore.AMRGraph.Amalgamate: on an exception only the exception is stated. The merges that succeeded before it stay done in Python, and the model does not say which state they leave.
- GraphStore.AMRGraph.MergeLeft: on an exception only the exception is stated, for the same reason as `Amalgamate`.
- GraphStore.AMRGraph.PairwiseMerge: refuses every `Named` (str) operand with TypeError. In Python, a str operand next to an int fails in `sorted` with TypeError. Two str operands sort, and then `annotations.word` receives str ids, which is code outside this model.
- GraphStore.AMRGraph.AddInstance: takes a set as the mapping. Python's `set(sorted(None))` raises TypeError for a None mapping, and no caller passes None.
- `redirect_node` raises NotImplementedError for an id that is not an int, str, tuple, list or set. Every id here is one of the modelled kinds, so that branch cannot be reached.
- `amalgamate` consumes the caller's list through `pop`. The model folds over the list instead of emptying it, and no caller reuses the list.
- Fusion.AbstractMeaningRepresentation.constructor: on an exception it states only the exception, not the partly built graph; Python discards the object of a failed constructor, so nothing can observe that graph.
- LegacyStore.AMRAnnotation.constructor: on an exception it states only the exception, for the same reason.
- LegacyStore.AMRGraph.PairwiseMerge: on an exception the fields are left unspecified. Python leaves them partly updated, and the earlier builder's pipeline stops at the first exception. On success its attributes are the intended move, where CPython may raise RuntimeError instead (see `LegacyLaws.MergeAttributes`).
- LegacyLaws.MergeRefusals: refuses every `Named` (str) operand with TypeError. A str next to an int fails in `sorted`; two str operands would sort, and then `annotations.word` receives str ids, which is code outside this model.
- LegacyLaws.MergeAttributes: states the intended move of the attributes. The loop at `synthetics/primitives/graph.py` lines 163-167 deletes from and inserts into the dictionary it iterates. In CPython this raises RuntimeError once `a` or `b` has an attribute, unless the insertion resizes the table, in which case iteration silently skips an entry. That depends on the table's internal layout, which the model does not represent. The earlier builder's passes never add an attribute, so its pipeline never reaches the loop with one.
- LegacyLaws.MergeOk: its success case carries the attributes as the intended move leaves them, which is where CPython may raise RuntimeError instead (see `LegacyLaws.MergeAttributes`).
- LegacyLaws.RekeyOthers: states what the attribute loop leaves once it runs to the end, which CPython may not reach (see `LegacyLaws.MergeAttributes`).
- LegacyLaws.RekeyLast: "the last one wins" is the intended result; CPython may raise RuntimeError first (see `LegacyLaws.MergeAttributes`).
- LegacyLaws.RekeyGone: states the finished loop, which CPython may not reach when an operand has an attribute (see `LegacyLaws.MergeAttributes`).
- LegacyLaws.RekeySpec: states the complete move of the attributes; CPython may raise RuntimeError or skip an entry instead (see `LegacyLaws.MergeAttributes`).
- LegacyStore.AMRGraph.RekeyAttributes: the loop runs over a snapshot of the items, so it always finishes the move; CPython iterates the live dictionary (see `LegacyLaws.MergeAttributes`).
- LegacySpec.Rekey and LegacySpec.Merge: they define the attribute move over a snapshot of the items in the same way (see `LegacyLaws.MergeAttributes`).
- The ValueError that both `pairwise_merge` functions raise for an id that is not an int, str, tuple, list or set. Every modelled id is one of those kinds.
- Rendering through `penman` in the earlier builder, with its surface alignment markers and the mapping of `penman` exceptions to None.
- `get_metadata` and its `update` timestamp, `Lexicon.to_pickle`, and every `__repr__`: clock and display only.
- The `__main__` blocks, including the error-counting loop of the earlier builder: they read corpora from disk.
- `Lexicon.from_files` in the frame lexicon and `IdiomaticVerbFrames.from_files` in the Sejong table: `glob`, XML parsing and `tqdm`. Only the table updates they call, the frame-id normalisation and the frame-name expression are modelled.
- `parse_selective_restriction` has an empty body and always returns None.
- The dictionaries inside a verb frame (`roleset`, `mappings`) and the lexicon indexes are modelled as maps without insertion order; nothing in the core reads their order.
- `\d` in the date rules is read as an ASCII digit; Python's Unicode digits are not modelled.
- Predicates.VerbFrame.AddArgrole: `^[\dA]$` accepts only an ASCII digit or `A`. Python's `\d` also matches every other Unicode decimal digit (for example `٣`), which the model rejects with AssertionError.
- `kr2num` is a parameter of the date normaliser, because it is outside the core.
- `get_patterns` is cached by `functools.cache`; the model recomputes the same list, which is the same value.
- The import at the top of `synthetics/rules/singletons.py` names a module that is not part of this model; the copy is modelled as if it read the same table.
- The periphrastic construction table itself (`PERIPHRASTIC_CONSTRUCTIONS`) is a parameter, and the construction pass receives the list `get_patterns` would return. The regular-expression search of a query is a parameter.
- `ngrams` is modelled by its result, every run of `n` consecutive items.
- The `print` calls of the sense pass.

## Findings

| source | as written | input that shows it | evidently intended | confidence | as-written member | corrected member |
|---|---|---|---|---|---|---|
| synthetics/primitives/amr/graph.py:57 | `PeriphrasticConstructions()` is called without `sort` at module level (line 11) and again in the construction pass (line 57), but `__init__` requires `sort`, so it raises TypeError | none needed: the call at line 11 runs when `synthetics.primitives.amr.graph` is imported, once the import at line 7 is repaired (it names `VerbFrameLexicon`, which `synthetics/resources/predicates.py` does not define, so the import fails first); then no sentence reaches line 57 | construct the table with a sort (for example `simple-to-complex`) and list its patterns in priority order | not executed | Periphrastic.Constructions.Call | Periphrastic.Constructions.CallCorrected |
| synthetics/rules/periphrastic_constructions.py:288 | `prioritize` calls `rule.split()` on the table's values, which are `(pattern, guides)` tuples, so it raises AttributeError | the table as shipped, e.g. its entry "~ 후" | split the pattern, the first element of the tuple | not executed | Periphrastic.TableRaises | Periphrastic.PatternsInPriority |
| synthetics/rules/date_entities.py:86-87 | the weekday search finds a weekday character anywhere, but `parse_weekday` reads the first character | "다음 주 월요일" (Monday next week): the search finds 월, `parse_weekday` reads 다 and raises ValueError | the weekday the search matched, 월요일 | not executed | DateRules.WeekdayAsWritten | DateRules.WeekdayMatched |
