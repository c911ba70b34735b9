/** The concept nodes of an AMR graph: the index-free base concept and its named-entity, generic
    name, terminology, role, e-mail, hyperlink and date variants, each turning itself into the
    triples it contributes under a node id. A concept is modelled as a value: the graph store owns
    each concept through exactly one dictionary entry, so an in-place update of a concept is a
    replacement of that entry. */
module Concepts {
  import opened PyStr
  import opened PyDict
  import opened NodeIds
  import opened Outcomes

  /** One end of a triple: a graph node id, or a text (a local sub-node id, a constant or a
      quoted string). */
  datatype Term = Node(id: NodeId) | Text(text: string)

  datatype Triple = Triple(source: Term, role: string, target: Term)

  /** The fields that each subclass adds to the base concept. */
  datatype Variant =
    | IndexFree
    | NamedEntity(nameIdx: string, nameStr: string, wiki: string)
    | GenericName(genericIdx: string, genericStr: string, wiki: string)
    | Terminology(termIdx: string, termStr: string, wiki: string)
    | HaveOrgRole(roleIdx: string, roleStr: string, wiki: string)
    | HaveRelRole(relIdx: string, relStr: string, wiki: string)
    | EmailAddress(emailIdx: string, emailStr: string, wiki: string)
    | Hyperlink(urlIdx: string, urlStr: string, wiki: string)
    | DateEntity(entityStr: string)
    | DateInterval(entityStr: string)

  /** A concept: its type, its attribute dictionary (label to value, in insertion order), the word ids
      it is aligned to, and its variant. */
  datatype Concept = Concept(conceptType: string, attributes: Dict<string, string>, mapping: set<int>, variant: Variant)

  /** The classes a concept can be constructed as. */
  datatype ConceptClass =
    | IndexFreeClass
    | NamedEntityClass
    | GenericNameClass
    | TerminologyClass
    | HaveOrgRoleClass
    | HaveRelRoleClass
    | EmailAddressClass
    | HyperlinkClass
    | DateEntityClass
    | DateIntervalClass

  /** `set(sorted(mapping)) if mapping else set()` */
  function MappingOf(mapping: Option<set<int>>): set<int> {
    if mapping.Some? then mapping.value else {}
  }

  /** `wiki if wiki and wiki != 'NA' else '-'` */
  function WikiOf(wiki: Option<string>): string {
    if wiki.Some? && wiki.value != [] && wiki.value != "NA" then wiki.value else "-"
  }

  /** A local sub-node id such as `'n' + str(id)`. */
  function LocalId(prefix: char, id: int): string {
    [prefix] + IntToString(id)
  }

  function Quote(s: string): string {
    "\"" + s + "\""
  }

  /** `AMRIndexFreeConcept(concept_type, mapping)`: no attributes yet. */
  function NewIndexFree(conceptType: string, mapping: Option<set<int>>): Concept {
    Concept(conceptType, Empty(), MappingOf(mapping), IndexFree)
  }

  /** `cls(concept_type, idx, text, wiki, mapping)` for each concept class. Every subclass
      normalises its text with `re.sub(r'\s+', ' ', text.strip())`; the date variants replace the
      concept type by the hyphen-joined words of the text and ignore `idx` and `wiki`. */
  function Construct(cls: ConceptClass, conceptType: string, id: int, text: string, wiki: Option<string>,
                     mapping: Option<set<int>>): Concept
  {
    var base := NewIndexFree(conceptType, mapping);
    var t := Normalize(text);
    match cls
    case IndexFreeClass => base
    case NamedEntityClass => base.(variant := NamedEntity(LocalId('n', id), t, WikiOf(wiki)))
    case GenericNameClass => base.(variant := GenericName(LocalId('g', id), t, WikiOf(wiki)))
    case TerminologyClass => base.(variant := Terminology(LocalId('t', id), t, WikiOf(wiki)))
    case HaveOrgRoleClass => base.(variant := HaveOrgRole(LocalId('o', id), t, WikiOf(wiki)))
    case HaveRelRoleClass => base.(variant := HaveRelRole(LocalId('r', id), t, WikiOf(wiki)))
    case EmailAddressClass => base.(variant := EmailAddress(LocalId('e', id), t, WikiOf(wiki)))
    case HyperlinkClass => base.(variant := Hyperlink(LocalId('h', id), t, WikiOf(wiki)))
    case DateEntityClass => NewIndexFree(Join(Split(t), "-"), mapping).(variant := DateEntity(t))
    case DateIntervalClass => NewIndexFree(Join(Split(t), "-"), mapping).(variant := DateInterval(t))
  }

  /** `concept.add_attribute(relation, value)`: asserts the `:` prefix, then sets the value. */
  function AddAttribute(c: Concept, relation: string, value: string): Outcome<Concept> {
    if !StartsWith(relation, ":") then Raise(AssertionError)
    else Ok(c.(attributes := Put(c.attributes, relation, value)))
  }

  /** `(idx, ':instance', concept_type)` */
  function HeadTriple(c: Concept, idx: NodeId): Triple {
    Triple(Node(idx), ":instance", Text(c.conceptType))
  }

  function AttributeTriples(idx: NodeId, labels: seq<string>, values: map<string, string>): seq<Triple>
    requires forall i :: 0 <= i < |labels| ==> labels[i] in values
  {
    if labels == [] then []
    else [Triple(Node(idx), labels[0], Text(values[labels[0]]))] + AttributeTriples(idx, labels[1..], values)
  }

  /** The base `product(idx)`: the head triple, then one triple per attribute. */
  function BaseProduct(c: Concept, idx: NodeId): seq<Triple>
    requires Valid(c.attributes)
  {
    [HeadTriple(c, idx)] + AttributeTriples(idx, c.attributes.order, c.attributes.entries)
  }

  /** `(n, ':op1', '"w1"'), ..., (n, ':opK', '"wK"')`, numbering from `from`. */
  function OpTriples(name: string, words: seq<string>, from: nat): seq<Triple> {
    if words == [] then []
    else [Triple(Text(name), ":op" + IntToString(from), Text(Quote(words[0])))] + OpTriples(name, words[1..], from + 1)
  }

  /** `(idx, ':wiki', '"' + unquote(wiki) + '"')`, or `'-'` when there is no wiki. */
  function WikiTriple(idx: NodeId, wiki: string, unquote: string -> string): Triple {
    Triple(Node(idx), ":wiki", Text(if wiki != "-" then Quote(unquote(wiki)) else "-"))
  }

  /** `concept.product(idx)` for every variant; `unquote` is `urllib.parse.unquote`. */
  function Product(c: Concept, idx: NodeId, unquote: string -> string): seq<Triple>
    requires Valid(c.attributes)
  {
    var base := BaseProduct(c, idx);
    match c.variant
    case IndexFree => base
    case NamedEntity(n, s, w) =>
      base + [Triple(Text(n), ":instance", Text("name")), Triple(Node(idx), ":name", Text(n))]
      + OpTriples(n, Split(s), 1) + [WikiTriple(idx, w, unquote)]
    case GenericName(g, s, w) =>
      base + [Triple(Text(g), ":instance", Text(Join(Split(s), "-"))), Triple(Node(idx), ":subclass-of", Text(g))]
      + [WikiTriple(idx, w, unquote)]
    case Terminology(_, s, w) =>
      [Triple(Node(idx), ":instance", Text(Join(Split(s), "-"))), WikiTriple(idx, w, unquote)]
    case HaveOrgRole(o, s, _) =>
      base + [Triple(Text(o), ":instance", Text(Join(Split(s), "-"))), Triple(Node(idx), ":ARG2", Text(o))]
    case HaveRelRole(r, s, _) =>
      base + [Triple(Text(r), ":instance", Text(Join(Split(s), "-"))), Triple(Node(idx), ":ARG2", Text(r))]
    case EmailAddress(_, s, _) =>
      base + [Triple(Node(idx), ":value", Text(Quote(s)))]
    case Hyperlink(h, s, _) =>
      base + [Triple(Text(h), ":instance", Text("url-entity")), Triple(Node(idx), ":ARG3", Text(h)),
              Triple(Text(h), ":value", Text(Quote(s)))]
    case DateEntity(_) => base
    case DateInterval(_) => base
  }

  /** `concept.alignment(idx)`: the head triple and the mapping, sorted, marked with prefix `w.`. */
  ghost function Alignment(c: Concept, idx: NodeId): (r: (Triple, string, seq<int>)) {
    (HeadTriple(c, idx), "w.", SortedElements(c.mapping))
  }

  // ---------------------------------------------------------------------------------------------
  // Properties

  /** A mapping of None or of the empty set gives the empty set; any other is kept. */
  lemma MappingOfSpec(mapping: Option<set<int>>)
    ensures MappingOf(mapping) == {} <==> mapping == None || mapping == Some({})
    ensures mapping.Some? ==> MappingOf(mapping) == mapping.value
  {
  }

  /** The alignment pairs the head triple with every mapped word id exactly once, ascending. */
  lemma AlignmentSpec(c: Concept, idx: NodeId)
    ensures Alignment(c, idx).0 == HeadTriple(c, idx) && Alignment(c, idx).1 == "w."
    ensures forall i, j :: 0 <= i < j < |Alignment(c, idx).2| ==> Alignment(c, idx).2[i] < Alignment(c, idx).2[j]
    ensures forall w :: w in Alignment(c, idx).2 <==> w in c.mapping
  {
  }

  /** The wiki becomes `-` exactly when it is missing, empty, `NA` or already `-`. */
  lemma WikiOfSpec(wiki: Option<string>)
    ensures WikiOf(wiki) == "-" <==> wiki == None || wiki == Some("") || wiki == Some("NA") || wiki == Some("-")
    ensures WikiOf(wiki) != "-" ==> wiki == Some(WikiOf(wiki))
  {
  }

  /** `add_attribute` fails exactly on a label without the `:` prefix; otherwise it overwrites that
      label's value and changes nothing else. */
  lemma AddAttributeSpec(c: Concept, relation: string, value: string)
    requires Valid(c.attributes)
    ensures AddAttribute(c, relation, value).Raise? <==> !StartsWith(relation, ":")
    ensures AddAttribute(c, relation, value).Ok? ==>
      var d := AddAttribute(c, relation, value).value;
      Valid(d.attributes) && d.attributes.entries == c.attributes.entries[relation := value]
      && d.conceptType == c.conceptType && d.mapping == c.mapping && d.variant == c.variant
      && (relation in c.attributes.entries ==> d.attributes.order == c.attributes.order)
      && (relation !in c.attributes.entries ==> d.attributes.order == c.attributes.order + [relation])
  {
    PutSpec(c.attributes, relation, value);
  }

  lemma {:induction false} AttributeTriplesSpec(idx: NodeId, labels: seq<string>, values: map<string, string>)
    requires forall i :: 0 <= i < |labels| ==> labels[i] in values
    ensures |AttributeTriples(idx, labels, values)| == |labels|
    ensures forall i :: 0 <= i < |labels| ==>
      AttributeTriples(idx, labels, values)[i] == Triple(Node(idx), labels[i], Text(values[labels[i]]))
  {
    if labels != [] {
      AttributeTriplesSpec(idx, labels[1..], values);
    }
  }

  /** The base product is the head triple followed by one triple per attribute in insertion order. */
  lemma {:induction false} BaseProductSpec(c: Concept, idx: NodeId)
    requires Valid(c.attributes)
    ensures |BaseProduct(c, idx)| == 1 + |c.attributes.order|
    ensures BaseProduct(c, idx)[0] == Triple(Node(idx), ":instance", Text(c.conceptType))
    ensures forall i :: 0 <= i < |c.attributes.order| ==>
      BaseProduct(c, idx)[i + 1] == Triple(Node(idx), c.attributes.order[i], Text(c.attributes.entries[c.attributes.order[i]]))
  {
    var tail := AttributeTriples(idx, c.attributes.order, c.attributes.entries);
    AttributeTriplesSpec(idx, c.attributes.order, c.attributes.entries);
    assert BaseProduct(c, idx) == [HeadTriple(c, idx)] + tail;
  }

  lemma {:induction false} OpTriplesSpec(name: string, words: seq<string>, from: nat)
    ensures |OpTriples(name, words, from)| == |words|
    ensures forall i :: 0 <= i < |words| ==>
      OpTriples(name, words, from)[i] == Triple(Text(name), ":op" + IntToString(from + i), Text(Quote(words[i])))
  {
    if words != [] {
      var rest := OpTriples(name, words[1..], from + 1);
      OpTriplesSpec(name, words[1..], from + 1);
      var head := Triple(Text(name), ":op" + IntToString(from), Text(Quote(words[0])));
      assert OpTriples(name, words, from) == [head] + rest;
      forall i | 1 <= i < |words|
        ensures rest[i - 1] == Triple(Text(name), ":op" + IntToString(from + i), Text(Quote(words[i])))
      {
        assert words[1..][i - 1] == words[i];
      }
    }
  }

  /** Every variant but terminology begins with the base product. */
  lemma ProductExtendsBase(c: Concept, idx: NodeId, unquote: string -> string)
    requires Valid(c.attributes) && !c.variant.Terminology?
    ensures |BaseProduct(c, idx)| <= |Product(c, idx, unquote)|
    ensures Product(c, idx, unquote)[..|BaseProduct(c, idx)|] == BaseProduct(c, idx)
  {
  }

  /** A named entity adds, after the base product, the `name` sub-node, the `:name` edge, one quoted
      `:opK` per whitespace word of its name, and always a `:wiki` triple. */
  lemma NamedEntityProduct(c: Concept, idx: NodeId, unquote: string -> string)
    requires Valid(c.attributes) && c.variant.NamedEntity?
    ensures var p := Product(c, idx, unquote);
      var b := |BaseProduct(c, idx)|;
      var words := Split(c.variant.nameStr);
      var n := c.variant.nameIdx;
      |p| == b + 3 + |words|
      && p[b] == Triple(Text(n), ":instance", Text("name"))
      && p[b + 1] == Triple(Node(idx), ":name", Text(n))
      && (forall k :: 0 <= k < |words| ==>
            p[b + 2 + k] == Triple(Text(n), ":op" + IntToString(k + 1), Text(Quote(words[k]))))
      && p[|p| - 1] == WikiTriple(idx, c.variant.wiki, unquote)
  {
    OpTriplesSpec(c.variant.nameIdx, Split(c.variant.nameStr), 1);
  }

  /** The `:wiki` triple is `-` exactly when the wiki was normalised to `-`, and otherwise the quoted
      decoded wiki. */
  lemma WikiTripleSpec(idx: NodeId, wiki: Option<string>, unquote: string -> string)
    ensures WikiTriple(idx, WikiOf(wiki), unquote).source == Node(idx)
    ensures WikiTriple(idx, WikiOf(wiki), unquote).role == ":wiki"
    ensures WikiTriple(idx, WikiOf(wiki), unquote).target == Text("-") <==>
      wiki == None || wiki == Some("") || wiki == Some("NA") || wiki == Some("-")
  {
    WikiOfSpec(wiki);
    var t := WikiTriple(idx, WikiOf(wiki), unquote);
    if WikiOf(wiki) != "-" {
      assert t.target.text[0] == '"';
    }
  }

  /** The `:opK` words of a constructed named entity are the whitespace words of the raw name, in
      order, however it was spaced. */
  lemma NamedEntityWords(conceptType: string, id: int, raw: string, wiki: Option<string>, mapping: Option<set<int>>)
    ensures var c := Construct(NamedEntityClass, conceptType, id, raw, wiki, mapping);
      c.variant.NamedEntity? && Split(c.variant.nameStr) == Split(raw)
      && c.variant.nameIdx == LocalId('n', id) && c.variant.wiki == WikiOf(wiki)
      && c.conceptType == conceptType && c.mapping == MappingOf(mapping) && c.attributes == Empty()
  {
    SplitNormalize(raw);
  }

  // ---------------------------------------------------------------------------------------------
  // The subclasses, seen from their raw constructor arguments

  /** The class a concept of this variant was constructed as. */
  function ClassOf(v: Variant): ConceptClass {
    match v
    case IndexFree => IndexFreeClass
    case NamedEntity(_, _, _) => NamedEntityClass
    case GenericName(_, _, _) => GenericNameClass
    case Terminology(_, _, _) => TerminologyClass
    case HaveOrgRole(_, _, _) => HaveOrgRoleClass
    case HaveRelRole(_, _, _) => HaveRelRoleClass
    case EmailAddress(_, _, _) => EmailAddressClass
    case Hyperlink(_, _, _) => HyperlinkClass
    case DateEntity(_) => DateEntityClass
    case DateInterval(_) => DateIntervalClass
  }

  /** The subclasses that take a local index (all but the index-free and the date classes). */
  predicate HasLocalId(cls: ConceptClass) {
    !(cls.IndexFreeClass? || cls.DateEntityClass? || cls.DateIntervalClass?)
  }

  /** The letter each subclass's `__init__` puts before its local index. */
  function ClassLetter(cls: ConceptClass): char {
    match cls
    case NamedEntityClass => 'n'
    case GenericNameClass => 'g'
    case TerminologyClass => 't'
    case HaveOrgRoleClass => 'o'
    case HaveRelRoleClass => 'r'
    case EmailAddressClass => 'e'
    case HyperlinkClass => 'h'
    case _ => '-'
  }

  /** A variant's local sub-node id; empty for the variants without one. */
  function LocalIdOf(v: Variant): string {
    match v
    case NamedEntity(n, _, _) => n
    case GenericName(g, _, _) => g
    case Terminology(t, _, _) => t
    case HaveOrgRole(o, _, _) => o
    case HaveRelRole(r, _, _) => r
    case EmailAddress(e, _, _) => e
    case Hyperlink(h, _, _) => h
    case _ => ""
  }

  /** A variant's text (name, term, role, address, url or date expression); empty for the
      index-free variant. */
  function TextOf(v: Variant): string {
    match v
    case IndexFree => ""
    case DateEntity(s) => s
    case DateInterval(s) => s
    case NamedEntity(_, s, _) => s
    case GenericName(_, s, _) => s
    case Terminology(_, s, _) => s
    case HaveOrgRole(_, s, _) => s
    case HaveRelRole(_, s, _) => s
    case EmailAddress(_, s, _) => s
    case Hyperlink(_, s, _) => s
  }

  /** The number of triples of `p` that carry `role`. */
  function RoleCount(p: seq<Triple>, role: string): nat {
    if p == [] then 0 else (if p[0].role == role then 1 else 0) + RoleCount(p[1..], role)
  }

  lemma {:induction false} RoleCountAppend(p: seq<Triple>, q: seq<Triple>, role: string)
    ensures RoleCount(p + q, role) == RoleCount(p, role) + RoleCount(q, role)
    decreases |p|
  {
    if p == [] {
      assert p + q == q;
    } else {
      assert (p + q)[1..] == p[1..] + q;
      RoleCountAppend(p[1..], q, role);
    }
  }

  /** One for a triple that carries `role`, zero otherwise. */
  function Hit(t: Triple, role: string): nat {
    if t.role == role then 1 else 0
  }

  lemma RoleCountOne(t: Triple, role: string)
    ensures RoleCount([t], role) == Hit(t, role)
  {
    assert [t][1..] == [];
  }

  lemma RoleCount2(a: Triple, b: Triple, role: string)
    ensures RoleCount([a, b], role) == Hit(a, role) + Hit(b, role)
  {
    assert [a, b][1..] == [b];
    RoleCountOne(b, role);
  }

  lemma RoleCount3(a: Triple, b: Triple, c: Triple, role: string)
    ensures RoleCount([a, b, c], role) == Hit(a, role) + Hit(b, role) + Hit(c, role)
  {
    assert [a, b, c][1..] == [b, c];
    RoleCount2(b, c, role);
  }

  lemma RoleCount4(a: Triple, b: Triple, c: Triple, d: Triple, role: string)
    ensures RoleCount([a, b, c, d], role) == Hit(a, role) + Hit(b, role) + Hit(c, role) + Hit(d, role)
  {
    assert [a, b, c, d][1..] == [b, c, d];
    RoleCount3(b, c, d, role);
  }

  /** No `:opK` triple carries a role that does not begin with `:op`. */
  lemma {:induction false} OpTriplesRoles(name: string, words: seq<string>, from: nat, role: string)
    requires |role| < 3 || role[..3] != ":op"
    ensures RoleCount(OpTriples(name, words, from), role) == 0
    decreases |words|
  {
    if words != [] {
      var head := Triple(Text(name), ":op" + IntToString(from), Text(Quote(words[0])));
      assert (":op" + IntToString(from))[..3] == ":op";
      assert OpTriples(name, words, from) == [head] + OpTriples(name, words[1..], from + 1);
      RoleCountAppend([head], OpTriples(name, words[1..], from + 1), role);
      RoleCountOne(head, role);
      OpTriplesRoles(name, words[1..], from + 1, role);
    }
  }

  /** Each constructor builds a concept of its own class. The subclasses that take an index keep
      the concept type and the mapping, start without attributes, name their sub-node by their
      letter and the index, keep the single-spaced words of the raw text and normalise the wiki. */
  lemma ConstructSubclass(cls: ConceptClass, conceptType: string, id: int, raw: string, wiki: Option<string>,
                          mapping: Option<set<int>>)
    ensures ClassOf(Construct(cls, conceptType, id, raw, wiki, mapping).variant) == cls
    ensures HasLocalId(cls) ==>
      var c := Construct(cls, conceptType, id, raw, wiki, mapping);
      c.conceptType == conceptType && c.mapping == MappingOf(mapping) && c.attributes == Empty()
      && LocalIdOf(c.variant) == [ClassLetter(cls)] + IntToString(id)
      && Split(TextOf(c.variant)) == Split(raw) && TextOf(c.variant) == Join(Split(raw), " ")
      && c.variant.wiki == WikiOf(wiki)
  {
    SplitNormalize(raw);
    NormalizeIsJoin(raw);
    ConstructFields(cls, conceptType, id, raw, wiki, mapping);
  }

  /** The fields `Construct` fills in, class by class. */
  lemma ConstructFields(cls: ConceptClass, conceptType: string, id: int, raw: string, wiki: Option<string>,
                        mapping: Option<set<int>>)
    ensures var c := Construct(cls, conceptType, id, raw, wiki, mapping);
      ClassOf(c.variant) == cls
      && (HasLocalId(cls) ==>
            c.conceptType == conceptType && c.mapping == MappingOf(mapping) && c.attributes == Empty()
            && LocalIdOf(c.variant) == LocalId(ClassLetter(cls), id) && TextOf(c.variant) == Normalize(raw)
            && c.variant.wiki == WikiOf(wiki))
  {
    ConstructClass(cls, conceptType, id, raw, wiki, mapping);
    if HasLocalId(cls) {
      LocalFields(cls, conceptType, id, raw, wiki, mapping);
    }
  }

  lemma ConstructClass(cls: ConceptClass, conceptType: string, id: int, raw: string, wiki: Option<string>,
                       mapping: Option<set<int>>)
    ensures ClassOf(Construct(cls, conceptType, id, raw, wiki, mapping).variant) == cls
  {
    var c := Construct(cls, conceptType, id, raw, wiki, mapping);
    var base := NewIndexFree(conceptType, mapping);
    var dated := NewIndexFree(Join(Split(Normalize(raw)), "-"), mapping);
    match cls
    case IndexFreeClass =>
      assert c == base;
    case NamedEntityClass =>
      assert c == base.(variant := NamedEntity(LocalId('n', id), Normalize(raw), WikiOf(wiki)));
    case GenericNameClass =>
      assert c == base.(variant := GenericName(LocalId('g', id), Normalize(raw), WikiOf(wiki)));
    case TerminologyClass =>
      assert c == base.(variant := Terminology(LocalId('t', id), Normalize(raw), WikiOf(wiki)));
    case HaveOrgRoleClass =>
      assert c == base.(variant := HaveOrgRole(LocalId('o', id), Normalize(raw), WikiOf(wiki)));
    case HaveRelRoleClass =>
      assert c == base.(variant := HaveRelRole(LocalId('r', id), Normalize(raw), WikiOf(wiki)));
    case EmailAddressClass =>
      assert c == base.(variant := EmailAddress(LocalId('e', id), Normalize(raw), WikiOf(wiki)));
    case HyperlinkClass =>
      assert c == base.(variant := Hyperlink(LocalId('h', id), Normalize(raw), WikiOf(wiki)));
    case DateEntityClass =>
      assert c == dated.(variant := DateEntity(Normalize(raw)));
    case DateIntervalClass =>
      assert c == dated.(variant := DateInterval(Normalize(raw)));
  }

  lemma LocalFields(cls: ConceptClass, conceptType: string, id: int, raw: string, wiki: Option<string>,
                    mapping: Option<set<int>>)
    requires HasLocalId(cls)
    ensures var c := Construct(cls, conceptType, id, raw, wiki, mapping);
      c.conceptType == conceptType && c.mapping == MappingOf(mapping) && c.attributes == Empty()
      && LocalIdOf(c.variant) == LocalId(ClassLetter(cls), id) && TextOf(c.variant) == Normalize(raw)
      && c.variant.wiki == WikiOf(wiki)
  {
    var c := Construct(cls, conceptType, id, raw, wiki, mapping);
    var base := NewIndexFree(conceptType, mapping);
    match cls
    case NamedEntityClass =>
      assert c == base.(variant := NamedEntity(LocalId('n', id), Normalize(raw), WikiOf(wiki)));
    case GenericNameClass =>
      assert c == base.(variant := GenericName(LocalId('g', id), Normalize(raw), WikiOf(wiki)));
    case TerminologyClass =>
      assert c == base.(variant := Terminology(LocalId('t', id), Normalize(raw), WikiOf(wiki)));
    case HaveOrgRoleClass =>
      assert c == base.(variant := HaveOrgRole(LocalId('o', id), Normalize(raw), WikiOf(wiki)));
    case HaveRelRoleClass =>
      assert c == base.(variant := HaveRelRole(LocalId('r', id), Normalize(raw), WikiOf(wiki)));
    case EmailAddressClass =>
      assert c == base.(variant := EmailAddress(LocalId('e', id), Normalize(raw), WikiOf(wiki)));
    case HyperlinkClass =>
      assert c == base.(variant := Hyperlink(LocalId('h', id), Normalize(raw), WikiOf(wiki)));
  }

  /** Two different subclasses never name their sub-nodes alike, whatever their indices. */
  lemma LocalIdsDistinct(cls1: ConceptClass, cls2: ConceptClass, t1: string, t2: string, id1: int, id2: int,
                         raw1: string, raw2: string, w1: Option<string>, w2: Option<string>,
                         m1: Option<set<int>>, m2: Option<set<int>>)
    requires HasLocalId(cls1) && HasLocalId(cls2) && cls1 != cls2
    ensures LocalIdOf(Construct(cls1, t1, id1, raw1, w1, m1).variant) != LocalIdOf(Construct(cls2, t2, id2, raw2, w2, m2).variant)
  {
    ConstructSubclass(cls1, t1, id1, raw1, w1, m1);
    ConstructSubclass(cls2, t2, id2, raw2, w2, m2);
    var l1 := LocalIdOf(Construct(cls1, t1, id1, raw1, w1, m1).variant);
    var l2 := LocalIdOf(Construct(cls2, t2, id2, raw2, w2, m2).variant);
    assert l1[0] == ClassLetter(cls1) && l2[0] == ClassLetter(cls2);
  }

  /** The subclasses whose product declares a local sub-node, and the edge that links it. */
  predicate HasSubNode(cls: ConceptClass) {
    cls.NamedEntityClass? || cls.GenericNameClass? || cls.HaveOrgRoleClass? || cls.HaveRelRoleClass?
    || cls.HyperlinkClass?
  }

  function LinkRole(cls: ConceptClass): string {
    match cls
    case NamedEntityClass => ":name"
    case GenericNameClass => ":subclass-of"
    case HyperlinkClass => ":ARG3"
    case _ => ":ARG2"
  }

  /** A freshly built concept has no attributes, so its base product is its head triple alone. */
  lemma FreshBase(c: Concept, idx: NodeId)
    requires c.attributes == Empty()
    ensures BaseProduct(c, idx) == [HeadTriple(c, idx)]
  {
  }

  /** How many `:wiki`, `:instance` and `:value` triples a freshly constructed concept emits:
      a `:wiki` triple exactly for named entities, generic names and terms (the role, e-mail and
      hyperlink classes never emit one), a second `:instance` for each declared sub-node, and a
      `:value` exactly for e-mail addresses and hyperlinks. */
  lemma ConstructedRoleCounts(cls: ConceptClass, conceptType: string, id: int, raw: string, wiki: Option<string>,
                              mapping: Option<set<int>>, idx: NodeId, unquote: string -> string)
    ensures var p := Product(Construct(cls, conceptType, id, raw, wiki, mapping), idx, unquote);
      RoleCount(p, ":wiki") == (if cls.NamedEntityClass? || cls.GenericNameClass? || cls.TerminologyClass? then 1 else 0)
      && RoleCount(p, ":instance") == (if HasSubNode(cls) then 2 else 1)
      && RoleCount(p, ":value") == (if cls.EmailAddressClass? || cls.HyperlinkClass? then 1 else 0)
  {
    var c := Construct(cls, conceptType, id, raw, wiki, mapping);
    var p := Product(c, idx, unquote);
    var head := [HeadTriple(c, idx)];
    ConstructClass(cls, conceptType, id, raw, wiki, mapping);
    assert c.attributes == Empty();
    FreshBase(c, idx);
    RoleCountsOf(p, head, cls, c, idx, unquote);
  }

  /** The role counts of one freshly built product, variant by variant. */
  lemma RoleCountsOf(p: seq<Triple>, head: seq<Triple>, cls: ConceptClass, c: Concept, idx: NodeId, unquote: string -> string)
    requires c.attributes == Empty() && ClassOf(c.variant) == cls
    requires head == [HeadTriple(c, idx)] && p == Product(c, idx, unquote)
    ensures RoleCount(p, ":wiki") == (if cls.NamedEntityClass? || cls.GenericNameClass? || cls.TerminologyClass? then 1 else 0)
    ensures RoleCount(p, ":instance") == (if HasSubNode(cls) then 2 else 1)
    ensures RoleCount(p, ":value") == (if cls.EmailAddressClass? || cls.HyperlinkClass? then 1 else 0)
  {
    FreshBase(c, idx);
    match c.variant
    case NamedEntity(_, _, _) => NamedEntityShape(c, idx, unquote);
    case GenericName(_, _, _) => GenericNameShape(c, idx, unquote);
    case Terminology(_, _, _) => TerminologyShape(c, idx, unquote);
    case HaveOrgRole(_, _, _) => RoleShape(c, idx, unquote);
    case HaveRelRole(_, _, _) => RoleShape(c, idx, unquote);
    case EmailAddress(_, _, _) => EmailShape(c, idx, unquote);
    case Hyperlink(_, _, _) => HyperlinkShape(c, idx, unquote);
    case IndexFree => RoleCountOne(HeadTriple(c, idx), ":wiki"); RoleCountOne(HeadTriple(c, idx), ":instance"); RoleCountOne(HeadTriple(c, idx), ":value");
    case DateEntity(_) => RoleCountOne(HeadTriple(c, idx), ":wiki"); RoleCountOne(HeadTriple(c, idx), ":instance"); RoleCountOne(HeadTriple(c, idx), ":value");
    case DateInterval(_) => RoleCountOne(HeadTriple(c, idx), ":wiki"); RoleCountOne(HeadTriple(c, idx), ":instance"); RoleCountOne(HeadTriple(c, idx), ":value");
  }

  lemma NamedEntityShape(c: Concept, idx: NodeId, unquote: string -> string)
    requires c.attributes == Empty() && c.variant.NamedEntity?
    ensures var p := Product(c, idx, unquote);
      var sub := Text(LocalIdOf(c.variant));
      RoleCount(p, ":wiki") == 1 && RoleCount(p, ":instance") == 2 && RoleCount(p, ":value") == 0
      && RoleCount(p, ":name") == 1 && p[2] == Triple(Node(idx), ":name", sub)
      && p[1].source == sub && p[1].role == ":instance"
  {
    FreshBase(c, idx);
    var n := c.variant.nameIdx;
    var h := HeadTriple(c, idx);
    var a := Triple(Text(n), ":instance", Text("name"));
    var b := Triple(Node(idx), ":name", Text(n));
    var ops := OpTriples(n, Split(c.variant.nameStr), 1);
    var w := WikiTriple(idx, c.variant.wiki, unquote);
    var p := Product(c, idx, unquote);
    assert p == [h, a, b] + ops + [w];
    forall role | role == ":wiki" || role == ":instance" || role == ":value" || role == ":name"
      ensures RoleCount(p, role) == Hit(h, role) + Hit(a, role) + Hit(b, role) + Hit(w, role)
    {
      RoleCountAppend([h, a, b] + ops, [w], role);
      RoleCountAppend([h, a, b], ops, role);
      RoleCount3(h, a, b, role);
      RoleCountOne(w, role);
      if role == ":wiki" {
        assert role[..3] == ":wi";
      } else if role == ":instance" {
        assert role[..3] == ":in";
      } else if role == ":value" {
        assert role[..3] == ":va";
      } else {
        assert role[..3] == ":na";
      }
      OpTriplesRoles(n, Split(c.variant.nameStr), 1, role);
    }
  }

  lemma GenericNameShape(c: Concept, idx: NodeId, unquote: string -> string)
    requires c.attributes == Empty() && c.variant.GenericName?
    ensures var p := Product(c, idx, unquote);
      var sub := Text(LocalIdOf(c.variant));
      RoleCount(p, ":wiki") == 1 && RoleCount(p, ":instance") == 2 && RoleCount(p, ":value") == 0
      && RoleCount(p, ":subclass-of") == 1 && p[2] == Triple(Node(idx), ":subclass-of", sub)
      && p[1].source == sub && p[1].role == ":instance"
  {
    FreshBase(c, idx);
    var p := Product(c, idx, unquote);
    assert p == [p[0], p[1], p[2], p[3]];
    RoleCount4(p[0], p[1], p[2], p[3], ":wiki");
    RoleCount4(p[0], p[1], p[2], p[3], ":instance");
    RoleCount4(p[0], p[1], p[2], p[3], ":value");
    RoleCount4(p[0], p[1], p[2], p[3], ":subclass-of");
  }

  lemma TerminologyShape(c: Concept, idx: NodeId, unquote: string -> string)
    requires Valid(c.attributes) && c.variant.Terminology?
    ensures var p := Product(c, idx, unquote);
      |p| == 2 && p[1].role == ":wiki"
      && RoleCount(p, ":wiki") == 1 && RoleCount(p, ":instance") == 1 && RoleCount(p, ":value") == 0
  {
    var p := Product(c, idx, unquote);
    assert p == [p[0], p[1]];
    RoleCount2(p[0], p[1], ":wiki");
    RoleCount2(p[0], p[1], ":instance");
    RoleCount2(p[0], p[1], ":value");
  }

  lemma RoleShape(c: Concept, idx: NodeId, unquote: string -> string)
    requires c.attributes == Empty() && (c.variant.HaveOrgRole? || c.variant.HaveRelRole?)
    ensures var p := Product(c, idx, unquote);
      var sub := Text(LocalIdOf(c.variant));
      RoleCount(p, ":wiki") == 0 && RoleCount(p, ":instance") == 2 && RoleCount(p, ":value") == 0
      && RoleCount(p, ":ARG2") == 1 && p[2] == Triple(Node(idx), ":ARG2", sub)
      && p[1].source == sub && p[1].role == ":instance"
  {
    FreshBase(c, idx);
    var p := Product(c, idx, unquote);
    assert p == [p[0], p[1], p[2]];
    RoleCount3(p[0], p[1], p[2], ":wiki");
    RoleCount3(p[0], p[1], p[2], ":instance");
    RoleCount3(p[0], p[1], p[2], ":value");
    RoleCount3(p[0], p[1], p[2], ":ARG2");
  }

  lemma EmailShape(c: Concept, idx: NodeId, unquote: string -> string)
    requires c.attributes == Empty() && c.variant.EmailAddress?
    ensures var p := Product(c, idx, unquote);
      RoleCount(p, ":wiki") == 0 && RoleCount(p, ":instance") == 1 && RoleCount(p, ":value") == 1
  {
    FreshBase(c, idx);
    var p := Product(c, idx, unquote);
    assert p == [p[0], p[1]];
    RoleCount2(p[0], p[1], ":wiki");
    RoleCount2(p[0], p[1], ":instance");
    RoleCount2(p[0], p[1], ":value");
  }

  lemma HyperlinkShape(c: Concept, idx: NodeId, unquote: string -> string)
    requires c.attributes == Empty() && c.variant.Hyperlink?
    ensures var p := Product(c, idx, unquote);
      var sub := Text(LocalIdOf(c.variant));
      RoleCount(p, ":wiki") == 0 && RoleCount(p, ":instance") == 2 && RoleCount(p, ":value") == 1
      && RoleCount(p, ":ARG3") == 1 && p[2] == Triple(Node(idx), ":ARG3", sub)
      && p[1].source == sub && p[1].role == ":instance"
  {
    FreshBase(c, idx);
    var p := Product(c, idx, unquote);
    assert p == [p[0], p[1], p[2], p[3]];
    RoleCount4(p[0], p[1], p[2], p[3], ":wiki");
    RoleCount4(p[0], p[1], p[2], p[3], ":instance");
    RoleCount4(p[0], p[1], p[2], p[3], ":value");
    RoleCount4(p[0], p[1], p[2], p[3], ":ARG3");
  }

  /** Every declared sub-node hangs off the node by exactly one edge of its class's role and is
      itself declared by an `:instance` triple. */
  lemma SubNodeLinked(cls: ConceptClass, conceptType: string, id: int, raw: string, wiki: Option<string>,
                      mapping: Option<set<int>>, idx: NodeId, unquote: string -> string)
    requires HasSubNode(cls)
    ensures var c := Construct(cls, conceptType, id, raw, wiki, mapping);
      var p := Product(c, idx, unquote);
      var sub := Text([ClassLetter(cls)] + IntToString(id));
      RoleCount(p, LinkRole(cls)) == 1
      && Triple(Node(idx), LinkRole(cls), sub) in p
      && exists i :: 0 <= i < |p| && p[i].source == sub && p[i].role == ":instance"
  {
    var c := Construct(cls, conceptType, id, raw, wiki, mapping);
    ConstructFields(cls, conceptType, id, raw, wiki, mapping);
    SubNodeLinkedOf(c, cls, idx, unquote);
  }

  lemma SubNodeLinkedOf(c: Concept, cls: ConceptClass, idx: NodeId, unquote: string -> string)
    requires c.attributes == Empty() && ClassOf(c.variant) == cls && HasSubNode(cls)
    ensures var p := Product(c, idx, unquote);
      var sub := Text(LocalIdOf(c.variant));
      RoleCount(p, LinkRole(cls)) == 1
      && Triple(Node(idx), LinkRole(cls), sub) in p
      && exists i :: 0 <= i < |p| && p[i].source == sub && p[i].role == ":instance"
  {
    var p := Product(c, idx, unquote);
    match c.variant
    case NamedEntity(_, _, _) => NamedEntityShape(c, idx, unquote); assert p[1].source == Text(LocalIdOf(c.variant));
    case GenericName(_, _, _) => GenericNameShape(c, idx, unquote); assert p[1].source == Text(LocalIdOf(c.variant));
    case HaveOrgRole(_, _, _) => RoleShape(c, idx, unquote); assert p[1].source == Text(LocalIdOf(c.variant));
    case HaveRelRole(_, _, _) => RoleShape(c, idx, unquote); assert p[1].source == Text(LocalIdOf(c.variant));
    case Hyperlink(_, _, _) => HyperlinkShape(c, idx, unquote); assert p[1].source == Text(LocalIdOf(c.variant));
  }

  /** The `:instance` label a generic name, a term or a role puts on its sub-node (on the node
      itself for a term) is the hyphen-joined words of the raw text, and it holds no whitespace. */
  lemma HyphenatedLabels(cls: ConceptClass, conceptType: string, id: int, raw: string, wiki: Option<string>,
                         mapping: Option<set<int>>, idx: NodeId, unquote: string -> string)
    requires cls.GenericNameClass? || cls.TerminologyClass? || cls.HaveOrgRoleClass? || cls.HaveRelRoleClass?
    ensures var p := Product(Construct(cls, conceptType, id, raw, wiki, mapping), idx, unquote);
      var labelled := if cls.TerminologyClass? then Node(idx) else Text([ClassLetter(cls)] + IntToString(id));
      Triple(labelled, ":instance", Text(Join(Split(raw), "-"))) in p
    ensures NoSpace(Join(Split(raw), "-"))
  {
    var c := Construct(cls, conceptType, id, raw, wiki, mapping);
    ConstructFields(cls, conceptType, id, raw, wiki, mapping);
    SplitNormalize(raw);
    LabelOf(c, cls, idx, unquote);
    HyphenatedNoSpace(raw, "-");
  }

  lemma LabelOf(c: Concept, cls: ConceptClass, idx: NodeId, unquote: string -> string)
    requires c.attributes == Empty() && ClassOf(c.variant) == cls
    requires cls.GenericNameClass? || cls.TerminologyClass? || cls.HaveOrgRoleClass? || cls.HaveRelRoleClass?
    ensures var labelled := if cls.TerminologyClass? then Node(idx) else Text(LocalIdOf(c.variant));
      Triple(labelled, ":instance", Text(Join(Split(TextOf(c.variant)), "-"))) in Product(c, idx, unquote)
  {
    FreshBase(c, idx);
    var p := Product(c, idx, unquote);
    var joined := Text(Join(Split(TextOf(c.variant)), "-"));
    if cls.TerminologyClass? {
      assert p[0] == Triple(Node(idx), ":instance", joined);
    } else {
      assert p[1] == Triple(Text(LocalIdOf(c.variant)), ":instance", joined);
    }
  }

  /** E-mail addresses and hyperlinks emit their single-spaced text, quoted, as the one `:value`
      triple: on the node for an address, on the `url-entity` sub-node for a hyperlink. */
  lemma ValueTriple(cls: ConceptClass, conceptType: string, id: int, raw: string, wiki: Option<string>,
                    mapping: Option<set<int>>, idx: NodeId, unquote: string -> string)
    requires cls.EmailAddressClass? || cls.HyperlinkClass?
    ensures var p := Product(Construct(cls, conceptType, id, raw, wiki, mapping), idx, unquote);
      var holder := if cls.EmailAddressClass? then Node(idx) else Text([ClassLetter(cls)] + IntToString(id));
      RoleCount(p, ":value") == 1
      && Triple(holder, ":value", Text("\"" + Join(Split(raw), " ") + "\"")) in p
  {
    var c := Construct(cls, conceptType, id, raw, wiki, mapping);
    ConstructFields(cls, conceptType, id, raw, wiki, mapping);
    NormalizeIsJoin(raw);
    ConstructedRoleCounts(cls, conceptType, id, raw, wiki, mapping, idx, unquote);
    ValueTripleOf(c, cls, idx, unquote);
  }

  lemma ValueTripleOf(c: Concept, cls: ConceptClass, idx: NodeId, unquote: string -> string)
    requires c.attributes == Empty() && ClassOf(c.variant) == cls
    requires cls.EmailAddressClass? || cls.HyperlinkClass?
    ensures var holder := if cls.EmailAddressClass? then Node(idx) else Text(LocalIdOf(c.variant));
      Triple(holder, ":value", Text(Quote(TextOf(c.variant)))) in Product(c, idx, unquote)
  {
    FreshBase(c, idx);
    var p := Product(c, idx, unquote);
    if cls.EmailAddressClass? {
      assert p[1] == Triple(Node(idx), ":value", Text(Quote(TextOf(c.variant))));
    } else {
      assert p[3] == Triple(Text(LocalIdOf(c.variant)), ":value", Text(Quote(TextOf(c.variant))));
    }
  }

  /** A terminology node emits its hyphen-joined term as its only `:instance` and then exactly
      one `:wiki` triple: neither its concept type nor any attribute it holds reaches the product. */
  lemma TerminologyProduct(c: Concept, a: Dict<string, string>, conceptType: string, idx: NodeId, unquote: string -> string)
    requires Valid(c.attributes) && Valid(a) && c.variant.Terminology?
    ensures Product(c.(attributes := a, conceptType := conceptType), idx, unquote) == Product(c, idx, unquote)
    ensures var p := Product(c, idx, unquote);
      |p| == 2 && RoleCount(p, ":instance") == 1 && RoleCount(p, ":wiki") == 1 && p[1].role == ":wiki"
      && p[0].source == Node(idx) && p[0].target.Text? && NoSpace(p[0].target.text)
  {
    TerminologyShape(c, idx, unquote);
    HyphenatedNoSpace(c.variant.termStr, "-");
  }

  /** A date concept's type is the hyphen-joined words of its text whatever type was passed, and
      neither the index nor the wiki argument has any effect. */
  lemma DateConceptArguments(cls: ConceptClass, t1: string, id1: int, w1: Option<string>,
                             t2: string, id2: int, w2: Option<string>, raw: string, mapping: Option<set<int>>)
    requires cls == DateEntityClass || cls == DateIntervalClass
    ensures Construct(cls, t1, id1, raw, w1, mapping) == Construct(cls, t2, id2, raw, w2, mapping)
    ensures Construct(cls, t1, id1, raw, w1, mapping).conceptType == Join(Split(raw), "-")
    ensures Construct(cls, t1, id1, raw, w1, mapping).variant.entityStr == Normalize(raw)
  {
    SplitNormalize(raw);
  }

  /** A constructed date concept emits a single triple: its node, `:instance`, and the hyphen-joined
      words of the raw date expression, whatever type, index and wiki were passed. */
  lemma DateConceptProduct(cls: ConceptClass, conceptType: string, id: int, raw: string, wiki: Option<string>,
                           mapping: Option<set<int>>, idx: NodeId, unquote: string -> string)
    requires cls == DateEntityClass || cls == DateIntervalClass
    ensures Product(Construct(cls, conceptType, id, raw, wiki, mapping), idx, unquote)
      == [Triple(Node(idx), ":instance", Text(Join(Split(raw), "-")))]
  {
    var c := Construct(cls, conceptType, id, raw, wiki, mapping);
    DateConceptArguments(cls, conceptType, id, wiki, conceptType, id, wiki, raw, mapping);
    DateShape(c, idx, unquote);
  }

  lemma DateShape(c: Concept, idx: NodeId, unquote: string -> string)
    requires c.attributes == Empty() && (c.variant.DateEntity? || c.variant.DateInterval?)
    ensures Product(c, idx, unquote) == [Triple(Node(idx), ":instance", Text(c.conceptType))]
  {
    FreshBase(c, idx);
  }
}
