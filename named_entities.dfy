/** The `NAMED_ENTITIES` table that the NER pass consults: each entity label maps to a pair of an
    AMR concept type and the concept class to build, or, for labels the pass cannot use, to a bare
    type name or None. The rows are grouped by the table's own sections. */
module NamedEntityTable {
  import opened PyStr
  import opened Outcomes
  import opened Concepts

  /** A table value: a `(concept_type, class)` pair, a bare string, or None. */
  datatype Entry = Pair(conceptType: string, cls: ConceptClass) | Bare(name: string) | NoneEntry

  type Row = (string, Entry)

  const Person: seq<Row> := [
    ("PS_NAME", Pair("ne.person", NamedEntityClass)),
    ("PS_CHARACTER", Pair("ne.fictitious-character*", NamedEntityClass)),
    ("PS_PET", Pair("ne.animal", NamedEntityClass))
  ]

  const StudyField: seq<Row> := [
    ("FD_SCIENCE", Pair("tm.study-field*", TerminologyClass)),
    ("FD_SOCIAL_SCIENCE", Pair("tm.study-field*", TerminologyClass)),
    ("FD_MEDICINE", Pair("tm.study-field*", TerminologyClass)),
    ("FD_ART", Pair("tm.study-field*", TerminologyClass)),
    ("FD_HUMANITIES", Pair("tm.study-field*", TerminologyClass)),
    ("FD_OTHERS", Pair("tm.study-field*", TerminologyClass))
  ]

  const Theory: seq<Row> := [
    ("TR_SCIENCE", Pair("tm.theory*", TerminologyClass)),
    ("TR_SOCIAL_SCIENCE", Pair("tm.theory*", TerminologyClass)),
    ("TR_MEDICINE", Pair("tm.theory*", TerminologyClass)),
    ("TR_ART", Pair("tm.theory*", TerminologyClass)),
    ("TR_HUMANITIES", Pair("tm.theory*", TerminologyClass)),
    ("TR_OTHERS", Pair("tm.theory*", TerminologyClass))
  ]

  const Artifacts: seq<Row> := [
    ("AF_BUILDING", Pair("ne.facility", NamedEntityClass)),
    ("AF_CULTURAL_ASSET", Pair("ne.cultural-asset*", NamedEntityClass)),
    ("AF_ROAD", Pair("ne.road|railway-line", NamedEntityClass)),
    ("AF_TRANSPORT", Pair("ne.transportation*", NamedEntityClass)),
    ("AF_MUSICAL_INSTRUMENT", Pair("ge.musical-instrument*", GenericNameClass)),
    ("AF_WEAPON", Pair("ge.weapon*", GenericNameClass)),
    ("AF_ART_WORKS", Pair("ne.work-of-art", NamedEntityClass)),
    ("AFA_DOCUMENT", Pair("ne.publication", NamedEntityClass)),
    ("AFA_PERFORMANCE", Pair("ne.work-of-art", NamedEntityClass)),
    ("AFA_VIDEO", Pair("ne.work-of-art", NamedEntityClass)),
    ("AFA_ART_CRAFT", Pair("ne.work-of-art", NamedEntityClass)),
    ("AFA_MUSIC", Pair("ne.music", NamedEntityClass)),
    ("AF_WARES", Pair("ne.product", NamedEntityClass)),
    ("AFW_SERVICE_PRODUCTS", Pair("ne.service-product*", NamedEntityClass)),
    ("AFW_OTHER_PRODUCTS", Pair("ne.product", NamedEntityClass))
  ]

  const Organization: seq<Row> := [
    ("OGG_ECONOMY", Pair("ne.company", NamedEntityClass)),
    ("OGG_EDUCATION", Pair("ne.university|school", NamedEntityClass)),
    ("OGG_MILITARY", Pair("ne.military", NamedEntityClass)),
    ("OGG_MEDIA", Pair("ne.company", NamedEntityClass)),
    ("OGG_SPORTS", Pair("ne.team|league", NamedEntityClass)),
    ("OGG_ART", Pair("ne.organization", NamedEntityClass)),
    ("OGG_MEDICINE", Pair("ne.organization", NamedEntityClass)),
    ("OGG_RELIGION", Pair("ne.religious-group", NamedEntityClass)),
    ("OGG_SCIENCE", Pair("ne.research-institute", NamedEntityClass)),
    ("OGG_LIBRARY", Pair("ne.library*", NamedEntityClass)),
    ("OGG_LAW", Pair("ne.government-organization", NamedEntityClass)),
    ("OGG_POLITICS", Pair("ne.government-organization", NamedEntityClass)),
    ("OGG_FOOD", Pair("ne.company", NamedEntityClass)),
    ("OGG_HOTEL", Pair("ne.hotel", NamedEntityClass)),
    ("OG_OTHERS", Pair("ne.organization", NamedEntityClass))
  ]

  const Location: seq<Row> := [
    ("LCP_COUNTRY", Pair("ne.country", NamedEntityClass)),
    ("LCP_PROVINCE", Pair("ne.province|state", NamedEntityClass)),
    ("LCP_COUNTY", Pair("ne.county", NamedEntityClass)),
    ("LCP_CITY", Pair("ne.city", NamedEntityClass)),
    ("LCP_CAPITALCITY", Pair("ne.city", NamedEntityClass)),
    ("LCG_RIVER", Pair("ne.river|lake", NamedEntityClass)),
    ("LCG_OCEAN", Pair("ne.ocean|sea|strait|canal", NamedEntityClass)),
    ("LCG_BAY", Pair("ne.gulf|bay|peninsula", NamedEntityClass)),
    ("LCG_MOUNTAIN", Pair("ne.mountain|volcano", NamedEntityClass)),
    ("LCG_ISLAND", Pair("ne.island", NamedEntityClass)),
    ("LCG_CONTINENT", Pair("ne.world-region|continent", NamedEntityClass)),
    ("LC_SPACE", Pair("ne.moon|planet|star|constellation", NamedEntityClass)),
    ("LC_OTHERS", Pair("ne.local-region", NamedEntityClass))
  ]

  const CivilizationPairs: seq<Row> := [
    ("CV_NAME", Pair("ne.nationality|ethnic-group", NamedEntityClass)),
    ("CV_TRIBE", Pair("ne.nationality|ethnic-group", NamedEntityClass)),
    ("CV_LANGUAGE", Pair("ne.language", NamedEntityClass)),
    ("CV_POLICY", Pair("ne.program|policy*", NamedEntityClass)),
    ("CV_LAW", Pair("ne.law|treaty", NamedEntityClass))
  ]

  const CivilizationOthers: seq<Row> := [
    ("CV_CURRENCY", Bare("currency*")),
    ("CV_TAX", Bare("tax*")),
    ("CV_FUNDS", Bare("funds*")),
    ("CV_ART", NoneEntry),
    ("CV_SPORTS", Bare("sports*")),
    ("CV_SPORTS_POSITION", Bare("have-org-role-91")),
    ("CV_SPORTS_INST", Bare("sports-instrument*")),
    ("CV_PRIZE", Bare("award")),
    ("CV_RELATION", Bare("have-rel-role-91")),
    ("CV_OCCUPATION", Bare("have-org-role-91")),
    ("CV_POSITION", Bare("have-org-role-91")),
    ("CV_FOOD", Bare("food-dish")),
    ("CV_DRINK", Bare("food-drink*")),
    ("CV_FOOD_STYLE", Bare("food-style*")),
    ("CV_CLOTHING", Bare("clothing*")),
    ("CV_BUILDING_TYPE", Bare("architectural-style*"))
  ]

  const Date: seq<Row> := [
    ("DT_DURATION", Bare("temporal-quantity|date-interval")),
    ("DT_DAY", Bare("date-entity")),
    ("DT_WEEK", Bare("date-entity")),
    ("DT_MONTH", Bare("date-entity")),
    ("DT_YEAR", Bare("date-entity")),
    ("DT_SEASON", Bare("date-entity")),
    ("DT_GEOAGE", Bare("geoage")),
    ("DT_DYNASTY", Bare("dynasty")),
    ("DT_OTHERS", Bare("date-entity"))
  ]

  const Time: seq<Row> := [
    ("TI_DURATION", Bare("temporal-quantity|date-interval")),
    ("TI_HOUR", Bare("date-entity")),
    ("TI_MINUTE", Bare("date-entity")),
    ("TI_SECOND", Bare("date-entity")),
    ("TI_OTHERS", Bare("date-entity"))
  ]

  const Quantity: seq<Row> := [
    ("QT_AGE", Bare("age-01, temporal-quantity")),
    ("QT_SIZE", Bare("area-quantity")),
    ("QT_LENGTH", Bare("distance-quantity")),
    ("QT_COUNT", Bare("quantity*")),
    ("QT_MAN_COUNT", Bare("quantity*")),
    ("QT_WEIGHT", Bare("mass-quantity")),
    ("QT_PERCENTAGE", Bare("percentage-entity")),
    ("QT_SPEED", Bare("acceleration-quantity")),
    ("QT_TEMPERATURE", Bare("temperature-quantity")),
    ("QT_VOLUME", Bare("volume-quantity")),
    ("QT_ORDER", Bare("ordinal-entity")),
    ("QT_PRICE", Bare("monetary-quantity")),
    ("QT_PHONE", Bare("phone-number-entity")),
    ("QT_SPORTS", Bare("score-entity :op1 :op2")),
    ("QT_CHANNEL", Bare("media-channel*")),
    ("QT_ALBUM", Bare("ordinal-entity")),
    ("QT_ADDRESS", Bare("street-address-91")),
    ("QT_OTHERS", Bare("quantity*"))
  ]

  const Event: seq<Row> := [
    ("EV_ACTIVITY", Bare("political-movement")),
    ("EV_WAR_REVOLUTION", Bare("war")),
    ("EV_SPORTS", Bare("game")),
    ("EV_FESTIVAL", Bare("festival")),
    ("EV_OTHERS", Bare("event"))
  ]

  const Animal: seq<Row> := [
    ("AM_INSECT", Bare("animal*")),
    ("AM_BIRD", Bare("animal*")),
    ("AM_FISH", Bare("animal*")),
    ("AM_MAMMALIA", Bare("animal*")),
    ("AM_AMPHIBIA", Bare("animal*")),
    ("AM_REPTILIA", Bare("animal*")),
    ("AM_TYPE", Bare("animal*")),
    ("AM_PART", Bare("part-of")),
    ("AM_OTHERS", Bare("pathogen*"))
  ]

  const Plant: seq<Row> := [
    ("PT_FRUIT", Bare("plant*")),
    ("PT_FLOWER", Bare("plant*")),
    ("PT_TREE", Bare("plant*")),
    ("PT_GRASS", Bare("plant*")),
    ("PT_TYPE", Bare("plant*")),
    ("PT_PART", Bare("part-of")),
    ("PT_OTHERS", Bare("plant*"))
  ]

  const Material: seq<Row> := [
    ("MT_ELEMENT", Bare("material*")),
    ("MT_METAL", Bare("material*")),
    ("MT_ROCK", Bare("material*")),
    ("MT_CHEMICAL", Bare("material*"))
  ]

  const Term: seq<Row> := [
    ("TM_COLOR", Bare("color*")),
    ("TM_DIRECTION", Bare("direction")),
    ("TM_CLIMATE", Bare("climate*")),
    ("TM_SHAPE", Bare("shape*")),
    ("TM_CELL_TISSUE_ORGAN", Bare("cell-tissue*")),
    ("TMM_DISEASE", Bare("desease")),
    ("TMM_DRUG", Bare("drug*")),
    ("TMI_HW", Bare("product")),
    ("TMI_SW", Bare("program")),
    ("TMI_SITE", Bare("url-entity")),
    ("TMI_EMAIL", Bare("email-address-entity")),
    ("TMI_MODEL", Bare("product")),
    ("TMI_SERVICE", Bare("service*")),
    ("TMI_PROJECT", Bare("project*")),
    ("TMIG_GENRE", Bare("genre*")),
    ("TM_SPORTS", Bare("sports-term*"))
  ]

  /** The sections whose labels map to pairs. */
  const PairRows: seq<Row> := Person + StudyField + Theory + Artifacts + Organization + Location + CivilizationPairs

  /** The sections whose labels map to bare strings or None, from CV_CURRENCY to TM_SPORTS. */
  const OtherRows: seq<Row> := CivilizationOthers + Date + Time + Quantity + Event + Animal + Plant + Material + Term

  /** The whole table, in source order. */
  const NamedEntities: seq<Row> := PairRows + OtherRows

  /** `NAMED_ENTITIES[label]`: the entry of the first row with that label, None for a missing label. */
  function Lookup(rows: seq<Row>, key: string): (r: Option<Entry>)
    ensures r.None? <==> forall i :: 0 <= i < |rows| ==> rows[i].0 != key
    ensures r.Some? ==> exists i :: 0 <= i < |rows| && rows[i] == (key, r.value)
  {
    if rows == [] then None
    else if rows[0].0 == key then Some(rows[0].1)
    else
      var r := Lookup(rows[1..], key);
      assert r.Some? ==> exists i :: 0 <= i < |rows[1..]| && rows[1..][i] == (key, r.value);
      assert r.Some? ==> exists i :: 0 <= i < |rows| && rows[i] == (key, r.value) by {
        if r.Some? {
          var i :| 0 <= i < |rows[1..]| && rows[1..][i] == (key, r.value);
          assert rows[i + 1] == (key, r.value);
        }
      }
      r
  }

  /** For a three-character prefix, the kind test is `str.startswith`. */
  lemma KindIsPrefix(t: string, p: string)
    requires |p| == 3
    ensures Kind(t) == p <==> StartsWith(t, p)
  {
    StartsWithPrefix(t, p);
    if |t| >= 3 {
      assert Kind(t) == t[..3];
    }
  }

  /** The first three characters of a type, which name its kind: `ne.`, `tm.` or `ge.`. */
  function Kind(t: string): string {
    if |t| < 3 then t else [t[0], t[1], t[2]]
  }

  /** A pair's class agrees with the prefix of its concept type: `ne.` builds a named entity, `tm.` a
      terminology node, `ge.` a generic name, and no other class or prefix occurs. */
  predicate ClassAgreesWithType(e: Entry) {
    e.Pair? ==>
      (e.cls == NamedEntityClass <==> Kind(e.conceptType) == "ne.")
      && (e.cls == TerminologyClass <==> Kind(e.conceptType) == "tm.")
      && (e.cls == GenericNameClass <==> Kind(e.conceptType) == "ge.")
      && e.cls in {NamedEntityClass, TerminologyClass, GenericNameClass}
  }

  /** Study-field labels map to `tm.study-field*` and theory labels to `tm.theory*`, both as
      terminology. */
  predicate FieldsAndTheories(row: Row) {
    (Kind(row.0) == "FD_" ==> row.1 == Pair("tm.study-field*", TerminologyClass))
    && (Kind(row.0) == "TR_" ==> row.1 == Pair("tm.theory*", TerminologyClass))
  }

  predicate RowAgrees(row: Row) {
    ClassAgreesWithType(row.1) && FieldsAndTheories(row)
  }

  /** A value the NER pass's two-way unpacking cannot use: None, or a string that is not two
      characters long (a two-character string would unpack, then fail as a class). */
  predicate NotAPair(e: Entry) {
    !e.Pair? && (e.Bare? ==> |e.name| != 2)
  }

  lemma AllConcat(a: seq<Row>, b: seq<Row>, p: Row -> bool)
    requires forall i :: 0 <= i < |a| ==> p(a[i])
    requires forall i :: 0 <= i < |b| ==> p(b[i])
    ensures forall i :: 0 <= i < |a + b| ==> p((a + b)[i])
  {
    forall i | 0 <= i < |a + b|
      ensures p((a + b)[i])
    {
      if i >= |a| {
        assert (a + b)[i] == b[i - |a|];
      }
    }
  }

  // ---------------------------------------------------------------------------------------------
  // Properties, section by section

  lemma PersonRows()
    ensures forall i :: 0 <= i < |Person| ==> Person[i].1.Pair? && RowAgrees(Person[i])
  {
  }

  lemma StudyFieldRows()
    ensures forall i :: 0 <= i < |StudyField| ==> StudyField[i].1.Pair? && RowAgrees(StudyField[i])
  {
  }

  lemma TheoryRows()
    ensures forall i :: 0 <= i < |Theory| ==> Theory[i].1.Pair? && RowAgrees(Theory[i])
  {
  }

  lemma ArtifactsRows()
    ensures forall i :: 0 <= i < |Artifacts| ==> Artifacts[i].1.Pair? && RowAgrees(Artifacts[i])
  {
  }

  lemma OrganizationRows()
    ensures forall i :: 0 <= i < |Organization| ==> Organization[i].1.Pair? && RowAgrees(Organization[i])
  {
  }

  lemma LocationRows()
    ensures forall i :: 0 <= i < |Location| ==> Location[i].1.Pair? && RowAgrees(Location[i])
  {
  }

  lemma CivilizationPairsRows()
    ensures forall i :: 0 <= i < |CivilizationPairs| ==> CivilizationPairs[i].1.Pair? && RowAgrees(CivilizationPairs[i])
  {
  }

  lemma CivilizationOthersRows()
    ensures forall i :: 0 <= i < |CivilizationOthers| ==> NotAPair(CivilizationOthers[i].1) && RowAgrees(CivilizationOthers[i])
  {
  }

  lemma DateRows()
    ensures forall i :: 0 <= i < |Date| ==> NotAPair(Date[i].1) && RowAgrees(Date[i])
  {
  }

  lemma TimeRows()
    ensures forall i :: 0 <= i < |Time| ==> NotAPair(Time[i].1) && RowAgrees(Time[i])
  {
  }

  lemma QuantityRows()
    ensures forall i :: 0 <= i < |Quantity| ==> NotAPair(Quantity[i].1) && RowAgrees(Quantity[i])
  {
  }

  lemma EventRows()
    ensures forall i :: 0 <= i < |Event| ==> NotAPair(Event[i].1) && RowAgrees(Event[i])
  {
  }

  lemma AnimalRows()
    ensures forall i :: 0 <= i < |Animal| ==> NotAPair(Animal[i].1) && RowAgrees(Animal[i])
  {
  }

  lemma PlantRows()
    ensures forall i :: 0 <= i < |Plant| ==> NotAPair(Plant[i].1) && RowAgrees(Plant[i])
  {
  }

  lemma MaterialRows()
    ensures forall i :: 0 <= i < |Material| ==> NotAPair(Material[i].1) && RowAgrees(Material[i])
  {
  }

  lemma TermRows()
    ensures forall i :: 0 <= i < |Term| ==> NotAPair(Term[i].1) && RowAgrees(Term[i])
  {
  }

  /** Every row of the table agrees: classes match type prefixes, and FD_/TR_ labels are terminology
      of study fields and theories. */
  lemma TableAgrees()
    ensures forall i :: 0 <= i < |NamedEntities| ==> RowAgrees(NamedEntities[i])
  {
    PersonRows();
    StudyFieldRows();
    TheoryRows();
    ArtifactsRows();
    OrganizationRows();
    LocationRows();
    CivilizationPairsRows();
    CivilizationOthersRows();
    DateRows();
    TimeRows();
    QuantityRows();
    EventRows();
    AnimalRows();
    PlantRows();
    MaterialRows();
    TermRows();
    AllConcat(Person, StudyField, RowAgrees);
    AllConcat(Person + StudyField, Theory, RowAgrees);
    AllConcat((Person + StudyField) + Theory, Artifacts, RowAgrees);
    AllConcat(((Person + StudyField) + Theory) + Artifacts, Organization, RowAgrees);
    AllConcat((((Person + StudyField) + Theory) + Artifacts) + Organization, Location, RowAgrees);
    AllConcat(((((Person + StudyField) + Theory) + Artifacts) + Organization) + Location, CivilizationPairs, RowAgrees);
    AllConcat(CivilizationOthers, Date, RowAgrees);
    AllConcat(CivilizationOthers + Date, Time, RowAgrees);
    AllConcat((CivilizationOthers + Date) + Time, Quantity, RowAgrees);
    AllConcat(((CivilizationOthers + Date) + Time) + Quantity, Event, RowAgrees);
    AllConcat((((CivilizationOthers + Date) + Time) + Quantity) + Event, Animal, RowAgrees);
    AllConcat(((((CivilizationOthers + Date) + Time) + Quantity) + Event) + Animal, Plant, RowAgrees);
    AllConcat((((((CivilizationOthers + Date) + Time) + Quantity) + Event) + Animal) + Plant, Material, RowAgrees);
    AllConcat(((((((CivilizationOthers + Date) + Time) + Quantity) + Event) + Animal) + Plant) + Material, Term, RowAgrees);
    AllConcat(PairRows, OtherRows, RowAgrees);
  }

  /** Every label from CV_CURRENCY to TM_SPORTS maps to a value the NER pass cannot unpack, and every
      other label to a pair. */
  lemma UnpackableRows()
    ensures forall i :: 0 <= i < |PairRows| ==> PairRows[i].1.Pair?
    ensures forall i :: 0 <= i < |OtherRows| ==> NotAPair(OtherRows[i].1)
  {
    PairRowsArePairs();
    OtherRowsArePlain();
  }

  /** Every label from PS_NAME to the civilisation pairs maps to a pair. */
  lemma PairRowsArePairs()
    ensures forall i :: 0 <= i < |PairRows| ==> PairRows[i].1.Pair?
  {
    PersonRows();
    StudyFieldRows();
    TheoryRows();
    ArtifactsRows();
    OrganizationRows();
    LocationRows();
    CivilizationPairsRows();
    AllConcat(Person, StudyField, (r: Row) => r.1.Pair?);
    AllConcat(Person + StudyField, Theory, (r: Row) => r.1.Pair?);
    AllConcat((Person + StudyField) + Theory, Artifacts, (r: Row) => r.1.Pair?);
    AllConcat(((Person + StudyField) + Theory) + Artifacts, Organization, (r: Row) => r.1.Pair?);
    AllConcat((((Person + StudyField) + Theory) + Artifacts) + Organization, Location, (r: Row) => r.1.Pair?);
    AllConcat(((((Person + StudyField) + Theory) + Artifacts) + Organization) + Location, CivilizationPairs, (r: Row) => r.1.Pair?);
  }

  /** Every label from CV_CURRENCY to TM_SPORTS maps to a bare string or None that is no pair. */
  lemma OtherRowsArePlain()
    ensures forall i :: 0 <= i < |OtherRows| ==> NotAPair(OtherRows[i].1)
  {
    CivilizationOthersRows();
    DateRows();
    TimeRows();
    QuantityRows();
    EventRows();
    AnimalRows();
    PlantRows();
    MaterialRows();
    TermRows();
    AllConcat(CivilizationOthers, Date, (r: Row) => NotAPair(r.1));
    AllConcat(CivilizationOthers + Date, Time, (r: Row) => NotAPair(r.1));
    AllConcat((CivilizationOthers + Date) + Time, Quantity, (r: Row) => NotAPair(r.1));
    AllConcat(((CivilizationOthers + Date) + Time) + Quantity, Event, (r: Row) => NotAPair(r.1));
    AllConcat((((CivilizationOthers + Date) + Time) + Quantity) + Event, Animal, (r: Row) => NotAPair(r.1));
    AllConcat(((((CivilizationOthers + Date) + Time) + Quantity) + Event) + Animal, Plant, (r: Row) => NotAPair(r.1));
    AllConcat((((((CivilizationOthers + Date) + Time) + Quantity) + Event) + Animal) + Plant, Material, (r: Row) => NotAPair(r.1));
    AllConcat(((((((CivilizationOthers + Date) + Time) + Quantity) + Event) + Animal) + Plant) + Material, Term, (r: Row) => NotAPair(r.1));
  }

  /** There are six study-field and six theory labels. */
  lemma FieldAndTheoryCounts()
    ensures |StudyField| == 6 && forall i :: 0 <= i < 6 ==> Kind(StudyField[i].0) == "FD_"
    ensures |Theory| == 6 && forall i :: 0 <= i < 6 ==> Kind(Theory[i].0) == "TR_"
  {
  }
}
