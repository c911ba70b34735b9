/** The periphrastic-construction rule set and its singleton: the first construction stores the
    table and the rule priority, every later construction returns the same object unchanged, and
    `get_patterns` lists the constructions in priority order. As written, `prioritize` receives the
    table's `(pattern, guides)` tuples and fails on any non-empty table; `CallCorrected` and
    `InitCorrected` give it the patterns instead. */
module Periphrastic {
  import opened Outcomes
  import PyDict
  import opened RulePriority

  /** A construction: its pattern (the whitespace-separated tag queries) and its guides, the
      attributes given to a matched node (a `None` guide is the empty list). */
  datatype Construction = Construction(pattern: string, guides: seq<(string, string)>)

  /** `PERIPHRASTIC_CONSTRUCTIONS`: name to construction, in insertion order. */
  type Table = PyDict.Dict<string, Construction>

  /** The table reduced to its pattern strings: the shape `prioritize` is written for. */
  function PatternsOf(table: Table): (rules: Rules)
    ensures rules.order == table.order
    ensures forall k :: k in rules.entries <==> k in table.entries
    ensures forall k :: k in table.entries ==> rules.entries[k] == table.entries[k].pattern
  {
    PyDict.Dict(table.order, map k | k in table.entries :: table.entries[k].pattern)
  }

  /** `prioritize(PERIPHRASTIC_CONSTRUCTIONS, sort)` as written: the values are
      `(pattern, guides)` tuples, and the first loop calls `.split()` on such a tuple. */
  function PrioritizeTable(table: Table, sort: string): Outcome<seq<string>> {
    if sort != SimpleToComplex && sort != ComplexToSimple then Raise(AssertionError)
    else if table.order != [] then Raise(AttributeError)
    else Ok([])
  }

  /** On any non-empty table, prioritising the tuples fails with AttributeError whatever `sort`
      is accepted, while prioritising their patterns succeeds with a permutation of the keys. */
  lemma TableRaises(table: Table, sort: string)
    requires table.order != [] && (sort == SimpleToComplex || sort == ComplexToSimple)
    ensures PrioritizeTable(table, sort) == Raise(AttributeError)
    ensures multiset(Prioritized(PatternsOf(table), sort != SimpleToComplex)) == multiset(table.order)
  {
    PrioritizedSpec(PatternsOf(table), sort != SimpleToComplex);
  }

  /** The one table the tuples do not break is the empty one, where both readings give `[]`. */
  lemma EmptyTableAgrees(table: Table, sort: string)
    requires table.order == [] && (sort == SimpleToComplex || sort == ComplexToSimple)
    ensures PrioritizeTable(table, sort) == Ok([]) == Ok(Prioritized(PatternsOf(table), sort != SimpleToComplex))
  {
    PrioritizedSpec(PatternsOf(table), sort != SimpleToComplex);
    assert |multiset(Prioritized(PatternsOf(table), sort != SimpleToComplex))| == 0;
  }

  /** Binding the arguments of `PeriphrasticConstructions(...)` to `__init__(self, sort)`: a call
      without `sort` raises TypeError. */
  function InitArgument(args: Option<string>): (r: Outcome<string>)
    ensures r.Raise? <==> args.None?
    ensures r.Raise? ==> r.error == TypeError
    ensures r.Ok? ==> r.value == args.value
  {
    if args.None? then Raise(TypeError) else Ok(args.value)
  }

  /** `[ruleset[key] for key in keys]`: KeyError at a key that is not in the table. */
  function PatternList(ruleset: Table, keys: seq<string>): Outcome<seq<Construction>>
    decreases |keys|
  {
    if keys == [] then Ok([])
    else if keys[0] !in ruleset.entries then Raise(KeyError)
    else match PatternList(ruleset, keys[1..])
      case Raise(e) => Raise(e)
      case Ok(rest) => Ok([ruleset.entries[keys[0]]] + rest)
  }

  /** Listing existing keys gives one construction per key, in the same order. */
  lemma {:induction false} PatternListSpec(ruleset: Table, keys: seq<string>)
    requires forall i :: 0 <= i < |keys| ==> keys[i] in ruleset.entries
    ensures PatternList(ruleset, keys).Ok?
    ensures var ps := PatternList(ruleset, keys).value;
      |ps| == |keys| && forall i :: 0 <= i < |keys| ==> ps[i] == ruleset.entries[keys[i]]
    decreases |keys|
  {
    if keys != [] {
      PatternListSpec(ruleset, keys[1..]);
      var ps := PatternList(ruleset, keys).value;
      assert forall i :: 1 <= i < |keys| ==> ps[i] == PatternList(ruleset, keys[1..]).value[i - 1];
    }
  }

  /** `get_patterns` after a successful first construction: one construction per key of the
      table, in priority order. */
  lemma PatternsInPriority(table: Table, reverse: bool)
    requires PyDict.Valid(table)
    ensures var p := Prioritized(PatternsOf(table), reverse);
      multiset(p) == multiset(table.order) && PatternList(table, p).Ok?
      && |PatternList(table, p).value| == |p| == |table.order|
      && forall i :: 0 <= i < |p| ==> p[i] in table.entries && PatternList(table, p).value[i] == table.entries[p[i]]
  {
    var p := Prioritized(PatternsOf(table), reverse);
    PrioritizedSpec(PatternsOf(table), reverse);
    forall i | 0 <= i < |p| ensures p[i] in table.entries {
      assert p[i] in multiset(table.order);
    }
    PatternListSpec(table, p);
    assert |multiset(p)| == |multiset(table.order)|;
  }

  /** The class `PeriphrasticConstructions` with its single instance: the class attributes
      `instance` and `intact` and the instance attributes `ruleset`, `sort` and `priority`
      (absent until the first `__init__` sets them). */
  class Constructions {
    /** `PERIPHRASTIC_CONSTRUCTIONS` */
    const table: Table
    var instance: bool
    var intact: bool
    var ruleset: Option<Table>
    var sort: Option<string>
    var priority: Option<seq<string>>

    /** Once the singleton is no longer intact it holds the table, an accepted `sort` and the
        priority `prioritize` returns for it. */
    ghost predicate Valid()
      reads this
    {
      PyDict.Valid(table)
      && (!intact ==>
            ruleset == Some(table) && sort.Some? && (sort.value == SimpleToComplex || sort.value == ComplexToSimple)
            && priority == Some(Prioritized(PatternsOf(table), sort.value != SimpleToComplex)))
    }

    /** The class as first defined: no instance yet, intact. */
    constructor(table: Table)
      requires PyDict.Valid(table)
      ensures this.table == table && !instance && intact
      ensures ruleset == None && sort == None && priority == None
      ensures Valid()
    {
      this.table := table;
      instance := false;
      intact := true;
      ruleset := None;
      sort := None;
      priority := None;
    }

    /** `PeriphrasticConstructions(*args)` as written: `__new__` creates the instance once, then
        `__init__` runs. Only a call on the intact class stores anything. Without `sort` the call
        raises TypeError before `__init__` changes anything. With a `sort`, the table and the sort
        are stored and `prioritize` fails on the table's tuples: AssertionError for an unknown
        `sort`, AttributeError for an accepted one on a non-empty table; either way the class stays
        intact. */
    method Call(args: Option<string>) returns (r: Outcome<()>)
      requires Valid()
      modifies this
      ensures Valid() && instance
      ensures args.None? ==> r == Raise(TypeError)
      ensures args.None? || !old(intact) ==>
        intact == old(intact) && ruleset == old(ruleset) && sort == old(sort) && priority == old(priority)
      ensures args.Some? && !old(intact) ==> r == Ok(())
      ensures args.Some? && old(intact) ==>
        var s := args.value;
        ruleset == Some(table) && sort == Some(s)
        && if s != SimpleToComplex && s != ComplexToSimple then
             r == Raise(AssertionError) && intact && priority == old(priority)
           else if table.order != [] then
             r == Raise(AttributeError) && intact && priority == old(priority)
           else
             r == Ok(()) && !intact && priority == Some([])
    {
      New();
      match InitArgument(args)
      case Raise(e) =>
        r := Raise(e);
      case Ok(s) =>
        r := Init(s);
    }

    /** The same call with `prioritize` reading each construction's pattern: the first call with
        an accepted `sort` stores the table, the sort and the priority and clears `intact`. */
    method CallCorrected(args: Option<string>) returns (r: Outcome<()>)
      requires Valid()
      modifies this
      ensures Valid() && instance
      ensures args.None? ==> r == Raise(TypeError)
      ensures args.None? || !old(intact) ==>
        intact == old(intact) && ruleset == old(ruleset) && sort == old(sort) && priority == old(priority)
      ensures args.Some? && !old(intact) ==> r == Ok(())
      ensures args.Some? && old(intact) ==>
        var s := args.value;
        ruleset == Some(table) && sort == Some(s)
        && if s == SimpleToComplex || s == ComplexToSimple then
             r == Ok(()) && !intact && priority == Some(Prioritized(PatternsOf(table), s != SimpleToComplex))
           else
             r == Raise(AssertionError) && intact && priority == old(priority)
    {
      New();
      match InitArgument(args)
      case Raise(e) =>
        r := Raise(e);
      case Ok(s) =>
        r := InitCorrected(s);
    }

    /** `__new__`: the instance is created on the first call only. */
    method New()
      modifies this
      ensures instance
      ensures intact == old(intact) && ruleset == old(ruleset) && sort == old(sort) && priority == old(priority)
    {
      if !instance {
        instance := true;
      }
    }

    /** `__init__(self, sort)` as written: `prioritize` receives the table of tuples. */
    method Init(s: string) returns (r: Outcome<()>)
      requires Valid()
      modifies this
      ensures Valid() && instance == old(instance)
      ensures !old(intact) ==>
        r == Ok(()) && intact == old(intact) && ruleset == old(ruleset) && sort == old(sort) && priority == old(priority)
      ensures old(intact) ==>
        ruleset == Some(table) && sort == Some(s)
        && if s != SimpleToComplex && s != ComplexToSimple then
             r == Raise(AssertionError) && intact && priority == old(priority)
           else if table.order != [] then
             r == Raise(AttributeError) && intact && priority == old(priority)
           else
             r == Ok(()) && !intact && priority == Some([])
    {
      if intact {
        ruleset := Some(table);
        sort := Some(s);
        match PrioritizeTable(table, s)
        case Ok(v) =>
          EmptyTableAgrees(table, s);
          priority := Some(v);
          intact := false;
          r := Ok(());
        case Raise(e) =>
          r := Raise(e);
      } else {
        r := Ok(());
      }
    }

    /** `__init__(self, sort)` with `prioritize` given each construction's pattern. */
    method InitCorrected(s: string) returns (r: Outcome<()>)
      requires Valid()
      modifies this
      ensures Valid() && instance == old(instance)
      ensures !old(intact) ==>
        r == Ok(()) && intact == old(intact) && ruleset == old(ruleset) && sort == old(sort) && priority == old(priority)
      ensures old(intact) ==>
        ruleset == Some(table) && sort == Some(s)
        && if s == SimpleToComplex || s == ComplexToSimple then
             r == Ok(()) && !intact && priority == Some(Prioritized(PatternsOf(table), s != SimpleToComplex))
           else
             r == Raise(AssertionError) && intact && priority == old(priority)
    {
      if intact {
        ruleset := Some(table);
        sort := Some(s);
        var p := Prioritize(PatternsOf(table), s);
        match p
        case Ok(v) =>
          priority := Some(v);
          intact := false;
          r := Ok(());
        case Raise(e) =>
          r := Raise(e);
      } else {
        r := Ok(());
      }
    }

    /** `get_patterns()`: AttributeError while no priority is stored, otherwise the ruleset's
        constructions in priority order. */
    function GetPatterns(): (r: Outcome<seq<Construction>>)
      reads this
      requires Valid()
      ensures !intact ==>
        (r.Ok? && |r.value| == |priority.value| == |table.order|
         && forall i :: 0 <= i < |r.value| ==> priority.value[i] in table.entries && r.value[i] == table.entries[priority.value[i]])
      ensures priority.None? ==> r == Raise(AttributeError)
    {
      if !intact then
        PatternsInPriority(table, sort.value != SimpleToComplex);
        PatternList(table, priority.value)
      else if ruleset.None? || priority.None? then Raise(AttributeError)
      else PatternList(ruleset.value, priority.value)
    }
  }
}
