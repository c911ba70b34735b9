/** `prioritize`: the order in which the periphrastic-construction rules are tried. Rules are
    grouped by the number of whitespace tokens of their pattern; each group is sorted by pattern
    length and the groups are visited by token count, ascending for `simple-to-complex` and
    descending for `complex-to-simple`. Python's `sorted` is stable even with `reverse=True`. */
module RulePriority {
  import opened Outcomes
  import opened PyStr
  import PyDict

  /** A rule table: construction name to pattern string, in insertion order. */
  type Rules = PyDict.Dict<string, string>

  const SimpleToComplex := "simple-to-complex"
  const ComplexToSimple := "complex-to-simple"

  /** `len(rules[k].split())` */
  function Tok(rules: Rules): string -> int {
    k => if k in rules.entries then |Split(rules.entries[k])| else 0
  }

  /** `len(rules[k])` */
  function Len(rules: Rules): string -> int {
    k => if k in rules.entries then |rules.entries[k]| else 0
  }

  /** The sort key of `sorted(list)` on ints. */
  function Identity(): int -> int {
    n => n
  }

  /** `x` may precede `y` in a sort with the given direction. */
  predicate Le(x: int, y: int, reverse: bool) {
    if reverse then x >= y else x <= y
  }

  // ---------------------------------------------------------------------------------------------
  // Python's stable `sorted(xs, key=key, reverse=reverse)`

  /** Inserts `x` in front of the first element it may precede, so that it stays before every
      later element with an equal key. */
  function Insert<T>(x: T, ys: seq<T>, key: T -> int, reverse: bool): seq<T>
    decreases |ys|
  {
    if ys == [] || Le(key(x), key(ys[0]), reverse) then [x] + ys
    else [ys[0]] + Insert(x, ys[1..], key, reverse)
  }

  function SortBy<T>(xs: seq<T>, key: T -> int, reverse: bool): seq<T>
    decreases |xs|
  {
    if xs == [] then [] else Insert(xs[0], SortBy(xs[1..], key, reverse), key, reverse)
  }

  predicate Sorted<T>(xs: seq<T>, key: T -> int, reverse: bool) {
    forall i, j :: 0 <= i < j < |xs| ==> Le(key(xs[i]), key(xs[j]), reverse)
  }

  /** The elements of `xs` whose key is `v`, in order. */
  function Having<T>(xs: seq<T>, key: T -> int, v: int): seq<T>
    decreases |xs|
  {
    if xs == [] then [] else (if key(xs[0]) == v then [xs[0]] else []) + Having(xs[1..], key, v)
  }

  /** The elements of `xs` whose key is one of `ns`, in order. */
  function Among<T>(xs: seq<T>, key: T -> int, ns: seq<int>): seq<T>
    decreases |xs|
  {
    if xs == [] then [] else (if key(xs[0]) in ns then [xs[0]] else []) + Among(xs[1..], key, ns)
  }

  lemma {:induction false} InsertMultiset<T>(x: T, ys: seq<T>, key: T -> int, reverse: bool)
    ensures multiset(Insert(x, ys, key, reverse)) == multiset{x} + multiset(ys)
    decreases |ys|
  {
    if !(ys == [] || Le(key(x), key(ys[0]), reverse)) {
      InsertMultiset(x, ys[1..], key, reverse);
      assert ys == [ys[0]] + ys[1..];
    }
  }

  /** `sorted` returns a permutation of its input. */
  lemma {:induction false} SortByMultiset<T>(xs: seq<T>, key: T -> int, reverse: bool)
    ensures multiset(SortBy(xs, key, reverse)) == multiset(xs)
    decreases |xs|
  {
    if xs != [] {
      SortByMultiset(xs[1..], key, reverse);
      InsertMultiset(xs[0], SortBy(xs[1..], key, reverse), key, reverse);
      assert xs == [xs[0]] + xs[1..];
    }
  }

  lemma ConsSorted<T>(y: T, rest: seq<T>, key: T -> int, reverse: bool)
    requires Sorted(rest, key, reverse) && forall j :: 0 <= j < |rest| ==> Le(key(y), key(rest[j]), reverse)
    ensures Sorted([y] + rest, key, reverse)
  {
    var r := [y] + rest;
    assert forall j :: 1 <= j < |r| ==> r[j] == rest[j - 1];
  }

  lemma {:induction false} InsertSorted<T>(x: T, ys: seq<T>, key: T -> int, reverse: bool)
    requires Sorted(ys, key, reverse)
    ensures Sorted(Insert(x, ys, key, reverse), key, reverse)
    decreases |ys|
  {
    if ys == [] || Le(key(x), key(ys[0]), reverse) {
      assert forall j :: 0 <= j < |ys| ==> Le(key(x), key(ys[j]), reverse);
      ConsSorted(x, ys, key, reverse);
    } else {
      var rest := Insert(x, ys[1..], key, reverse);
      assert Sorted(ys[1..], key, reverse) by {
        assert forall j :: 0 <= j < |ys[1..]| ==> ys[1..][j] == ys[j + 1];
      }
      InsertSorted(x, ys[1..], key, reverse);
      InsertMultiset(x, ys[1..], key, reverse);
      forall j | 0 <= j < |rest|
        ensures Le(key(ys[0]), key(rest[j]), reverse)
      {
        assert rest[j] in multiset{x} + multiset(ys[1..]);
        if rest[j] != x {
          var m :| 0 <= m < |ys[1..]| && ys[1..][m] == rest[j];
          assert ys[m + 1] == rest[j];
        }
      }
      ConsSorted(ys[0], rest, key, reverse);
    }
  }

  /** `sorted` orders its result by the key, in the requested direction. */
  lemma {:induction false} SortBySorted<T>(xs: seq<T>, key: T -> int, reverse: bool)
    ensures Sorted(SortBy(xs, key, reverse), key, reverse)
    decreases |xs|
  {
    if xs != [] {
      SortBySorted(xs[1..], key, reverse);
      InsertSorted(xs[0], SortBy(xs[1..], key, reverse), key, reverse);
    }
  }

  lemma {:induction false} InsertHaving<T>(x: T, ys: seq<T>, key: T -> int, reverse: bool, v: int)
    ensures Having(Insert(x, ys, key, reverse), key, v) == (if key(x) == v then [x] else []) + Having(ys, key, v)
    decreases |ys|
  {
    var r := Insert(x, ys, key, reverse);
    if ys == [] || Le(key(x), key(ys[0]), reverse) {
      assert r[0] == x && r[1..] == ys;
    } else {
      var rest := Insert(x, ys[1..], key, reverse);
      InsertHaving(x, ys[1..], key, reverse, v);
      assert r[0] == ys[0] && r[1..] == rest;
      assert Having(r, key, v) == (if key(ys[0]) == v then [ys[0]] else []) + Having(rest, key, v);
      assert Having(ys, key, v) == (if key(ys[0]) == v then [ys[0]] else []) + Having(ys[1..], key, v);
      assert !(key(x) == v && key(ys[0]) == v);
    }
  }

  /** `sorted` is stable: the elements that share a key come out in their input order. */
  lemma {:induction false} SortByStable<T>(xs: seq<T>, key: T -> int, reverse: bool, v: int)
    ensures Having(SortBy(xs, key, reverse), key, v) == Having(xs, key, v)
    decreases |xs|
  {
    if xs != [] {
      SortByStable(xs[1..], key, reverse, v);
      InsertHaving(xs[0], SortBy(xs[1..], key, reverse), key, reverse, v);
    }
  }

  lemma ConsDistinct<T>(y: T, rest: seq<T>)
    requires PyDict.NoDuplicates(rest) && y !in rest
    ensures PyDict.NoDuplicates([y] + rest)
  {
    var r := [y] + rest;
    assert forall j :: 1 <= j < |r| ==> r[j] == rest[j - 1];
  }

  lemma {:induction false} InsertDistinct<T>(x: T, ys: seq<T>, key: T -> int, reverse: bool)
    requires PyDict.NoDuplicates(ys) && x !in ys
    ensures PyDict.NoDuplicates(Insert(x, ys, key, reverse))
    decreases |ys|
  {
    if ys == [] || Le(key(x), key(ys[0]), reverse) {
      ConsDistinct(x, ys);
    } else {
      var rest := Insert(x, ys[1..], key, reverse);
      assert PyDict.NoDuplicates(ys[1..]) by {
        assert forall j :: 0 <= j < |ys[1..]| ==> ys[1..][j] == ys[j + 1];
      }
      InsertDistinct(x, ys[1..], key, reverse);
      InsertMultiset(x, ys[1..], key, reverse);
      assert ys[0] !in multiset{x} + multiset(ys[1..]);
      ConsDistinct(ys[0], rest);
    }
  }

  /** Sorting distinct elements keeps them distinct. */
  lemma {:induction false} SortByDistinct<T>(xs: seq<T>, key: T -> int, reverse: bool)
    requires PyDict.NoDuplicates(xs)
    ensures PyDict.NoDuplicates(SortBy(xs, key, reverse))
    decreases |xs|
  {
    if xs != [] {
      assert forall i, j :: 0 <= i < j < |xs[1..]| ==> xs[1..][i] == xs[i + 1] && xs[1..][j] == xs[j + 1];
      SortByDistinct(xs[1..], key, reverse);
      SortByMultiset(xs[1..], key, reverse);
      assert xs[0] !in multiset(xs[1..]);
      InsertDistinct(xs[0], SortBy(xs[1..], key, reverse), key, reverse);
    }
  }

  // ---------------------------------------------------------------------------------------------
  // The filters

  lemma {:induction false} HavingAppend<T>(a: seq<T>, b: seq<T>, key: T -> int, v: int)
    ensures Having(a + b, key, v) == Having(a, key, v) + Having(b, key, v)
    decreases |a|
  {
    if a == [] {
      assert a + b == b;
    } else {
      var c := a + b;
      var head := if key(a[0]) == v then [a[0]] else [];
      assert c[0] == a[0] && c[1..] == a[1..] + b;
      HavingAppend(a[1..], b, key, v);
      calc {
        Having(c, key, v);
        head + Having(a[1..] + b, key, v);
        head + (Having(a[1..], key, v) + Having(b, key, v));
        (head + Having(a[1..], key, v)) + Having(b, key, v);
      }
    }
  }

  lemma {:induction false} HavingMember<T>(xs: seq<T>, key: T -> int, v: int, x: T)
    requires x in Having(xs, key, v)
    ensures x in xs && key(x) == v
    decreases |xs|
  {
    if x != xs[0] || key(xs[0]) != v {
      HavingMember(xs[1..], key, v, x);
    }
  }

  /** Filtering a list whose elements all have key `v`: by `v` it keeps them all, by any other
      value none. */
  lemma {:induction false} HavingUniform<T>(xs: seq<T>, key: T -> int, v: int, w: int)
    requires forall i :: 0 <= i < |xs| ==> key(xs[i]) == v
    ensures Having(xs, key, w) == if w == v then xs else []
    decreases |xs|
  {
    if xs != [] {
      HavingUniform(xs[1..], key, v, w);
      assert xs == [xs[0]] + xs[1..];
    }
  }

  lemma {:induction false} HavingNone<T>(xs: seq<T>, key: T -> int, v: int)
    requires forall i :: 0 <= i < |xs| ==> key(xs[i]) != v
    ensures Having(xs, key, v) == []
    decreases |xs|
  {
    if xs != [] {
      HavingNone(xs[1..], key, v);
    }
  }

  lemma {:induction false} AmongSplit<T>(xs: seq<T>, key: T -> int, init: seq<int>, last: int)
    requires last !in init
    ensures multiset(Among(xs, key, init + [last])) == multiset(Among(xs, key, init)) + multiset(Having(xs, key, last))
    decreases |xs|
  {
    if xs != [] {
      var x := xs[0];
      AmongSplit(xs[1..], key, init, last);
      assert key(x) in init + [last] <==> key(x) in init || key(x) == last;
      var both := Among(xs, key, init + [last]);
      assert both == (if key(x) in init + [last] then [x] else []) + Among(xs[1..], key, init + [last]);
      assert Among(xs, key, init) == (if key(x) in init then [x] else []) + Among(xs[1..], key, init);
      assert Having(xs, key, last) == (if key(x) == last then [x] else []) + Having(xs[1..], key, last);
    }
  }

  lemma {:induction false} AmongEmpty<T>(xs: seq<T>, key: T -> int)
    ensures Among(xs, key, []) == []
    decreases |xs|
  {
    if xs != [] {
      AmongEmpty(xs[1..], key);
    }
  }

  lemma {:induction false} AmongAll<T>(xs: seq<T>, key: T -> int, ns: seq<int>)
    requires forall i :: 0 <= i < |xs| ==> key(xs[i]) in ns
    ensures Among(xs, key, ns) == xs
    decreases |xs|
  {
    if xs != [] {
      AmongAll(xs[1..], key, ns);
      assert xs == [xs[0]] + xs[1..];
    }
  }

  // ---------------------------------------------------------------------------------------------
  // The specification of `prioritize`

  /** The keys of `ngram_ranks` after the first loop: the token counts in order of first
      appearance. */
  function FirstSeen(ks: seq<string>, key: string -> int): seq<int>
    decreases |ks|
  {
    if ks == [] then []
    else
      var seen := FirstSeen(ks[..|ks| - 1], key);
      if key(ks[|ks| - 1]) in seen then seen else seen + [key(ks[|ks| - 1])]
  }

  /** `ngram_ranks[n]` after the first loop: the keys with `n` tokens, in dictionary order. */
  function Bucket(rules: Rules, n: int): seq<string> {
    Having(rules.order, Tok(rules), n)
  }

  /** `ngram_ranks[n]` after the second loop. */
  function Block(rules: Rules, n: int, reverse: bool): seq<string> {
    SortBy(Bucket(rules, n), Len(rules), reverse)
  }

  /** The third loop: the blocks of the token counts `ns`, one after the other. */
  function Blocks(rules: Rules, ns: seq<int>, reverse: bool): seq<string>
    decreases |ns|
  {
    if ns == [] then [] else Blocks(rules, ns[..|ns| - 1], reverse) + Block(rules, ns[|ns| - 1], reverse)
  }

  /** The list `prioritize` returns for a valid `sort`. */
  function Prioritized(rules: Rules, reverse: bool): seq<string> {
    Blocks(rules, SortBy(FirstSeen(rules.order, Tok(rules)), Identity(), reverse), reverse)
  }

  /** `x` may come before `y`: fewer tokens, or as many and a pattern no longer (both reversed for
      `complex-to-simple`). */
  predicate Precedes(rules: Rules, x: string, y: string, reverse: bool) {
    if Tok(rules)(x) != Tok(rules)(y) then Le(Tok(rules)(x), Tok(rules)(y), reverse)
    else Le(Len(rules)(x), Len(rules)(y), reverse)
  }

  /** The keys of `xs` with `t` tokens and a pattern of length `l`, in order. */
  function Ties(xs: seq<string>, rules: Rules, t: int, l: int): seq<string> {
    Having(Having(xs, Tok(rules), t), Len(rules), l)
  }

  lemma {:induction false} FirstSeenSpec(ks: seq<string>, key: string -> int)
    ensures PyDict.NoDuplicates(FirstSeen(ks, key))
    ensures forall i :: 0 <= i < |ks| ==> key(ks[i]) in FirstSeen(ks, key)
    decreases |ks|
  {
    if ks != [] {
      var init := ks[..|ks| - 1];
      FirstSeenSpec(init, key);
      assert forall i :: 0 <= i < |init| ==> ks[i] == init[i];
    }
  }

  lemma {:induction false} BlockMember(rules: Rules, n: int, reverse: bool, x: string)
    requires x in Block(rules, n, reverse)
    ensures Tok(rules)(x) == n
  {
    SortByMultiset(Bucket(rules, n), Len(rules), reverse);
    assert x in multiset(Bucket(rules, n));
    HavingMember(rules.order, Tok(rules), n, x);
  }

  lemma {:induction false} BlocksMember(rules: Rules, ns: seq<int>, reverse: bool, x: string)
    requires x in Blocks(rules, ns, reverse)
    ensures Tok(rules)(x) in ns
    decreases |ns|
  {
    var init := ns[..|ns| - 1];
    if x in Blocks(rules, init, reverse) {
      BlocksMember(rules, init, reverse, x);
    } else {
      BlockMember(rules, ns[|ns| - 1], reverse, x);
    }
  }

  lemma {:induction false} BlocksMultiset(rules: Rules, ns: seq<int>, reverse: bool)
    requires PyDict.NoDuplicates(ns)
    ensures multiset(Blocks(rules, ns, reverse)) == multiset(Among(rules.order, Tok(rules), ns))
    decreases |ns|
  {
    if ns == [] {
      AmongEmpty(rules.order, Tok(rules));
    } else {
      var init := ns[..|ns| - 1];
      var last := ns[|ns| - 1];
      BlocksMultiset(rules, init, reverse);
      SortByMultiset(Bucket(rules, last), Len(rules), reverse);
      assert ns == init + [last];
      AmongSplit(rules.order, Tok(rules), init, last);
    }
  }

  /** Filtering the blocks by a token count gives that count's block, or nothing. */
  lemma {:induction false} HavingBlocks(rules: Rules, ns: seq<int>, reverse: bool, t: int)
    requires PyDict.NoDuplicates(ns)
    ensures Having(Blocks(rules, ns, reverse), Tok(rules), t) == if t in ns then Block(rules, t, reverse) else []
    decreases |ns|
  {
    if ns != [] {
      var init := ns[..|ns| - 1];
      var last := ns[|ns| - 1];
      assert ns == init + [last];
      HavingBlocks(rules, init, reverse, t);
      HavingAppend(Blocks(rules, init, reverse), Block(rules, last, reverse), Tok(rules), t);
      var b := Block(rules, last, reverse);
      forall i | 0 <= i < |b| ensures Tok(rules)(b[i]) == last {
        BlockMember(rules, last, reverse, b[i]);
      }
      HavingUniform(b, Tok(rules), last, t);
    }
  }

  /** With token counts in strict order, the blocks are ordered by `Precedes`. */
  lemma {:induction false} BlocksOrdered(rules: Rules, ns: seq<int>, reverse: bool)
    requires PyDict.NoDuplicates(ns) && Sorted(ns, Identity(), reverse)
    ensures var p := Blocks(rules, ns, reverse);
      forall i, j :: 0 <= i < j < |p| ==> Precedes(rules, p[i], p[j], reverse)
    decreases |ns|
  {
    if ns != [] {
      var init := ns[..|ns| - 1];
      var last := ns[|ns| - 1];
      assert forall i, j :: 0 <= i < j < |init| ==> init[i] == ns[i] && init[j] == ns[j];
      BlocksOrdered(rules, init, reverse);
      var a := Blocks(rules, init, reverse);
      var b := Block(rules, last, reverse);
      SortBySorted(Bucket(rules, last), Len(rules), reverse);
      forall i | 0 <= i < |b| ensures Tok(rules)(b[i]) == last {
        BlockMember(rules, last, reverse, b[i]);
      }
      forall i | 0 <= i < |a|
        ensures Tok(rules)(a[i]) != last && Le(Tok(rules)(a[i]), last, reverse)
      {
        BlocksMember(rules, init, reverse, a[i]);
        var m :| 0 <= m < |init| && init[m] == Tok(rules)(a[i]);
        assert Identity()(ns[m]) == ns[m] && Identity()(ns[|ns| - 1]) == last;
      }
      var p := a + b;
      forall i, j | 0 <= i < j < |p| ensures Precedes(rules, p[i], p[j], reverse) {
        if j < |a| {
          assert p[i] == a[i] && p[j] == a[j];
        } else if i >= |a| {
          assert p[i] == b[i - |a|] && p[j] == b[j - |a|];
        } else {
          assert p[i] == a[i] && p[j] == b[j - |a|];
        }
      }
    }
  }

  /** The token counts in the order the third loop visits them: distinct, in strict order, and
      covering every rule. */
  lemma NOrderSpec(rules: Rules, reverse: bool)
    ensures var ns := SortBy(FirstSeen(rules.order, Tok(rules)), Identity(), reverse);
      PyDict.NoDuplicates(ns) && Sorted(ns, Identity(), reverse)
      && forall i :: 0 <= i < |rules.order| ==> Tok(rules)(rules.order[i]) in ns
  {
    var seen := FirstSeen(rules.order, Tok(rules));
    FirstSeenSpec(rules.order, Tok(rules));
    SortByDistinct(seen, Identity(), reverse);
    SortBySorted(seen, Identity(), reverse);
    SortByMultiset(seen, Identity(), reverse);
    var ns := SortBy(seen, Identity(), reverse);
    forall i | 0 <= i < |rules.order| ensures Tok(rules)(rules.order[i]) in ns {
      assert Tok(rules)(rules.order[i]) in multiset(seen);
    }
  }

  /** `prioritize` returns a permutation of the rule keys, ordered by token count and then by
      pattern length (both ascending for `simple-to-complex`, both descending otherwise), and keys
      that tie on both measures keep their dictionary order. */
  lemma PrioritizedSpec(rules: Rules, reverse: bool)
    ensures multiset(Prioritized(rules, reverse)) == multiset(rules.order)
    ensures var p := Prioritized(rules, reverse);
      forall i, j :: 0 <= i < j < |p| ==> Precedes(rules, p[i], p[j], reverse)
    ensures forall t, l :: Ties(Prioritized(rules, reverse), rules, t, l) == Ties(rules.order, rules, t, l)
  {
    var ns := SortBy(FirstSeen(rules.order, Tok(rules)), Identity(), reverse);
    NOrderSpec(rules, reverse);
    BlocksMultiset(rules, ns, reverse);
    AmongAll(rules.order, Tok(rules), ns);
    BlocksOrdered(rules, ns, reverse);
    forall t, l ensures Ties(Prioritized(rules, reverse), rules, t, l) == Ties(rules.order, rules, t, l) {
      HavingBlocks(rules, ns, reverse, t);
      if t in ns {
        SortByStable(Bucket(rules, t), Len(rules), reverse, l);
      } else {
        HavingNone(rules.order, Tok(rules), t);
      }
    }
  }

  // ---------------------------------------------------------------------------------------------
  // `prioritize`

  /** `prioritize(rules, sort)`: AssertionError for any other `sort`; otherwise the three loops
      over `ngram_ranks` build exactly `Prioritized`. */
  method Prioritize(rules: Rules, sort: string) returns (r: Outcome<seq<string>>)
    requires PyDict.Valid(rules)
    ensures sort != SimpleToComplex && sort != ComplexToSimple ==> r == Raise(AssertionError)
    ensures sort == SimpleToComplex || sort == ComplexToSimple ==>
      r == Ok(Prioritized(rules, sort != SimpleToComplex))
  {
    if sort != SimpleToComplex && sort != ComplexToSimple {
      return Raise(AssertionError);
    }
    var reverse := sort != SimpleToComplex;
    var ranks := Buckets(rules);
    ranks := SortBuckets(rules, ranks, reverse);
    var nOrder := SortBy(ranks.order, Identity(), reverse);
    SortByMultiset(ranks.order, Identity(), reverse);
    var priority := [];
    for j := 0 to |nOrder|
      invariant priority == Blocks(rules, nOrder[..j], reverse)
    {
      assert nOrder[j] in multiset(ranks.order);
      assert nOrder[..j + 1][..j] == nOrder[..j];
      priority := priority + ranks.entries[nOrder[j]];
    }
    assert nOrder[..|nOrder|] == nOrder;
    return Ok(priority);
  }

  /** One more key in the first loop. */
  lemma HavingSnoc<T>(xs: seq<T>, i: nat, key: T -> int, m: int)
    requires i < |xs|
    ensures Having(xs[..i + 1], key, m) == Having(xs[..i], key, m) + (if key(xs[i]) == m then [xs[i]] else [])
  {
    assert xs[..i + 1] == xs[..i] + [xs[i]];
    HavingAppend(xs[..i], [xs[i]], key, m);
  }

  lemma FirstSeenSnoc(xs: seq<string>, i: nat, key: string -> int)
    requires i < |xs|
    ensures FirstSeen(xs[..i + 1], key) ==
      if key(xs[i]) in FirstSeen(xs[..i], key) then FirstSeen(xs[..i], key) else FirstSeen(xs[..i], key) + [key(xs[i])]
  {
    assert xs[..i + 1][..i] == xs[..i];
  }

  /** The first loop: `ngram_ranks[len(rule.split())].append(key)` for every rule in order. */
  method Buckets(rules: Rules) returns (ranks: PyDict.Dict<int, seq<string>>)
    requires PyDict.Valid(rules)
    ensures PyDict.Valid(ranks) && ranks.order == FirstSeen(rules.order, Tok(rules))
    ensures forall n :: n in ranks.entries ==> ranks.entries[n] == Bucket(rules, n)
  {
    ranks := PyDict.Empty();
    for i := 0 to |rules.order|
      invariant PyDict.Valid(ranks) && ranks.order == FirstSeen(rules.order[..i], Tok(rules))
      invariant forall n :: n in ranks.entries ==> ranks.entries[n] == Having(rules.order[..i], Tok(rules), n)
      invariant forall n :: n !in ranks.entries ==> Having(rules.order[..i], Tok(rules), n) == []
    {
      var key := rules.order[i];
      var n := |Split(rules.entries[key])|;
      assert Tok(rules)(key) == n;
      var bucket := if n in ranks.entries then ranks.entries[n] else [];
      PyDict.PutSpec(ranks, n, bucket + [key]);
      FirstSeenSnoc(rules.order, i, Tok(rules));
      forall m ensures Having(rules.order[..i + 1], Tok(rules), m)
                       == Having(rules.order[..i], Tok(rules), m) + (if m == n then [key] else []) {
        HavingSnoc(rules.order, i, Tok(rules), m);
      }
      ranks := PyDict.Put(ranks, n, bucket + [key]);
    }
    assert rules.order[..|rules.order|] == rules.order;
  }

  /** The second loop: every bucket sorted by pattern length. */
  method SortBuckets(rules: Rules, ranks0: PyDict.Dict<int, seq<string>>, reverse: bool)
    returns (ranks: PyDict.Dict<int, seq<string>>)
    requires PyDict.Valid(ranks0)
    requires forall n :: n in ranks0.entries ==> ranks0.entries[n] == Bucket(rules, n)
    ensures PyDict.Valid(ranks) && ranks.order == ranks0.order
    ensures forall n :: n in ranks.entries ==> ranks.entries[n] == Block(rules, n, reverse)
  {
    ranks := ranks0;
    var keys := ranks0.order;
    for j := 0 to |keys|
      invariant PyDict.Valid(ranks) && ranks.order == keys
      invariant forall m :: 0 <= m < j ==> ranks.entries[keys[m]] == Block(rules, keys[m], reverse)
      invariant forall m :: j <= m < |keys| ==> ranks.entries[keys[m]] == Bucket(rules, keys[m])
    {
      var n := keys[j];
      var sorted := SortBy(ranks.entries[n], Len(rules), reverse);
      assert sorted == Block(rules, n, reverse);
      PyDict.PutSpec(ranks, n, sorted);
      assert forall m :: 0 <= m < |keys| && m != j ==> keys[m] != n;
      ranks := PyDict.Put(ranks, n, sorted);
    }
  }
}
