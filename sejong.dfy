/** The idiomatic verb-frame table read from the Sejong dictionary: theta-role descriptions
    parsed into role tuples, the frame entries, the table keyed by frame name, and the frame
    name built from a headword and a sense number. */
module Sejong {
  import opened Outcomes
  import opened PyStr

  // ---------------------------------------------------------------------------------------------
  // parse_theta_role

  /** `parse_theta_role(desc)`: `[None]` for a missing or empty description; otherwise one tuple
      per whitespace token, the token split on `=`. */
  function ParseThetaRole(desc: Option<string>): seq<Option<seq<string>>> {
    if desc.None? || desc.value == [] then [None]
    else
      var tokens := Split(Strip(desc.value));
      seq(|tokens|, i requires 0 <= i < |tokens| => Some(SplitOn(tokens[i], '=')))
  }

  /** Joining the pieces of `s.split(sep)` with `sep` gives `s` back. */
  lemma {:induction false} SplitOnJoin(s: string, sep: char)
    ensures Join(SplitOn(s, sep), [sep]) == s
    decreases |s|
  {
    if s != [] {
      SplitOnJoin(s[1..], sep);
      var rest := SplitOn(s[1..], sep);
      if s[0] == sep {
        assert SplitOn(s, sep) == [[]] + rest;
        assert Join([[]] + rest, [sep]) == [] + [sep] + Join(rest, [sep]) by {
          JoinCons([], rest, [sep]);
        }
        assert [sep] + s[1..] == s;
      } else {
        var pieces := SplitOn(s, sep);
        assert pieces == [[s[0]] + rest[0]] + rest[1..];
        if |rest| == 1 {
          assert Join(pieces, [sep]) == [s[0]] + rest[0];
          assert Join(rest, [sep]) == rest[0];
        } else {
          JoinCons([s[0]] + rest[0], rest[1..], [sep]);
          JoinCons(rest[0], rest[1..], [sep]);
          assert rest == [rest[0]] + rest[1..];
        }
        assert [s[0]] + s[1..] == s;
      }
    }
  }

  /** A missing or empty description gives `[None]`; any other gives one tuple per token of its
      stripped text, and joining a tuple with `=` gives its token back. A description of blanks
      only gives no tuple at all. */
  lemma ParseThetaRoleSpec(desc: Option<string>)
    ensures desc.None? || desc.value == [] ==> ParseThetaRole(desc) == [None]
    ensures desc.Some? && desc.value != [] ==>
      var tokens := Split(desc.value);
      var r := ParseThetaRole(desc);
      |r| == |tokens|
      && forall i :: 0 <= i < |r| ==>
           r[i].Some? && r[i].value == SplitOn(tokens[i], '=') && |r[i].value| >= 1
           && Join(r[i].value, "=") == tokens[i]
    ensures desc.Some? && desc.value != [] && AllSpace(desc.value) ==> ParseThetaRole(desc) == []
  {
    if desc.Some? && desc.value != [] {
      SplitStrip(desc.value);
      var tokens := Split(desc.value);
      forall i | 0 <= i < |tokens| ensures Join(SplitOn(tokens[i], '='), "=") == tokens[i] {
        SplitOnJoin(tokens[i], '=');
      }
      if AllSpace(desc.value) {
        SplitAllSpace(desc.value);
      }
    }
  }

  // ---------------------------------------------------------------------------------------------
  // Frames and the table

  /** `VerbFrame(form, frame)`, an `Entry`: `Entry.__init__` ignores its `form` argument, so the
      form is always None. */
  class VerbFrame {
    var form: Option<string>
    var frame: Option<string>
    var lemmaText: Option<string>
    var edef: Option<string>
    var roleset: map<string, string>
    /** frame template to example sentences */
    var examples: map<string, set<string>>

    constructor(form: Option<string>, frame: Option<string>)
      ensures this.form == None && this.frame == frame
      ensures lemmaText == None && edef == None && roleset == map[] && examples == map[]
    {
      this.form := None;
      this.frame := frame;
      lemmaText := None;
      edef := None;
      roleset := map[];
      examples := map[];
    }
  }

  /** `IdiomaticVerbFrames`, a `Lexicon`: entries keyed by frame name and the time of the last
      save (None until pickled; the clock is outside the model). */
  class IdiomaticVerbFrames {
    var entries: map<Option<string>, VerbFrame>
    var update: Option<string>

    constructor()
      ensures entries == map[] && update == None
    {
      entries := map[];
      update := None;
    }

    /** `len(lexicon)` */
    function Length(): (n: nat)
      reads this
      ensures n == |entries.Keys|
    {
      assert |entries| == |entries.Keys|;
      |entries|
    }

    /** `add_entry(item)`: the entry is filed under its frame name, replacing any entry with the
        same name. */
    method AddEntry(item: VerbFrame)
      modifies this
      ensures entries == old(entries)[item.frame := item]
      ensures update == old(update)
    {
      entries := entries[item.frame := item];
    }
  }

  /** Filing an entry under a name adds one to the length when the name is new and leaves it
      unchanged when the entry replaces another. */
  lemma FiledLength<K, V>(entries: map<K, V>, k: K, v: V)
    ensures k in entries ==> |entries[k := v].Keys| == |entries.Keys|
    ensures k !in entries ==> |entries[k := v].Keys| == |entries.Keys| + 1
    ensures k in entries[k := v] && entries[k := v][k] == v
    ensures forall j :: j in entries && j != k ==> entries[k := v][j] == entries[j]
  {
    assert entries[k := v].Keys == entries.Keys + {k};
    if k in entries {
      assert entries.Keys + {k} == entries.Keys;
    }
  }

  // ---------------------------------------------------------------------------------------------
  // Frame names

  /** The frame name of sense `n` of the headword `orthText`: the words of the whitespace-collapsed
      headword and the sense number zero-padded to two digits, joined by `-`. AttributeError when
      the sense has no `n` attribute. */
  function FrameName(orthText: string, n: Option<string>): Outcome<string> {
    var orth := Normalize(orthText);
    if n.None? then Raise(AttributeError) else Ok(Join(Split(orth) + [ZFill(n.value, 2)], "-"))
  }

  /** A frame name is the headword's words, then the padded sense number, all joined by `-`; the
      padded number has at least two characters, and a sense number with two or more digits is
      kept as it is. */
  lemma FrameNameSpec(orthText: string, n: string)
    ensures var words := Split(orthText);
      FrameName(orthText, Some(n)) == Ok(if words == [] then ZFill(n, 2) else Join(words, "-") + "-" + ZFill(n, 2))
    ensures |ZFill(n, 2)| >= 2
    ensures |n| >= 2 ==> ZFill(n, 2) == n
    ensures FrameName(orthText, None) == Raise(AttributeError)
  {
    SplitNormalize(orthText);
    ZFillWidth(n, 2);
    var words := Split(orthText);
    if words != [] {
      JoinSnoc(words, ZFill(n, 2), "-");
    } else {
      assert words + [ZFill(n, 2)] == [ZFill(n, 2)];
    }
  }
}
