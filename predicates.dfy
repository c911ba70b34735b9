/** The predicate-frame lexicon: a verb frame with its argument roles and its relation mappings,
    the lexicon's two indexes from lemmas and from surface forms to frames, and the
    normalisation of a frame id read from a frame file. */
module Predicates {
  import opened Outcomes
  import opened PyStr

  /** Which class built a frame: `VerbFrame`, or one of `PropBankFrame`, `ETRIFrame` and
      `ModuFrame`, which only forward to its constructor. */
  datatype FrameSource = Plain | PropBank | Etri | Modu

  /** `re.search(r'^[\dA]$', argnum)`: one digit or `A`, optionally followed by a final newline,
      before which `$` also matches. */
  predicate ArgnumOk(argnum: string) {
    (|argnum| == 1 || (|argnum| == 2 && argnum[1] == '\n')) && (IsDigit(argnum[0]) || argnum[0] == 'A')
  }

  /** The roleset after `add_argrole` files the stripped `argrole` under `key`: a new key holds
      the role alone, an existing one gets it appended after ` | `. */
  function AddedRole(roleset: map<string, string>, key: string, argrole: string): map<string, string> {
    roleset[key := if key in roleset then roleset[key] + " | " + Strip(argrole) else Strip(argrole)]
  }

  /** The mappings after `add_mapping(rel, src, trg)`: the inner map of `rel`, created empty when
      missing, maps `trg` to `src`. */
  function Mapped(mappings: map<string, map<string, string>>, rel: string, src: string, trg: string)
    : map<string, map<string, string>>
  {
    mappings[rel := (if rel in mappings then mappings[rel] else map[])[trg := src]]
  }

  /** One of the lexicon's indexes after adding `frame` under `k`: the set is created on first
      use. */
  function Added<K, V>(index: map<K, set<V>>, k: K, frame: V): map<K, set<V>> {
    index[k := (if k in index then index[k] else {}) + {frame}]
  }

  /** The frame id of a frame file entry: the stripped text with each `.` turned into `-` and
      its words joined by `-`. */
  function FrameId(text: string): string {
    Join(Split(ReplaceChar(Strip(text), '.', '-')), "-")
  }

  // ---------------------------------------------------------------------------------------------
  // Frames and the lexicon

  /** `VerbFrame` (and its three subclasses). */
  class VerbFrame {
    const source: FrameSource
    const filename: string
    /** the frame's `lemma` */
    const lemmaText: string
    const frameId: string
    const edef: Option<string>
    const kdef: Option<string>
    /** `'ARG' + argnum` to its role descriptions */
    var roleset: map<string, string>
    /** relation to target argument to source argument */
    var mappings: map<string, map<string, string>>

    /** A new frame has no roles and no mappings. */
    constructor(source: FrameSource, filename: string, lemmaText: string, frameId: string,
                edef: Option<string>, kdef: Option<string>)
      ensures this.source == source && this.filename == filename && this.lemmaText == lemmaText
      ensures this.frameId == frameId && this.edef == edef && this.kdef == kdef
      ensures roleset == map[] && mappings == map[]
    {
      this.source := source;
      this.filename := filename;
      this.lemmaText := lemmaText;
      this.frameId := frameId;
      this.edef := edef;
      this.kdef := kdef;
      roleset := map[];
      mappings := map[];
    }

    /** `add_argrole(argnum, argrole)`: AssertionError unless `argnum` is a digit or `A`. */
    method AddArgrole(argnum: string, argrole: string) returns (r: Outcome<()>)
      modifies this
      ensures !ArgnumOk(argnum) ==> r == Raise(AssertionError) && roleset == old(roleset)
      ensures ArgnumOk(argnum) ==> r == Ok(()) && roleset == AddedRole(old(roleset), "ARG" + argnum, argrole)
      ensures mappings == old(mappings)
    {
      if !ArgnumOk(argnum) {
        return Raise(AssertionError);
      }
      var key := "ARG" + argnum;
      if key in roleset {
        roleset := roleset[key := roleset[key] + " | " + Strip(argrole)];
      } else {
        roleset := roleset[key := Strip(argrole)];
      }
      r := Ok(());
    }

    /** `add_mapping(rel, src, trg)` */
    method AddMapping(rel: string, src: string, trg: string)
      modifies this
      ensures mappings == Mapped(old(mappings), rel, src, trg)
      ensures roleset == old(roleset)
    {
      if rel !in mappings {
        mappings := mappings[rel := map[]];
      }
      mappings := mappings[rel := mappings[rel][trg := src]];
    }
  }

  /** `Lexicon`: the frame files found (`glob` is outside the model) and the two indexes. */
  class Lexicon {
    const frameFiles: seq<string>
    var lemmaToFrames: map<string, set<VerbFrame>>
    var formToFrames: map<string, set<VerbFrame>>

    constructor(frameFiles: seq<string>)
      ensures this.frameFiles == frameFiles && lemmaToFrames == map[] && formToFrames == map[]
    {
      this.frameFiles := frameFiles;
      lemmaToFrames := map[];
      formToFrames := map[];
    }

    /** `add_form(form, frame)` */
    method AddForm(form: string, frame: VerbFrame)
      modifies this
      ensures formToFrames == Added(old(formToFrames), form, frame)
      ensures lemmaToFrames == old(lemmaToFrames)
    {
      if form !in formToFrames {
        formToFrames := formToFrames[form := {}];
      }
      formToFrames := formToFrames[form := formToFrames[form] + {frame}];
    }

    /** `add_frame(lemma, frame)` */
    method AddFrame(lemmaText: string, frame: VerbFrame)
      modifies this
      ensures lemmaToFrames == Added(old(lemmaToFrames), lemmaText, frame)
      ensures formToFrames == old(formToFrames)
    {
      if lemmaText !in lemmaToFrames {
        lemmaToFrames := lemmaToFrames[lemmaText := {}];
      }
      lemmaToFrames := lemmaToFrames[lemmaText := lemmaToFrames[lemmaText] + {frame}];
    }
  }

  // ---------------------------------------------------------------------------------------------
  // Roles

  /** The roleset a fresh frame has after the `add_argrole` calls `calls`, each an
      `(argnum, argrole)` pair with an accepted `argnum`. */
  function Replay(calls: seq<(string, string)>): map<string, string>
    decreases |calls|
  {
    if calls == [] then map[]
    else
      var last := calls[|calls| - 1];
      AddedRole(Replay(calls[..|calls| - 1]), "ARG" + last.0, last.1)
  }

  /** The stripped role descriptions filed under `key` by `calls`, in call order. */
  function RolesUnder(calls: seq<(string, string)>, key: string): seq<string>
    decreases |calls|
  {
    if calls == [] then []
    else
      var last := calls[|calls| - 1];
      RolesUnder(calls[..|calls| - 1], key) + (if "ARG" + last.0 == key then [Strip(last.1)] else [])
  }

  /** Each key of the replayed roleset holds the roles filed under it joined by ` | `, and a key
      is present exactly when some call filed a role under it. */
  lemma {:induction false} ReplaySpec(calls: seq<(string, string)>, key: string)
    ensures key in Replay(calls) <==> RolesUnder(calls, key) != []
    ensures key in Replay(calls) ==> Replay(calls)[key] == Join(RolesUnder(calls, key), " | ")
    decreases |calls|
  {
    if calls != [] {
      var init := calls[..|calls| - 1];
      ReplaySpec(init, key);
      var last := calls[|calls| - 1];
      var before := RolesUnder(init, key);
      if "ARG" + last.0 == key {
        assert RolesUnder(calls, key) == before + [Strip(last.1)];
        if before != [] {
          JoinSnoc(before, Strip(last.1), " | ");
        } else {
          assert RolesUnder(calls, key) == [Strip(last.1)];
        }
      } else {
        assert RolesUnder(calls, key) == before;
      }
    }
  }

  // ---------------------------------------------------------------------------------------------
  // Mappings

  /** After `add_mapping(rel, src, trg)`, `mappings[rel][trg]` is `src`; every other relation and
      every other target keeps its value, and no relation is lost. */
  lemma MappedSpec(m: map<string, map<string, string>>, rel: string, src: string, trg: string)
    ensures var m' := Mapped(m, rel, src, trg);
      rel in m' && trg in m'[rel] && m'[rel][trg] == src
      && m'.Keys == m.Keys + {rel}
      && (forall r :: r in m && r != rel ==> m'[r] == m[r])
      && (rel in m ==> m'[rel].Keys == m[rel].Keys + {trg} && forall t :: t in m[rel] && t != trg ==> m'[rel][t] == m[rel][t])
      && (rel !in m ==> m'[rel] == map[trg := src])
  {
  }

  /** A later mapping of the same relation and target wins; repeating one changes nothing. */
  lemma MappedOverwrite(m: map<string, map<string, string>>, rel: string, src1: string, src2: string, trg: string)
    ensures Mapped(Mapped(m, rel, src1, trg), rel, src2, trg) == Mapped(m, rel, src2, trg)
    ensures Mapped(Mapped(m, rel, src1, trg), rel, src1, trg) == Mapped(m, rel, src1, trg)
  {
    var inner := if rel in m then m[rel] else map[];
    assert Mapped(Mapped(m, rel, src1, trg), rel, src2, trg)[rel] == inner[trg := src2];
    assert Mapped(Mapped(m, rel, src1, trg), rel, src1, trg)[rel] == inner[trg := src1];
  }

  // ---------------------------------------------------------------------------------------------
  // Lexicon indexes

  /** After adding, the key holds its old frames and the new one, and nothing else changes. */
  lemma AddedSpec<K, V>(index: map<K, set<V>>, k: K, frame: V)
    ensures var i' := Added(index, k, frame);
      k in i' && frame in i'[k] && i'.Keys == index.Keys + {k}
      && (k in index ==> i'[k] == index[k] + {frame})
      && (k !in index ==> i'[k] == {frame})
      && forall j :: j in index && j != k ==> i'[j] == index[j]
  {
  }

  /** Re-adding a frame already filed under the key changes nothing; so adding twice is adding
      once. */
  lemma AddedPresent<K, V>(index: map<K, set<V>>, k: K, frame: V)
    requires k in index && frame in index[k]
    ensures Added(index, k, frame) == index
  {
    assert index[k] + {frame} == index[k];
  }

  lemma AddedTwice<K, V>(index: map<K, set<V>>, k: K, frame: V)
    ensures Added(Added(index, k, frame), k, frame) == Added(index, k, frame)
  {
    AddedPresent(Added(index, k, frame), k, frame);
  }

  // ---------------------------------------------------------------------------------------------
  // Frame ids

  /** Every character of a word of `s.split()` is a character of `s`. */
  lemma {:induction false} SplitChars(s: string)
    ensures forall k, j :: 0 <= k < |Split(s)| && 0 <= j < |Split(s)[k]| ==> Split(s)[k][j] in s
    decreases |s|
  {
    var t := LStrip(s);
    LStripSpec(s);
    if t != [] {
      var n := WordLen(t);
      WordLenSpec(t);
      SplitChars(t[n..]);
      var ws := Split(s);
      assert ws == [t[..n]] + Split(t[n..]);
      forall k, j | 0 <= k < |ws| && 0 <= j < |ws[k]| ensures ws[k][j] in s {
        if k == 0 {
          assert ws[0][j] == t[j] == s[|s| - |t| + j];
        } else {
          assert ws[k] == Split(t[n..])[k - 1];
          var c := ws[k][j];
          assert c in t[n..];
          var i :| 0 <= i < |t[n..]| && t[n..][i] == c;
          assert c == s[|s| - |t| + n + i];
        }
      }
    }
  }

  /** Every character of `sep.join(ws)` is a character of `sep` or of one of the words. */
  lemma {:induction false} JoinChars(ws: seq<string>, sep: string)
    ensures forall i :: 0 <= i < |Join(ws, sep)| ==>
      Join(ws, sep)[i] in sep || exists k :: 0 <= k < |ws| && Join(ws, sep)[i] in ws[k]
    decreases |ws|
  {
    if |ws| > 1 {
      JoinChars(ws[1..], sep);
      var j := Join(ws, sep);
      var rest := Join(ws[1..], sep);
      assert j == ws[0] + sep + rest;
      forall i | 0 <= i < |j| ensures j[i] in sep || exists k :: 0 <= k < |ws| && j[i] in ws[k] {
        if i < |ws[0]| {
          assert j[i] == ws[0][i];
        } else if i < |ws[0]| + |sep| {
          assert j[i] == sep[i - |ws[0]|];
        } else {
          assert j[i] == rest[i - |ws[0]| - |sep|];
          if j[i] !in sep {
            var k :| 0 <= k < |ws[1..]| && j[i] in ws[1..][k];
            assert j[i] in ws[k + 1];
          }
        }
      }
    } else if |ws| == 1 {
      assert Join(ws, sep) == ws[0];
    }
  }

  /** A frame id contains no `.` and no whitespace. */
  lemma FrameIdClean(text: string)
    ensures forall i :: 0 <= i < |FrameId(text)| ==> FrameId(text)[i] != '.' && !IsSpace(FrameId(text)[i])
  {
    var d := ReplaceChar(Strip(text), '.', '-');
    var ws := Split(d);
    SplitChars(d);
    SplitWords(d);
    JoinChars(ws, "-");
    forall i | 0 <= i < |FrameId(text)| ensures FrameId(text)[i] != '.' && !IsSpace(FrameId(text)[i]) {
      var c := FrameId(text)[i];
      if c !in "-" {
        var k :| 0 <= k < |ws| && c in ws[k];
        var j :| 0 <= j < |ws[k]| && ws[k][j] == c;
        assert c in d;
        assert !IsSpace(c);
      }
    }
  }

  /** A frame id is its own frame id: normalising twice is normalising once. */
  lemma FrameIdIdempotent(text: string)
    ensures FrameId(FrameId(text)) == FrameId(text)
  {
    var f := FrameId(text);
    FrameIdClean(text);
    LStripNoSpaceStart(f);
    assert RStrip(f) == f;
    assert ReplaceChar(f, '.', '-') == f;
    if f == [] {
      assert Split(f) == [];
    } else {
      assert NoSpace(f);
      WordLenNoSpace(f);
      assert f[..|f|] == f && f[|f|..] == [];
      assert Split(f) == [f] + Split([]);
    }
  }
}
