/** Python string built-ins the core relies on: whitespace as CPython defines it for
    `str.isspace`, `str.strip`, `str.split()` and the `\s` class of `re` on str patterns,
    plus joining, prefix tests, `str(int)`, `str.split(sep)`, `str.replace` and `str.zfill`. */
module PyStr {

  /** CPython's Py_UNICODE_ISSPACE: the characters `str.split()`, `str.strip()` and `\s` treat
      as whitespace. */
  predicate IsSpace(c: char) {
    ('\t' <= c <= '\r') || ('\U{1c}' <= c <= '\U{1f}') || c == ' ' || c == '\U{85}' || c == '\U{a0}'
    || c == '\U{1680}' || ('\U{2000}' <= c <= '\U{200a}') || c == '\U{2028}' || c == '\U{2029}'
    || c == '\U{202f}' || c == '\U{205f}' || c == '\U{3000}'
  }

  /** The characters `\d` matches, taken as the ASCII digits. */
  predicate IsDigit(c: char) {
    '0' <= c <= '9'
  }

  predicate NoSpace(s: string) {
    forall i :: 0 <= i < |s| ==> !IsSpace(s[i])
  }

  predicate AllSpace(s: string) {
    forall i :: 0 <= i < |s| ==> IsSpace(s[i])
  }

  /** `s.lstrip()` */
  function LStrip(s: string): (r: string)
    ensures |r| <= |s|
    ensures r == [] || !IsSpace(r[0])
  {
    if s != [] && IsSpace(s[0]) then LStrip(s[1..]) else s
  }

  /** `s.rstrip()` */
  function RStrip(s: string): (r: string)
    ensures |r| <= |s|
    ensures r == [] || !IsSpace(r[|r| - 1])
  {
    if s != [] && IsSpace(s[|s| - 1]) then RStrip(s[..|s| - 1]) else s
  }

  /** `s.strip()` */
  function Strip(s: string): string {
    RStrip(LStrip(s))
  }

  /** Length of the leading run of non-space characters. */
  function WordLen(s: string): (k: nat)
    ensures k <= |s|
  {
    if s == [] || IsSpace(s[0]) then 0 else 1 + WordLen(s[1..])
  }

  /** `s.split()`: the maximal runs of non-space characters, in order. */
  function Split(s: string): (ws: seq<string>)
    decreases |s|
  {
    var t := LStrip(s);
    if t == [] then [] else
      var k := WordLen(t);
      [t[..k]] + Split(t[k..])
  }

  /** A word as `str.split()` produces it: non-empty, without whitespace. */
  predicate IsWord(w: string) {
    w != [] && NoSpace(w)
  }

  /** `sep.join(ws)` */
  function Join(ws: seq<string>, sep: string): string {
    if ws == [] then [] else if |ws| == 1 then ws[0] else ws[0] + sep + Join(ws[1..], sep)
  }

  /** `''.join(ws)` */
  function Concat(ws: seq<string>): string {
    if ws == [] then [] else ws[0] + Concat(ws[1..])
  }

  /** `re.sub(r'\s+', ' ', s)`: every maximal run of whitespace becomes one blank. */
  function CollapseSpaces(s: string): string
    decreases |s|
  {
    if s == [] then []
    else if IsSpace(s[0]) then " " + CollapseSpaces(LStrip(s))
    else [s[0]] + CollapseSpaces(s[1..])
  }

  /** `re.sub(r'\s+', ' ', s.strip())`, the normalisation every concept variant applies to its text. */
  function Normalize(s: string): string {
    CollapseSpaces(Strip(s))
  }

  /** `s.startswith(p)` */
  predicate StartsWith(s: string, p: string) {
    p == [] || (s != [] && s[0] == p[0] && StartsWith(s[1..], p[1..]))
  }

  predicate EndsWith(s: string, p: string) {
    |p| <= |s| && s[|s| - |p|..] == p
  }

  function DigitChar(d: nat): char
    requires d < 10
  {
    "0123456789"[d]
  }

  function NatToString(n: nat): (r: string)
    ensures r != []
    decreases n
  {
    if n < 10 then [DigitChar(n)] else NatToString(n / 10) + [DigitChar(n % 10)]
  }

  /** `str(n)` for a Python int. */
  function IntToString(n: int): string {
    if n < 0 then "-" + NatToString(-n) else NatToString(n)
  }

  /** `s.split(sep)` for a one-character separator: the pieces between separators, empty ones kept. */
  function SplitOn(s: string, sep: char): (r: seq<string>)
    ensures |r| >= 1
    decreases |s|
  {
    if s == [] then [[]]
    else
      var rest := SplitOn(s[1..], sep);
      if s[0] == sep then [[]] + rest else [[s[0]] + rest[0]] + rest[1..]
  }

  /** `s.replace(a, b)` for one-character `a` and `b`. */
  function ReplaceChar(s: string, a: char, b: char): (r: string)
    ensures |r| == |s|
    ensures forall i :: 0 <= i < |s| ==> r[i] == if s[i] == a then b else s[i]
  {
    if s == [] then [] else [if s[0] == a then b else s[0]] + ReplaceChar(s[1..], a, b)
  }

  function Zeros(n: nat): (r: string)
    ensures |r| == n && forall i :: 0 <= i < n ==> r[i] == '0'
  {
    if n == 0 then [] else "0" + Zeros(n - 1)
  }

  /** `s.zfill(width)`: left-pad with zeros to `width`, keeping a leading sign in front. */
  function ZFill(s: string, width: nat): string {
    if |s| >= width then s
    else if s != [] && (s[0] == '+' || s[0] == '-') then [s[0]] + Zeros(width - |s|) + s[1..]
    else Zeros(width - |s|) + s
  }

  // ---------------------------------------------------------------------------------------------
  // Properties

  /** `lstrip` removes a leading run of blanks and nothing else. */
  lemma {:induction false} LStripSpec(s: string)
    ensures LStrip(s) == s[|s| - |LStrip(s)|..]
    ensures AllSpace(s[..|s| - |LStrip(s)|])
    decreases |s|
  {
    if s != [] && IsSpace(s[0]) {
      LStripSpec(s[1..]);
      var r := LStrip(s);
      assert s[1..][|s| - 1 - |r|..] == s[|s| - |r|..];
      assert forall i :: 0 <= i < |s| - |r| ==> s[i] == (if i == 0 then s[0] else s[1..][..|s| - 1 - |r|][i - 1]);
    }
  }

  /** `rstrip` removes a trailing run of blanks and nothing else. */
  lemma {:induction false} RStripSpec(s: string)
    ensures RStrip(s) == s[..|RStrip(s)|]
    ensures AllSpace(s[|RStrip(s)|..])
    decreases |s|
  {
    if s != [] && IsSpace(s[|s| - 1]) {
      RStripSpec(s[..|s| - 1]);
      var r := RStrip(s);
      assert s[..|s| - 1][..|r|] == s[..|r|];
      assert forall i :: |r| <= i < |s| ==> s[i] == (if i == |s| - 1 then s[|s| - 1] else s[..|s| - 1][|r|..][i - |r|]);
    }
  }

  /** The leading word has no blank and is followed by a blank or the end. */
  lemma {:induction false} WordLenSpec(s: string)
    ensures NoSpace(s[..WordLen(s)])
    ensures WordLen(s) < |s| ==> IsSpace(s[WordLen(s)])
    decreases |s|
  {
    if s != [] && !IsSpace(s[0]) {
      WordLenSpec(s[1..]);
      var k := WordLen(s);
      assert forall i :: 0 <= i < k ==> s[i] == (if i == 0 then s[0] else s[1..][..k - 1][i - 1]);
    }
  }

  lemma ZFillWidth(s: string, width: nat)
    ensures |ZFill(s, width)| == if |s| >= width then |s| else width
    ensures |s| >= width ==> ZFill(s, width) == s
    ensures |s| < width && (s == [] || (s[0] != '+' && s[0] != '-')) ==> EndsWith(ZFill(s, width), s)
  {
  }

  /** `startswith` is a prefix test. */
  lemma {:induction false} StartsWithPrefix(s: string, p: string)
    ensures StartsWith(s, p) <==> |p| <= |s| && s[..|p|] == p
  {
    if p != [] && s != [] {
      StartsWithPrefix(s[1..], p[1..]);
      if |p| <= |s| {
        assert s[..|p|] == [s[0]] + s[1..][..|p| - 1];
        assert p == [p[0]] + p[1..];
      }
    }
  }

  lemma {:induction false} SplitWords(s: string)
    ensures forall i :: 0 <= i < |Split(s)| ==> IsWord(Split(s)[i])
    decreases |s|
  {
    var t := LStrip(s);
    if t != [] {
      var k := WordLen(t);
      WordLenSpec(t);
      SplitWords(t[k..]);
    }
  }

  lemma LStripNoSpaceStart(s: string)
    requires s == [] || !IsSpace(s[0])
    ensures LStrip(s) == s
  {
  }

  lemma {:induction false} LStripAllSpace(s: string)
    requires AllSpace(s)
    ensures LStrip(s) == []
    decreases |s|
  {
    if s != [] {
      LStripAllSpace(s[1..]);
    }
  }

  lemma {:induction false} SplitAllSpace(s: string)
    requires AllSpace(s)
    ensures Split(s) == []
  {
    LStripAllSpace(s);
  }

  /** A string that contains no blank but is non-empty is a single word. */
  lemma {:induction false} WordLenNoSpace(w: string)
    requires NoSpace(w)
    ensures WordLen(w) == |w|
    decreases |w|
  {
    if w != [] {
      WordLenNoSpace(w[1..]);
    }
  }

  lemma {:induction false} WordLenAppend(w: string, y: string)
    requires NoSpace(w)
    requires y == [] || IsSpace(y[0])
    ensures WordLen(w + y) == |w|
    decreases |w|
  {
    if w != [] {
      assert (w + y)[1..] == w[1..] + y;
      WordLenAppend(w[1..], y);
    }
  }

  lemma {:induction false} CollapseNoSpace(w: string, x: string)
    requires NoSpace(w)
    ensures CollapseSpaces(w + x) == w + CollapseSpaces(x)
    decreases |w|
  {
    if w != [] {
      assert !IsSpace(w[0]);
      assert (w + x)[0] == w[0];
      assert (w + x)[1..] == w[1..] + x;
      assert NoSpace(w[1..]) by {
        forall i | 0 <= i < |w[1..]|
          ensures !IsSpace(w[1..][i])
        {
          assert w[1..][i] == w[i + 1];
        }
      }
      CollapseNoSpace(w[1..], x);
      calc {
        CollapseSpaces(w + x);
        [w[0]] + CollapseSpaces(w[1..] + x);
        [w[0]] + (w[1..] + CollapseSpaces(x));
        { assert w == [w[0]] + w[1..]; }
        w + CollapseSpaces(x);
      }
    } else {
      assert w + x == x;
    }
  }

  /** Trailing blanks contribute no word. */
  lemma {:induction false} SplitAppendSpaces(x: string, y: string)
    requires AllSpace(y)
    ensures Split(x + y) == Split(x)
    decreases |x|
  {
    if x == [] {
      assert x + y == y;
      SplitAllSpace(y);
    } else if IsSpace(x[0]) {
      assert (x + y)[1..] == x[1..] + y;
      assert LStrip(x + y) == LStrip(x[1..] + y);
      SplitAppendSpaces(x[1..], y);
    } else {
      var k := WordLen(x);
      WordLenSpec(x);
      var w := x[..k];
      assert x == w + x[k..];
      assert x + y == w + (x[k..] + y);
      var tail := x[k..] + y;
      assert tail == [] || IsSpace(tail[0]);
      WordLenAppend(w, tail);
      assert (x + y)[..k] == w;
      assert (x + y)[k..] == x[k..] + y;
      SplitAppendSpaces(x[k..], y);
    }
  }

  lemma {:induction false} SplitLStrip(s: string)
    ensures Split(LStrip(s)) == Split(s)
  {
    LStripNoSpaceStart(LStrip(s));
  }

  lemma SplitRStrip(s: string)
    ensures Split(RStrip(s)) == Split(s)
  {
    var r := RStrip(s);
    RStripSpec(s);
    assert s == r + s[|r|..];
    SplitAppendSpaces(r, s[|r|..]);
  }

  /** `strip` leaves no blank at either end. */
  lemma StripEnds(s: string)
    ensures Strip(s) == [] || (!IsSpace(Strip(s)[0]) && !IsSpace(Strip(s)[|Strip(s)| - 1]))
  {
    var l := LStrip(s);
    RStripSpec(l);
    var r := RStrip(l);
    if r != [] {
      assert r[0] == l[0];
    }
  }

  /** `str.split()` ignores leading and trailing whitespace. */
  lemma SplitStrip(s: string)
    ensures Split(Strip(s)) == Split(s)
  {
    SplitRStrip(LStrip(s));
    SplitLStrip(s);
  }

  lemma {:induction false} JoinCons(w: string, ws: seq<string>, sep: string)
    requires ws != []
    ensures Join([w] + ws, sep) == w + sep + Join(ws, sep)
  {
    assert ([w] + ws)[1..] == ws;
  }

  /** Joining one more word appends the separator and the word. */
  lemma {:induction false} JoinSnoc(ws: seq<string>, w: string, sep: string)
    requires ws != []
    ensures Join(ws + [w], sep) == Join(ws, sep) + sep + w
    decreases |ws|
  {
    if |ws| == 1 {
      assert ws + [w] == [ws[0], w];
    } else {
      assert (ws + [w])[1..] == ws[1..] + [w];
      JoinSnoc(ws[1..], w, sep);
    }
  }

  /** Words joined by a separator without whitespace hold no whitespace. */
  lemma {:induction false} JoinNoSpace(ws: seq<string>, sep: string)
    requires forall i :: 0 <= i < |ws| ==> NoSpace(ws[i])
    requires NoSpace(sep)
    ensures NoSpace(Join(ws, sep))
    decreases |ws|
  {
    if |ws| > 1 {
      JoinNoSpace(ws[1..], sep);
      var rest := Join(ws[1..], sep);
      assert Join(ws, sep) == ws[0] + sep + rest;
      forall k | 0 <= k < |ws[0] + sep + rest| ensures !IsSpace((ws[0] + sep + rest)[k]) {
        if k < |ws[0]| {
        } else if k < |ws[0]| + |sep| {
          assert (ws[0] + sep + rest)[k] == sep[k - |ws[0]|];
        } else {
          assert (ws[0] + sep + rest)[k] == rest[k - |ws[0]| - |sep|];
        }
      }
    }
  }

  /** The words of a text joined by a separator without whitespace hold no whitespace. */
  lemma HyphenatedNoSpace(s: string, sep: string)
    requires NoSpace(sep)
    ensures NoSpace(Join(Split(s), sep))
  {
    SplitWords(s);
    JoinNoSpace(Split(s), sep);
  }

  /** A string that starts with a non-blank splits into its first word and the split of the rest. */
  lemma {:induction false} FirstWord(t: string)
    requires t != [] && !IsSpace(t[0])
    ensures Split(t) == [t[..WordLen(t)]] + Split(t[WordLen(t)..])
  {
    LStripNoSpaceStart(t);
  }

  /** Collapsing blanks keeps the first word of such a string and collapses the rest. */
  lemma {:induction false} FirstWordCollapse(t: string)
    ensures CollapseSpaces(t) == t[..WordLen(t)] + CollapseSpaces(t[WordLen(t)..])
  {
    var k := WordLen(t);
    WordLenSpec(t);
    assert t == t[..k] + t[k..];
    CollapseNoSpace(t[..k], t[k..]);
  }

  /** After the first word, a blank run and a string that again has no surrounding blanks. */
  lemma AfterFirstWord(rest: string, last: char)
    requires rest != [] && IsSpace(rest[0])
    requires !IsSpace(rest[|rest| - 1])
    ensures LStrip(rest) != [] && !IsSpace(LStrip(rest)[0]) && !IsSpace(LStrip(rest)[|LStrip(rest)| - 1])
    ensures CollapseSpaces(rest) == " " + CollapseSpaces(LStrip(rest))
    ensures Split(rest) == Split(LStrip(rest))
  {
    LStripSpec(rest);
    SplitLStrip(rest);
  }

  lemma JoinStep(ct: string, cr: string, cu: string, w: string, st: seq<string>, sr: seq<string>, su: seq<string>)
    requires ct == w + cr && cr == " " + cu && cu == Join(su, " ")
    requires st == [w] + sr && sr == su && su != []
    ensures ct == Join(st, " ")
  {
    JoinCons(w, su, " ");
  }

  /** On a string without surrounding blanks, collapsing runs of blanks is joining its words with
      single blanks. */
  lemma {:induction false} CollapseIsJoin(t: string)
    requires t == [] || (!IsSpace(t[0]) && !IsSpace(t[|t| - 1]))
    ensures CollapseSpaces(t) == Join(Split(t), " ")
    decreases |t|
  {
    if t != [] {
      FirstWord(t);
      FirstWordCollapse(t);
      var k := WordLen(t);
      WordLenSpec(t);
      var w := t[..k];
      var rest := t[k..];
      if rest == [] {
        assert Split(rest) == [];
        assert CollapseSpaces(rest) == [];
        assert Split(t) == [w];
      } else {
        assert rest[|rest| - 1] == t[|t| - 1];
        AfterFirstWord(rest, t[|t| - 1]);
        var u := LStrip(rest);
        CollapseIsJoin(u);
        LStripNoSpaceStart(u);
        JoinStep(CollapseSpaces(t), CollapseSpaces(rest), CollapseSpaces(u), w, Split(t), Split(rest), Split(u));
      }
    }
  }

  /** `re.sub(r'\s+', ' ', s.strip())` is `' '.join(s.split())`. */
  lemma NormalizeIsJoin(s: string)
    ensures Normalize(s) == Join(Split(s), " ")
  {
    StripEnds(s);
    CollapseIsJoin(Strip(s));
    SplitStrip(s);
  }

  /** Splitting words joined by single blanks gives the words back. */
  lemma {:induction false} SplitJoin(ws: seq<string>)
    requires forall i :: 0 <= i < |ws| ==> IsWord(ws[i])
    ensures Split(Join(ws, " ")) == ws
  {
    if ws != [] {
      var w := ws[0];
      if |ws| == 1 {
        LStripNoSpaceStart(w);
        WordLenNoSpace(w);
        assert w[..|w|] == w;
        assert w[|w|..] == [];
      } else {
        var j := Join(ws[1..], " ");
        SplitJoin(ws[1..]);
        var s := w + " " + j;
        assert s == w + (" " + j);
        LStripNoSpaceStart(s);
        WordLenAppend(w, " " + j);
        assert s[..|w|] == w;
        assert s[|w|..] == " " + j;
        assert LStrip(" " + j) == LStrip(j) by {
          assert (" " + j)[1..] == j;
        }
        SplitLStrip(" " + j);
        SplitLStrip(j);
      }
    }
  }

  /** Normalising changes no word: the `:opN` parts of a named entity are the words of its raw text. */
  lemma SplitNormalize(s: string)
    ensures Split(Normalize(s)) == Split(s)
  {
    NormalizeIsJoin(s);
    SplitWords(s);
    SplitJoin(Split(s));
  }

  /** Normalising twice is normalising once. */
  lemma NormalizeIdempotent(s: string)
    ensures Normalize(Normalize(s)) == Normalize(s)
  {
    SplitNormalize(s);
    NormalizeIsJoin(Normalize(s));
    NormalizeIsJoin(s);
  }
}
