/** The DT_DAY normaliser for date expressions: the preprocessing of the entity text, the fixed
    tables of general, named and deictic dates, and the decision list that maps a preprocessed
    day expression to an AMR role and value. The regular expressions of the source are written
    out as the string tests they amount to; `kr2num` is a parameter. */
module DateRules {
  import opened Outcomes
  import opened PyStr

  /** The entity types `__call__` accepts. */
  const Allowed: seq<string> := [
    "DT_DURATION", "DT_DAY", "DT_WEEK", "DT_MONTH", "DT_YEAR", "DT_SEASON", "DT_OTHERS",
    "TI_DURATION", "TI_HOUR", "TI_MINUTE", "TI_SECOND", "TI_OTHERS"
  ]

  /** `GENERAL_DATE_CONCEPTS` */
  const GeneralDateConcepts: seq<string> := ["공휴일", "휴일", "평일"]

  /** `NAMED_DATES`, in source order (duplicates kept), in blocks of ten. */
  const NamedDates: seq<string> :=
    NamedDates1 + NamedDates2 + NamedDates3 + NamedDates4 + NamedDates5 + NamedDates6 + NamedDates7
    + NamedDates8 + NamedDates9 + NamedDates10 + NamedDates11 + NamedDates12 + NamedDates13

  const NamedDates1: seq<string> := ["‘국제 스포츠 평화’의 날", "Boxing day", "National Korean War Veterans Armistice Day", "개천절", "경로의 날", "경찰의 날", "경칩", "곡우", "공무원 노동절", "과학 데이"]
  const NamedDates2: seq<string> := ["광군제", "광명성절", "광복절", "구정", "국경절", "국군의 날", "국제 고문피해자 지원의 날", "국제 아동절", "근로자의 날", "노동당 창건일"]
  const NamedDates3: seq<string> := ["노동절", "다케시마(독도)의 날", "다케시마의 날", "단오", "단오절", "독립기념일", "돌", "돼지날", "로비 데이", "마틴루서킹데이"]
  const NamedDates4: seq<string> := ["명절", "명절 때", "백로", "밸런타인", "밸런타인데이", "법의 날", "복날", "복싱 데이", "부처님오신날", "부활절"]
  const NamedDates5: seq<string> := ["북방영토의 날", "사월 초파일", "삭망", "삼짓날", "상공의 날", "새해", "석가탄신일", "설", "설 명절", "설날"]
  const NamedDates6: seq<string> := ["성모마리아 대축일", "성모승천대축일", "성탄", "성탄 전날", "성탄절", "세계 수협의 날", "세계 에이즈의 날", "세계 여성의 날", "세계 책의 날", "소방의 날"]
  const NamedDates7: seq<string> := ["순국선열의 날", "스무날", "스승의 날", "스포츠 평화의 날", "시민의 날", "어린이날", "어버이날", "예수 부활 대축일", "예수성탄대축일", "추석"]
  const NamedDates8: seq<string> := ["우수", "울산 조선해양의 날", "원자력의 날", "전승절", "위안부의 날", "인민군 창건 기념일춘절", "인민군 창건일", "임산부의 날", "입추", "입춘"]
  const NamedDates9: seq<string> := ["장애인의 날", "전승절", "전전날", "정월 대보름", "정월대보름", "정전협정일", "조선해양의 날", "주먹밥의 날", "중복", "중복날"]
  const NamedDates10: seq<string> := ["중양절", "중추절", "지구의 날", "참전용사 정전협정의 날", "창건기념일", "처서", "철의 날", "초하루", "추석", "추석 명절"]
  const NamedDates11: seq<string> := ["추석명절", "추수감사절", "춘절", "춘제", "크리스마스", "크리스마스 이브", "크리스마스이브", "태양절", "하지", "한가위"]
  const NamedDates12: seq<string> := ["한국전쟁 참전용사 정전협정의 날", "한글날", "해일", "현충일", "히나마쓰리", "亥日", "春節", "穀雨", "雛祭り", "어린이날"]
  const NamedDates13: seq<string> := ["8·15", "3·1절 "]

  /** `DEIXIS_DATES`: deictic day words and their day offsets, in insertion order. */
  const DeixisDates: seq<(string, string)> := [
    ("오늘", "+0"), ("금일", "+0"), ("당일", "+0"), ("이날", "+0"), ("그날", "+0"), ("같은날", "+0"),
    ("같은 날", "+0"), ("이튿날", "+1"), ("이틑날", "+1"), ("내일", "+1"), ("다음날", "+1"),
    ("다음 날", "+1"), ("모레", "+2"), ("내일모레", "+2"), ("글피", "+3"), ("전날", "-1"),
    ("하루 전날", "-1"), ("어제", "-1"), ("어저께", "-1"), ("그제", "-2"), ("그저께", "-2"),
    ("엊그제", "-3"), ("엊그저께", "-3"), ("그끄저께", "-3")
  ]

  /** The offset a deixis table `rows` gives `s`, if `s` is one of its words. */
  function Offset(rows: seq<(string, string)>, s: string): (r: Option<string>)
    ensures r.Some? <==> exists i :: 0 <= i < |rows| && rows[i].0 == s
    ensures r.Some? ==> exists i :: 0 <= i < |rows| && rows[i] == (s, r.value)
    decreases |rows|
  {
    if rows == [] then None
    else if rows[0].0 == s then Some(rows[0].1)
    else
      var r := Offset(rows[1..], s);
      assert forall i :: 1 <= i < |rows| ==> rows[i] == rows[1..][i - 1];
      r
  }

  // ---------------------------------------------------------------------------------------------
  // datetime_preprocess

  /** `re.sub(r'^(오는|올|이번|지난)\s', '', s)`: drops one leading 오는, 올, 이번 or 지난 together
      with the blank after it. */
  function DropLeadWord(s: string): string {
    if |s| >= 3 && (s[..2] == "오는" || s[..2] == "이번" || s[..2] == "지난") && IsSpace(s[2]) then s[3..]
    else if |s| >= 2 && s[0] == '올' && IsSpace(s[1]) then s[2..]
    else s
  }

  /** `re.sub(r'(쯤|께|경|중|치|\s정도|만$)', '', s)`: a left-to-right scan deleting each 쯤, 께,
      경, 중 and 치, each blank followed by 정도, and a 만 at the end of the text or just before a
      final newline (where `$` matches). */
  function DropParticles(s: string): string
    decreases |s|
  {
    if s == [] then []
    else if s[0] in "쯤께경중치" then DropParticles(s[1..])
    else if |s| >= 3 && IsSpace(s[0]) && s[1..3] == "정도" then DropParticles(s[3..])
    else if s[0] == '만' && (|s| == 1 || s[1..] == "\n") then DropParticles(s[1..])
    else [s[0]] + DropParticles(s[1..])
  }

  /** `s.split(sep)[-1]` */
  function LastPiece(s: string, sep: char): string {
    var pieces := SplitOn(s, sep);
    pieces[|pieces| - 1]
  }

  /** `datetime_preprocess(s)` */
  function Preprocess(s: string): string {
    Strip(LastPiece(DropParticles(DropLeadWord(s)), '·'))
  }

  /** The last piece of `s.split(sep)` is the suffix after the last `sep`, or all of `s`. */
  lemma {:induction false} LastPieceSpec(s: string, sep: char)
    ensures var p := LastPiece(s, sep);
      |p| <= |s| && s[|s| - |p|..] == p && sep !in p
      && (|p| < |s| ==> s[|s| - |p| - 1] == sep)
      && (|SplitOn(s, sep)| == 1 ==> p == s)
      && (|SplitOn(s, sep)| >= 2 ==> |p| < |s|)
    decreases |s|
  {
    if s != [] {
      LastPieceSpec(s[1..], sep);
      var rest := SplitOn(s[1..], sep);
      var q := LastPiece(s[1..], sep);
      assert s[1..][|s| - 1 - |q|..] == s[|s| - |q|..];
      if s[0] == sep {
        assert SplitOn(s, sep) == [[]] + rest;
        assert LastPiece(s, sep) == q;
      } else if |rest| == 1 {
        assert SplitOn(s, sep) == [[s[0]] + rest[0]];
        assert [s[0]] + s[1..] == s;
      } else {
        assert SplitOn(s, sep) == [[s[0]] + rest[0]] + rest[1..];
        assert LastPiece(s, sep) == q;
      }
    }
  }

  /** `strip()` keeps a contiguous part of its argument, with no blank at either end. */
  lemma StripSpec(p: string)
    ensures forall c :: c in Strip(p) ==> c in p
    ensures Strip(p) == [] || (!IsSpace(Strip(p)[0]) && !IsSpace(Strip(p)[|Strip(p)| - 1]))
  {
    LStripSpec(p);
    var l := LStrip(p);
    RStripSpec(l);
    var a := |p| - |l|;
    var r := Strip(p);
    assert r == p[a..][..|r|];
    assert forall i :: 0 <= i < |r| ==> r[i] == p[a + i];
    if r != [] {
      assert r[0] == l[0];
    }
  }

  /** `datetime_preprocess` keeps only the text after the last `·` (of the particle-free text),
      stripped: the result has no `·` and no blank at either end. */
  lemma PreprocessSpec(s: string)
    ensures var t := DropParticles(DropLeadWord(s));
      var p := LastPiece(t, '·');
      Preprocess(s) == Strip(p) && |p| <= |t| && t[|t| - |p|..] == p && '·' !in p
      && (|p| < |t| ==> t[|t| - |p| - 1] == '·')
    ensures '·' !in Preprocess(s)
    ensures Preprocess(s) == [] || (!IsSpace(Preprocess(s)[0]) && !IsSpace(Preprocess(s)[|Preprocess(s)| - 1]))
  {
    var t := DropParticles(DropLeadWord(s));
    var p := LastPiece(t, '·');
    assert Preprocess(s) == Strip(p);
    LastPieceSpec(t, '·');
    StripSpec(p);
  }

  // ---------------------------------------------------------------------------------------------
  // Helpers used by the decision list

  const Weekdays: string := "월화수목금토일"
  const Ordinals: string := "첫둘셋넷"

  /** The position of the first occurrence of `c` in `s`, as `s.index(c)`; raises ValueError when
      `c` is absent. */
  function IndexOf(s: string, c: char): (r: Outcome<nat>)
    ensures r.Ok? <==> c in s
    ensures r.Raise? ==> r.error == ValueError
    ensures r.Ok? ==> r.value < |s| && s[r.value] == c && c !in s[..r.value]
    decreases |s|
  {
    if s == [] then Raise(ValueError)
    else if s[0] == c then Ok(0)
    else match IndexOf(s[1..], c)
      case Raise(e) => Raise(e)
      case Ok(i) => assert s[..i + 1] == [s[0]] + s[1..][..i]; Ok(i + 1)
  }

  /** `parse_weekday(s)`: IndexError on the empty string; otherwise the weekday at `s[0]` followed by
      요일, or ValueError when `s[0]` is not a weekday. */
  function ParseWeekday(s: string): Outcome<string> {
    if s == [] then Raise(IndexError)
    else match IndexOf(Weekdays, s[0])
      case Raise(e) => Raise(e)
      case Ok(i) => Ok([Weekdays[i]] + "요일")
  }

  /** `parse_weekday` succeeds exactly when the first character is a weekday, and then names it. */
  lemma ParseWeekdaySpec(s: string)
    ensures ParseWeekday(s).Ok? <==> s != [] && s[0] in Weekdays
    ensures ParseWeekday(s).Ok? ==> ParseWeekday(s).value == [s[0]] + "요일"
    ensures s == [] ==> ParseWeekday(s) == Raise(IndexError)
    ensures s != [] && s[0] !in Weekdays ==> ParseWeekday(s) == Raise(ValueError)
  {
  }

  /** Length of the leading run of digits. */
  function DigitRun(s: string): (k: nat)
    ensures k <= |s|
    ensures forall i :: 0 <= i < k ==> IsDigit(s[i])
    ensures k < |s| ==> !IsDigit(s[k])
  {
    if s == [] || !IsDigit(s[0]) then 0 else 1 + DigitRun(s[1..])
  }

  /** `parse_number(s)`: the first maximal run of digits; AttributeError (`None.group()`) when
      there is none. */
  function ParseNumber(s: string): (r: Outcome<string>)
    ensures r.Raise? <==> forall i :: 0 <= i < |s| ==> !IsDigit(s[i])
    ensures r.Raise? ==> r.error == AttributeError
    ensures r.Ok? ==> r.value != [] && forall i :: 0 <= i < |r.value| ==> IsDigit(r.value[i])
    decreases |s|
  {
    if s == [] then Raise(AttributeError)
    else if IsDigit(s[0]) then Ok(s[..DigitRun(s)])
    else
      var r := ParseNumber(s[1..]);
      assert forall i :: 1 <= i < |s| ==> s[i] == s[1..][i - 1];
      r
  }

  /** `re.search(r'[이삼]?십?\s?[일이삼사오육칠팔구]일', s)`: the optional parts never decide a
      match, so it is a digit syllable directly followed by 일. */
  predicate DayNumeralSearch(s: string) {
    exists i :: 0 <= i < |s| - 1 && s[i] in "일이삼사오육칠팔구" && s[i + 1] == '일'
  }

  /** `re.search(r'\d\d?일?', s)`: some digit. */
  predicate DigitSearch(s: string) {
    exists i :: 0 <= i < |s| && IsDigit(s[i])
  }

  /** `re.search(r'[월화수목금토일]요?일?', s)`: some weekday character, anywhere. */
  predicate WeekdaySearch(s: string) {
    exists i :: 0 <= i < |s| && s[i] in Weekdays
  }

  /** `re.search(r'[첫둘셋넷]', s)`: some ordinal character, anywhere. */
  predicate OrdinalSearch(s: string) {
    exists i :: 0 <= i < |s| && s[i] in Ordinals
  }

  /** `re.search(r'마지막', s)` */
  predicate LastSearch(s: string) {
    exists i :: 0 <= i < |s| - 2 && s[i] == '마' && s[i + 1] == '지' && s[i + 2] == '막'
  }

  /** The value `__call__` returns: the AMR role and its value. */
  datatype DateValue = DateValue(role: string, value: string)

  /** `'D+' + str(list('첫둘셋넷').index(s[0]) + 1)`, with the errors of `s[0]` and `index`. */
  function OrdinalDay(s: string): Outcome<string> {
    if s == [] then Raise(IndexError)
    else match IndexOf(Ordinals, s[0])
      case Raise(e) => Raise(e)
      case Ok(i) => Ok("D+" + NatToString(i + 1))
  }

  /** The first character of `s` that lies in `chars`: the start of the match `re.search` finds
      for a one-character class. */
  function FirstIn(s: string, chars: string): (r: Option<nat>)
    ensures r.Some? <==> exists i :: 0 <= i < |s| && s[i] in chars
    ensures r.Some? ==> r.value < |s| && s[r.value] in chars && forall j :: 0 <= j < r.value ==> s[j] !in chars
    decreases |s|
  {
    if s == [] then None
    else if s[0] in chars then Some(0)
    else
      var r := FirstIn(s[1..], chars);
      assert forall i :: 1 <= i < |s| ==> s[i] == s[1..][i - 1];
      if r.None? then None else Some(r.value + 1)
  }

  /** The weekday named by the matched character rather than by `s[0]`. */
  function MatchedWeekday(s: string): Outcome<string> {
    match FirstIn(s, Weekdays)
    case None => ParseWeekday(s)
    case Some(i) => ParseWeekday(s[i..])
  }

  /** The ordinal named by the matched character rather than by `s[0]`. */
  function MatchedOrdinal(s: string): Outcome<string> {
    match FirstIn(s, Ordinals)
    case None => OrdinalDay(s)
    case Some(i) => OrdinalDay(s[i..])
  }

  function Tag(role: string, v: Outcome<string>): Outcome<Option<DateValue>> {
    match v
    case Raise(e) => Raise(e)
    case Ok(x) => Ok(Some(DateValue(role, x)))
  }

  /** The three lookup tables the decision list consults. */
  datatype Tables = Tables(general: seq<string>, named: seq<string>, deixis: seq<(string, string)>)

  const DayTables: Tables := Tables(GeneralDateConcepts, NamedDates, DeixisDates)

  /** The DT_DAY decision list on a preprocessed text `t` over the tables `tb`. `matched` selects
      how the weekday and ordinal branches read the text: from `t[0]`, as written, or from the
      character the search matched. */
  function DayValue(t: string, tb: Tables, kr2num: string -> string, matched: bool): Outcome<Option<DateValue>> {
    if t in tb.general then Ok(Some(DateValue(":general", t)))
    else if t in tb.named then Ok(Some(DateValue(":named", t)))
    else if Offset(tb.deixis, t).Some? then Ok(Some(DateValue(":day", Offset(tb.deixis, t).value)))
    else if DayNumeralSearch(t) then Ok(Some(DateValue(":day", kr2num(t[..|t| - 1]))))
    else if DigitSearch(t) then Tag(":day", ParseNumber(t))
    else if WeekdaySearch(t) then Tag(":weekday", if matched then MatchedWeekday(t) else ParseWeekday(t))
    else if OrdinalSearch(t) then Tag(":day", if matched then MatchedOrdinal(t) else OrdinalDay(t))
    else if LastSearch(t) then Ok(Some(DateValue(":day", "D-1")))
    else Ok(None)
  }

  /** `DateTimeNormalizer()(entity_type, entity_str)` as written. */
  function Normalize(entityType: string, s: string, kr2num: string -> string): Outcome<Option<DateValue>> {
    if entityType !in Allowed then Raise(AssertionError)
    else if entityType == "DT_DAY" then DayValue(Preprocess(s), DayTables, kr2num, false)
    else Ok(None)
  }

  /** The normaliser with the weekday and ordinal branches reading the matched character. */
  function NormalizeMatched(entityType: string, s: string, kr2num: string -> string): Outcome<Option<DateValue>> {
    if entityType !in Allowed then Raise(AssertionError)
    else if entityType == "DT_DAY" then DayValue(Preprocess(s), DayTables, kr2num, true)
    else Ok(None)
  }

  // ---------------------------------------------------------------------------------------------
  // Properties

  /** DT_DAY is allowed, so its result is the decision list on the preprocessed text. */
  lemma NormalizeDay(s: string, kr2num: string -> string)
    ensures Normalize("DT_DAY", s, kr2num) == DayValue(Preprocess(s), DayTables, kr2num, false)
    ensures NormalizeMatched("DT_DAY", s, kr2num) == DayValue(Preprocess(s), DayTables, kr2num, true)
  {
    assert Allowed[1] == "DT_DAY";
  }

  /** An unknown entity type fails the assertion; every allowed type but DT_DAY gives None. */
  lemma NormalizeTypes(entityType: string, s: string, kr2num: string -> string)
    ensures entityType !in Allowed ==> Normalize(entityType, s, kr2num) == Raise(AssertionError)
    ensures entityType in Allowed && entityType != "DT_DAY" ==> Normalize(entityType, s, kr2num) == Ok(None)
    ensures Normalize(entityType, s, kr2num).Ok? && Normalize(entityType, s, kr2num).value.Some? ==> entityType == "DT_DAY"
  {
  }

  /** The first three branches, in order: general concepts, then named dates, then deictic words
      with their offset in a table without repeated words. */
  lemma DayOrder(t: string, tb: Tables, kr2num: string -> string, matched: bool)
    requires forall i, j :: 0 <= i < j < |tb.deixis| ==> tb.deixis[i].0 != tb.deixis[j].0
    ensures var r := DayValue(t, tb, kr2num, matched);
      (t in tb.general ==> r == Ok(Some(DateValue(":general", t))))
      && (t !in tb.general && t in tb.named ==> r == Ok(Some(DateValue(":named", t))))
      && (t !in tb.general && t !in tb.named ==>
            forall i :: 0 <= i < |tb.deixis| && tb.deixis[i].0 == t ==> r == Ok(Some(DateValue(":day", tb.deixis[i].1))))
  {
    forall i | 0 <= i < |tb.deixis| && tb.deixis[i].0 == t
      ensures Offset(tb.deixis, t) == Some(tb.deixis[i].1)
    {
      OffsetDistinct(tb.deixis, t, i);
    }
  }

  /** In a table without repeated words, a word's offset is the one on its row. */
  lemma OffsetDistinct(rows: seq<(string, string)>, s: string, i: nat)
    requires forall i, j :: 0 <= i < j < |rows| ==> rows[i].0 != rows[j].0
    requires i < |rows| && rows[i].0 == s
    ensures Offset(rows, s) == Some(rows[i].1)
  {
    var j :| 0 <= j < |rows| && rows[j] == (s, Offset(rows, s).value);
    assert i == j;
  }

  /** The deixis table has no repeated word, so each word has one offset. */
  lemma DeixisKeysDistinct()
    ensures forall i, j :: 0 <= i < j < |DeixisDates| ==> DeixisDates[i].0 != DeixisDates[j].0
  {
  }

  /** The particle deletion leaves a text without particle characters (and without 정, so
      without 정도) as it is. */
  lemma {:induction false} DropParticlesNone(s: string)
    requires forall i :: 0 <= i < |s| ==> s[i] !in "쯤께경중치만정"
    ensures DropParticles(s) == s
    decreases |s|
  {
    if s != [] {
      DropParticlesNone(s[1..]);
      assert |s| >= 3 ==> s[1..3][0] == s[1] && s[1] != '정';
      assert [s[0]] + s[1..] == s;
    }
  }

  /** `s.split(sep)` of a text without `sep` is the text alone. */
  lemma {:induction false} SplitOnAbsent(s: string, sep: char)
    requires sep !in s
    ensures SplitOn(s, sep) == [s]
    decreases |s|
  {
    if s != [] {
      assert s[1..] == s[1..] && forall c :: c in s[1..] ==> c in s;
      SplitOnAbsent(s[1..], sep);
      assert [s[0]] + s[1..] == s;
    }
  }

  /** A text without lead word, particle or `·` and without blanks at its ends is left as it is
      by preprocessing. */
  lemma PreprocessPlain(s: string)
    requires forall i :: 0 <= i < |s| ==> s[i] !in "쯤께경중치만정·"
    requires s != [] && !IsSpace(s[0]) && !IsSpace(s[|s| - 1]) && DropLeadWord(s) == s
    ensures Preprocess(s) == s
  {
    DropParticlesNone(s);
    assert '·' !in s by {
      forall i | 0 <= i < |s| ensures s[i] != '·' {
        assert s[i] !in "쯤께경중치만정·";
      }
    }
    SplitOnAbsent(s, '·');
    assert LastPiece(s, '·') == s;
    assert LStrip(s) == s;
  }

  /** Examples from the deixis table: 내일 (tomorrow) is `+1`, 어제 (yesterday) is `-1` and 모레
      (the day after tomorrow) is `+2`; each is an instance of `DeixisNormalize`. */
  lemma DeixisExample(w: string, offset: string, kr2num: string -> string)
    requires (w, offset) in [("내일", "+1"), ("어제", "-1"), ("모레", "+2")]
    ensures Normalize("DT_DAY", w, kr2num) == Ok(Some(DateValue(":day", offset)))
  {
    var i := if w == "내일" then 9 else if w == "어제" then 17 else 12;
    assert DeixisDates[i] == (w, offset);
    DeixisRow(i);
    DeixisNormalize(w, offset, kr2num);
  }

  /** A step of `DeixisExample`: the words 내일, 어제 and 모레 survive preprocessing, are in no
      earlier table, and have their row's offset. */
  lemma DeixisRow(i: nat)
    requires i < |DeixisDates| && DeixisDates[i].0 in ["내일", "어제", "모레"]
    ensures var w := DeixisDates[i].0;
      Preprocess(w) == w && w !in GeneralDateConcepts && w !in NamedDates && Offset(DeixisDates, w) == Some(DeixisDates[i].1)
  {
    var w := DeixisDates[i].0;
    assert w in ["내일", "어제", "모레", "다음 주 월요일"];
    assert DropLeadWord(w) == w;
    PreprocessPlain(w);
    NotNamed(w);
    DeixisKeysDistinct();
    OffsetDistinct(DeixisDates, w, i);
  }

  /** A text that preprocessing keeps and that only the deixis table knows gets its offset. */
  lemma DeixisNormalize(w: string, offset: string, kr2num: string -> string)
    requires Preprocess(w) == w && w !in GeneralDateConcepts && w !in NamedDates && Offset(DeixisDates, w) == Some(offset)
    ensures Normalize("DT_DAY", w, kr2num) == Ok(Some(DateValue(":day", offset)))
  {
    NormalizeDay(w, kr2num);
    DayDeixis(w, DayTables, kr2num, false);
  }

  /** A word in no earlier table gets its deixis offset. */
  lemma DayDeixis(t: string, tb: Tables, kr2num: string -> string, matched: bool)
    requires t !in tb.general && t !in tb.named && Offset(tb.deixis, t).Some?
    ensures DayValue(t, tb, kr2num, matched) == Ok(Some(DateValue(":day", Offset(tb.deixis, t).value)))
  {
  }

  /** A step of `DeixisExample` and of the "다음 주 월요일" witnesses below: the example words are
      neither general concepts nor named dates. */
  lemma NotNamed(w: string)
    requires w in ["내일", "어제", "모레", "다음 주 월요일"]
    ensures w !in GeneralDateConcepts && w !in NamedDates
  {
    NotNamedLow(w);
    NotNamedMid(w);
    NotNamedHigh(w);
  }

  lemma NotNamedLow(w: string)
    requires w in ["내일", "어제", "모레", "다음 주 월요일"]
    ensures w !in NamedDates1 && w !in NamedDates2 && w !in NamedDates3 && w !in NamedDates4
  {
  }

  lemma NotNamedMid(w: string)
    requires w in ["내일", "어제", "모레", "다음 주 월요일"]
    ensures w !in NamedDates5 && w !in NamedDates6 && w !in NamedDates7 && w !in NamedDates8
  {
  }

  lemma NotNamedHigh(w: string)
    requires w in ["내일", "어제", "모레", "다음 주 월요일"]
    ensures w !in NamedDates9 && w !in NamedDates10 && w !in NamedDates11 && w !in NamedDates12 && w !in NamedDates13
  {
  }

  /** Past the table and number branches, the weekday test goes first; the ordinal branch gives
      `D+k` for the k-th (from 1) of 첫둘셋넷 at the start of the text. */
  lemma OrdinalSpec(t: string, tb: Tables, kr2num: string -> string, k: nat)
    requires k < 4 && t != [] && t[0] == Ordinals[k]
    requires t !in tb.general && t !in tb.named && Offset(tb.deixis, t).None?
    requires !DayNumeralSearch(t) && !DigitSearch(t) && !WeekdaySearch(t)
    ensures DayValue(t, tb, kr2num, false) == Ok(Some(DateValue(":day", "D+" + [DigitChar(k + 1)])))
  {
    assert OrdinalSearch(t) by { assert t[0] in Ordinals; }
    assert IndexOf(Ordinals, t[0]) == Ok(k);
  }

  /** 마지막 ("last") gives `D-1` once no earlier branch applies, and a text no branch accepts
      gives None. */
  lemma LastSpec(t: string, tb: Tables, kr2num: string -> string, matched: bool)
    requires t !in tb.general && t !in tb.named && Offset(tb.deixis, t).None?
    requires !DayNumeralSearch(t) && !DigitSearch(t) && !WeekdaySearch(t) && !OrdinalSearch(t)
    ensures LastSearch(t) ==> DayValue(t, tb, kr2num, matched) == Ok(Some(DateValue(":day", "D-1")))
    ensures !LastSearch(t) ==> DayValue(t, tb, kr2num, matched) == Ok(None)
  {
  }

  /** Every deictic word is at most five characters long. */
  lemma DeixisShort()
    ensures forall i :: 0 <= i < |DeixisDates| ==> |DeixisDates[i].0| <= 5
  {
  }

  /** The first position holding one of `chars`. */
  lemma FirstInAt(s: string, chars: string, i: nat)
    requires i < |s| && s[i] in chars && forall j :: 0 <= j < i ==> s[j] !in chars
    ensures FirstIn(s, chars) == Some(i)
  {
  }

  /** Past the table and number branches, a text with a weekday character takes the weekday
      branch. */
  lemma DayWeekday(t: string, tb: Tables, kr2num: string -> string, matched: bool)
    requires t !in tb.general && t !in tb.named && Offset(tb.deixis, t).None?
    requires !DayNumeralSearch(t) && !DigitSearch(t) && WeekdaySearch(t)
    ensures DayValue(t, tb, kr2num, matched) == Tag(":weekday", if matched then MatchedWeekday(t) else ParseWeekday(t))
  {
  }

  /** The steps below serve only the witnesses `WeekdayAsWritten` and `WeekdayMatched`:
      "다음 주 월요일" is kept by preprocessing, is in no table and has no day numeral and no
      digit, but has a weekday character, the first at position 5. */
  lemma NextMondayBranches(s: string)
    requires s == "다음 주 월요일"
    ensures Preprocess(s) == s && s !in GeneralDateConcepts && s !in NamedDates && Offset(DeixisDates, s).None?
    ensures !DayNumeralSearch(s) && !DigitSearch(s) && WeekdaySearch(s) && FirstIn(s, Weekdays) == Some(5)
  {
    NextMondayKept(s);
    NextMondaySearches(s);
  }

  lemma NextMondayKept(s: string)
    requires s == "다음 주 월요일"
    ensures Preprocess(s) == s && s !in GeneralDateConcepts && s !in NamedDates && Offset(DeixisDates, s).None?
  {
    NextMondayPreprocess(s);
    NotNamed(s);
    DeixisShort();
  }

  lemma NextMondayPreprocess(s: string)
    requires s == "다음 주 월요일"
    ensures Preprocess(s) == s
  {
    assert DropLeadWord(s) == s;
    PreprocessPlain(s);
  }

  lemma NextMondaySearches(s: string)
    requires s == "다음 주 월요일"
    ensures !DayNumeralSearch(s) && !DigitSearch(s) && WeekdaySearch(s) && FirstIn(s, Weekdays) == Some(5)
  {
    assert s[5] in Weekdays;
    FirstInAt(s, Weekdays, 5);
  }

  /** As written, "다음 주 월요일" (Monday next week) reaches the weekday branch, whose search finds
      월 in the middle, but `parse_weekday` reads 다 and raises ValueError. */
  lemma WeekdayAsWritten(s: string, kr2num: string -> string)
    requires s == "다음 주 월요일"
    ensures Normalize("DT_DAY", s, kr2num) == Raise(ValueError)
  {
    NextMondayBranches(s);
    NormalizeDay(s, kr2num);
    DayWeekday(s, DayTables, kr2num, false);
    assert IndexOf(Weekdays, s[0]) == Raise(ValueError);
  }

  /** Reading the matched character, "다음 주 월요일" is Monday. */
  lemma WeekdayMatched(s: string, kr2num: string -> string)
    requires s == "다음 주 월요일"
    ensures NormalizeMatched("DT_DAY", s, kr2num) == Ok(Some(DateValue(":weekday", "월요일")))
  {
    NextMondayBranches(s);
    NormalizeDay(s, kr2num);
    DayWeekday(s, DayTables, kr2num, true);
    NextMondayMatched(s);
  }

  /** The weekday character the search matches in "다음 주 월요일" is 월 (Monday). */
  lemma NextMondayMatched(s: string)
    requires s == "다음 주 월요일"
    ensures MatchedWeekday(s) == Ok("월요일")
  {
    NextMondaySearches(s);
    var m := s[5..];
    assert m[0] == s[5] == '월';
    MondayParse(m);
  }

  lemma MondayParse(m: string)
    requires m != [] && m[0] == '월'
    ensures ParseWeekday(m) == Ok("월요일")
  {
    assert IndexOf(Weekdays, m[0]) == Ok(0);
    assert [Weekdays[0]] + "요일" == "월요일";
  }

  /** Reading the matched character, the weekday branch never raises, and names the first weekday
      character of the text. */
  lemma MatchedWeekdaySpec(t: string)
    requires WeekdaySearch(t)
    ensures MatchedWeekday(t).Ok?
    ensures var i := FirstIn(t, Weekdays).value; MatchedWeekday(t).value == [t[i]] + "요일"
  {
  }

  /** Reading the matched character, the ordinal branch never raises, and gives `D+k` for the
      first ordinal character of the text. */
  lemma MatchedOrdinalSpec(t: string)
    requires OrdinalSearch(t)
    ensures MatchedOrdinal(t).Ok?
    ensures var i := FirstIn(t, Ordinals).value; var k := IndexOf(Ordinals, t[i]).value;
      k < 4 && Ordinals[k] == t[i] && MatchedOrdinal(t).value == "D+" + [DigitChar(k + 1)]
  {
  }

  /** Reading the matched character, the DT_DAY decision list never raises: the number parse has
      the digit the search found, and the weekday and ordinal branches have their character. */
  lemma MatchedNeverRaises(t: string, tb: Tables, kr2num: string -> string)
    ensures DayValue(t, tb, kr2num, true).Ok?
  {
    if t in tb.general || t in tb.named || Offset(tb.deixis, t).Some? || DayNumeralSearch(t) {
    } else if DigitSearch(t) {
      assert ParseNumber(t).Ok?;
    } else if WeekdaySearch(t) {
      MatchedWeekdaySpec(t);
    } else if OrdinalSearch(t) {
      MatchedOrdinalSpec(t);
    }
  }

  /** Two named dates can never be matched: preprocessing keeps only the text after a `·` and
      strips the ends, so "8·15" and "3·1절 " are never what the named-date test sees. */
  lemma UnreachableNamedDates(s: string)
    ensures Preprocess(s) != "8·15" && Preprocess(s) != "3·1절 "
  {
    PreprocessSpec(s);
    assert "8·15"[1] == '·';
    assert "3·1절 "[1] == '·';
  }

  /** The characters `datetime_preprocess` deletes wherever they stand in the text. */
  const ParticleChars: string := "쯤께경중치"

  predicate HasParticle(w: string) {
    exists i :: 0 <= i < |w| && w[i] in ParticleChars
  }

  /** The particle deletion leaves none of 쯤, 께, 경, 중 and 치 behind. */
  lemma {:induction false} DropParticlesClean(s: string)
    ensures !HasParticle(DropParticles(s))
    decreases |s|
  {
    if s != [] {
      DropParticlesClean(s[1..]);
      if |s| >= 3 {
        DropParticlesClean(s[3..]);
      }
      if !(s[0] in "쯤께경중치") && !(|s| >= 3 && IsSpace(s[0]) && s[1..3] == "정도")
         && !(s[0] == '만' && (|s| == 1 || s[1..] == "\n")) {
        var rest := DropParticles(s[1..]);
        assert DropParticles(s) == [s[0]] + rest;
        forall i | 0 <= i < |[s[0]] + rest| ensures ([s[0]] + rest)[i] !in ParticleChars {
          if i > 0 {
            assert ([s[0]] + rest)[i] == rest[i - 1];
          }
        }
      }
    }
  }

  /** A preprocessed text never holds 쯤, 께, 경, 중 or 치. */
  lemma PreprocessClean(s: string)
    ensures !HasParticle(Preprocess(s))
  {
    var t := DropParticles(DropLeadWord(s));
    var p := LastPiece(t, '·');
    DropParticlesClean(DropLeadWord(s));
    PreprocessSpec(s);
    StripSpec(p);
    forall i | 0 <= i < |Preprocess(s)| ensures Preprocess(s)[i] !in ParticleChars {
      var c := Preprocess(s)[i];
      assert c in p;
      var j :| 0 <= j < |p| && p[j] == c;
      assert t[|t| - |p| + j] == c;
    }
  }

  /** Every key of the day tables that holds 쯤, 께, 경, 중 or 치 (어저께, 그저께, 엊그저께,
      그끄저께, 경칩, 경로의 날, 경찰의 날, 국경절, 중복, 중복날, 중양절, 중추절) can never be matched:
      the lookups compare the preprocessed text, and preprocessing deletes those characters. */
  lemma ParticleKeysUnreachable(s: string)
    ensures forall w :: w in GeneralDateConcepts && HasParticle(w) ==> Preprocess(s) != w
    ensures forall w :: w in NamedDates && HasParticle(w) ==> Preprocess(s) != w
    ensures forall i :: 0 <= i < |DeixisDates| && HasParticle(DeixisDates[i].0) ==> Preprocess(s) != DeixisDates[i].0
  {
    PreprocessClean(s);
  }

  /** The day-table keys that hold a deleted character, and so are never matched. */
  lemma ParticleKeys()
    ensures forall i :: 0 <= i < |DeixisDates| && DeixisDates[i].0 in ["어저께", "그저께", "엊그저께", "그끄저께"] ==>
      HasParticle(DeixisDates[i].0)
    ensures "어저께" == DeixisDates[18].0 && "그저께" == DeixisDates[20].0
      && "엊그저께" == DeixisDates[22].0 && "그끄저께" == DeixisDates[23].0
    ensures forall w :: w in ["경로의 날", "경찰의 날", "경칩", "국경절", "중복", "중복날", "중양절", "중추절"] ==>
      HasParticle(w) && w in NamedDates
  {
    forall w | w in ["어저께", "그저께", "엊그저께", "그끄저께"] ensures HasParticle(w) {
      assert w[|w| - 1] == '께';
    }
    forall w | w in ["경로의 날", "경찰의 날", "경칩", "국경절", "중복", "중복날", "중양절", "중추절"]
      ensures HasParticle(w) && w in NamedDates
    {
      if w == "국경절" {
        assert w[1] == '경';
      } else {
        assert w[0] in ParticleChars;
      }
      assert w in NamedDates1 || w in NamedDates2 || w in NamedDates9 || w in NamedDates10;
    }
  }
}
