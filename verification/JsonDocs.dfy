/**
 JSON texts as a grammar, independent of the parser: each value may be spelt in many ways,
 with any whitespace between tokens and any byte of a string plain or escaped. The parser
 reads every such text as what it means. The printer's text is one of them, and the only
 one without spaces and with no more escapes than needed.
 */
module JsonDocs {
  import opened Bits
  import opened Common
  import opened Cursor
  import opened Decimal
  import opened MapKeys
  import opened Json

  // ---- The grammar ----

  /** The bytes of an ASCII text. */
  function Ascii(s: string): (t: Text)
    requires forall i :: 0 <= i < |s| ==> (s[i] as int) < 128
    ensures |t| == |s| && forall i :: 0 <= i < |s| ==> t[i] == s[i] as int
  {
    seq(|s|, i requires 0 <= i < |s| => s[i] as int)
  }

  /** Blank, tab, newline, vertical tab, form feed, return. */
  predicate Gap(t: Text) {
    forall i :: 0 <= i < |t| ==> t[i] in {32, 9, 10, 11, 12, 13}
  }

  datatype Char = Plain(c: Byte) | Escaped(c: Byte)

  /** A plain byte is no quote, no backslash and no NUL. */
  predicate CharOk(x: Char) {
    match x
    case Plain(c) => c != 34 && c != 92 && c != 0
    case Escaped(c) => c != 0
  }

  function CharText(x: Char): (t: Text)
    ensures 1 <= |t| <= 2
  {
    match x
    case Plain(c) => [c]
    case Escaped(c) => [92, c]
  }

  /**
   \n is a newline, \r a return, \t a tab; a quote, a backslash and a slash stand for
   themselves. Any other escape stands for its backslash alone.
   */
  function CharMeans(x: Char): Byte {
    match x
    case Plain(c) => c
    case Escaped(c) => if c == 110 then 10 else if c == 114 then 13 else if c == 116 then 9
                       else if c in {34, 92, 47} then c else 92
  }

  predicate CharsOk(cs: seq<Char>) {
    forall i :: 0 <= i < |cs| ==> CharOk(cs[i])
  }

  function CharsText(cs: seq<Char>): Text {
    if cs == [] then [] else CharText(cs[0]) + CharsText(cs[1..])
  }

  function CharsMean(cs: seq<Char>): (t: Text)
    ensures |t| == |cs| && forall i :: 0 <= i < |cs| ==> t[i] == CharMeans(cs[i])
  {
    seq(|cs|, i requires 0 <= i < |cs| => CharMeans(cs[i]))
  }

  datatype Doc =
    | Word(v: Json)                             // null, true, false
    | Number(sign: Text, digits: Text)
    | Real(text: Text)
    | Literal(chars: seq<Char>)
    | List(pad: Text, items: seq<Spaced>)       // `pad` is between the brackets of an empty one
    | Record(pad: Text, members: seq<Member>)

  datatype Spaced = Spaced(before: Text, doc: Doc, after: Text)

  datatype Member = Member(before: Text, key: seq<Char>, mid: Text, colon: bool, value: Spaced)

  predicate NumberOk(sign: Text, digits: Text) {
    sign in {[], [43], [45]} && digits != [] && forall i :: 0 <= i < |digits| ==> IsDigit(digits[i])
  }

  /** What strtod is given: digits, signs, points and exponents, with a point or an exponent among them. */
  predicate RealOk(t: Text) {
    && (forall i :: 0 <= i < |t| ==> IsDigit(t[i]) || t[i] in {43, 45, 46, 69, 101})
    && exists i :: 0 <= i < |t| && t[i] in {46, 69, 101}
  }

  predicate DocOk(d: Doc) {
    match d
    case Word(v) => v.Null? || v.Bool?
    case Number(sign, digits) => NumberOk(sign, digits)
    case Real(t) => RealOk(t)
    case Literal(cs) => CharsOk(cs)
    case List(pad, items) => Gap(pad) && forall i :: 0 <= i < |items| ==> SpacedOk(items[i])
    case Record(pad, ms) =>
      && Gap(pad)
      && forall i :: 0 <= i < |ms| ==> FrontOk(ms[i]) && SpacedOk(ms[i].value)
  }

  /** The colon may be missing; all whitespace there is then `mid`. */
  predicate FrontOk(m: Member) {
    Gap(m.before) && CharsOk(m.key) && Gap(m.mid) && (m.colon || m.value.before == [])
  }

  predicate SpacedOk(x: Spaced) {
    Gap(x.before) && DocOk(x.doc) && Gap(x.after)
  }

  function DocText(d: Doc): Text {
    match d
    case Word(v) => Ascii(if v.Null? then "null" else if v == Bool(true) then "true" else "false")
    case Number(sign, digits) => sign + digits
    case Real(t) => t
    case Literal(cs) => LiteralText(cs)
    case List(pad, items) =>
      Ascii("[")
      + ((if items == [] then pad else Commas(seq(|items|, i requires 0 <= i < |items| => SpacedText(items[i]))))
         + Ascii("]"))
    case Record(pad, ms) =>
      Ascii("{")
      + ((if ms == [] then pad else Commas(seq(|ms|, i requires 0 <= i < |ms| => MemberText(ms[i]))))
         + Ascii("}"))
  }

  function LiteralText(cs: seq<Char>): Text {
    [34] + (CharsText(cs) + [34])
  }

  function SpacedText(x: Spaced): Text {
    x.before + (DocText(x.doc) + x.after)
  }

  function MemberText(m: Member): Text {
    m.before + (LiteralText(m.key) + (m.mid + (Colon(m) + SpacedText(m.value))))
  }

  function Colon(m: Member): Text {
    if m.colon then Ascii(":") else []
  }

  /** An integer outside int64 is read as the nearest one inside. */
  function Clamped(i: int): int {
    if i < -0x8000_0000_0000_0000 then -0x8000_0000_0000_0000
    else if i > 0x7FFF_FFFF_FFFF_FFFF then 0x7FFF_FFFF_FFFF_FFFF else i
  }

  function NumberValue(sign: Text, digits: Text): int
    requires NumberOk(sign, digits)
  {
    if sign == [45] then 0 - Decimal.Number(digits) as int else Decimal.Number(digits)
  }

  function Meaning(d: Doc): Json
    requires DocOk(d)
    decreases d, 1, 0
  {
    match d
    case Word(v) => v
    case Number(sign, digits) =>
      Int(Clamped(NumberValue(sign, digits)))
    case Real(t) => Float(t)
    case Literal(cs) => Str(CharsMean(cs))
    case List(_, items) => Arr(Elems(d, |items|))
    case Record(_, ms) => Obj(Fields(d, |ms|))
  }

  /** The first `n` elements. */
  function Elems(d: Doc, n: nat): (r: seq<Json>)
    requires DocOk(d) && d.List? && n <= |d.items|
    ensures |r| == n
    decreases d, 0, n
  {
    if n == 0 then []
    else
      assert SpacedOk(d.items[n - 1]);
      Elems(d, n - 1) + [Meaning(d.items[n - 1].doc)]
  }

  /** The first `n` members; of two with one key the later counts. */
  function Fields(d: Doc, n: nat): map<Text, Json>
    requires DocOk(d) && d.Record? && n <= |d.members|
    decreases d, 0, n
  {
    if n == 0 then map[]
    else
      assert SpacedOk(d.members[n - 1].value);
      Fields(d, n - 1)[CharsMean(d.members[n - 1].key) := Meaning(d.members[n - 1].value.doc)]
  }

  // ---- Tokens ----

  /** Whitespace is skipped up to whatever follows it. */
  lemma {:induction false} GapSkipped(s: Text, p: nat, g: Text)
    requires StartsWith(s, p, g) && Gap(g) && !IsSpace(At(s, p + |g|))
    ensures p <= |s| && SkipSpace(s, p) == p + |g|
    decreases |g|
  {
    if g != [] {
      assert g == g[..1] + g[1..];
      Divide(s, p, g[..1], g[1..]);
      Head(s, p, g, 0);
      GapSkipped(s, p + 1, g[1..]);
    }
  }

  lemma {:induction false} SkipTwice(s: Text, p: nat)
    requires p <= |s|
    ensures !IsSpace(At(s, SkipSpace(s, p))) && SkipSpace(s, SkipSpace(s, p)) == SkipSpace(s, p)
    decreases |s| - p
  {
    if IsSpace(At(s, p)) {
      SkipTwice(s, p + 1);
    }
  }

  /** The parser looks for the value behind the whitespace. */
  lemma SkipsFirst(s: Text, p: nat)
    requires p <= |s|
    ensures ParseValue(s, p) == ParseValue(s, SkipSpace(s, p))
  {
    hide SkipSpace, StringRest, ParseNumber;
    SkipTwice(s, p);
  }

  lemma OneChar(s: Text, p: nat, x: Char, acc: Text)
    requires StartsWith(s, p, CharText(x)) && CharOk(x)
    ensures StringRest(s, p, acc) == StringRest(s, p + |CharText(x)|, acc + [CharMeans(x)])
  {
    hide StartsWith;
    Head(s, p, CharText(x), 0);
    if x.Escaped? {
      Head(s, p, CharText(x), 1);
    }
  }

  /** The characters of a literal are read one after the other. */
  lemma {:induction false} CharsRead(s: Text, p: nat, cs: seq<Char>, acc: Text)
    requires StartsWith(s, p, CharsText(cs)) && CharsOk(cs)
    ensures p + |CharsText(cs)| <= |s|
    ensures StringRest(s, p, acc) == StringRest(s, p + |CharsText(cs)|, acc + CharsMean(cs))
    decreases |cs|
  {
    hide StringRest, CharText, CharMeans, CharOk;
    if cs == [] {
      assert acc + CharsMean(cs) == acc;
    } else {
      var c := CharText(cs[0]);
      Divide(s, p, c, CharsText(cs[1..]));
      OneChar(s, p, cs[0], acc);
      CharsRead(s, p + |c|, cs[1..], acc + [CharMeans(cs[0])]);
      assert acc + [CharMeans(cs[0])] + CharsMean(cs[1..]) == acc + CharsMean(cs);
    }
  }

  /** A literal behind its opening quote; one that the text breaks off ends there. */
  lemma LiteralRead(s: Text, p: nat, cs: seq<Char>)
    requires StartsWith(s, p, CharsText(cs)) && CharsOk(cs)
    ensures var q := p + |CharsText(cs)|;
            && q <= |s|
            && (At(s, q) == 34 ==> StringRest(s, p, []) == Some(Parsed(CharsMean(cs), q + 1)))
            && (q == |s| ==> StringRest(s, p, []) == Some(Parsed(CharsMean(cs), q)))
  {
    hide StartsWith;
    CharsRead(s, p, cs, []);
    assert [] + CharsMean(cs) == CharsMean(cs);
  }

  lemma LiteralParses(s: Text, p: nat, cs: seq<Char>)
    requires p <= |s| && StartsWith(s, p, LiteralText(cs)) && CharsOk(cs)
    ensures At(s, p) == QUOTE && p + |LiteralText(cs)| <= |s|
    ensures StringRest(s, p + 1, []) == Some(Parsed(CharsMean(cs), p + |LiteralText(cs)|))
  {
    hide StartsWith, StringRest;
    Divide(s, p, [34], CharsText(cs) + [34]);
    Head(s, p, [34], 0);
    Divide(s, p + 1, CharsText(cs), [34]);
    Head(s, p + 1 + |CharsText(cs)|, [34], 0);
    LiteralRead(s, p + 1, cs);
  }

  lemma SignedRead(sign: Text, digits: Text)
    requires NumberOk(sign, digits)
    ensures Strtoll(sign + digits) == Clamped(NumberValue(sign, digits))
  {
    hide DigitRun;
    var t := sign + digits;
    DigitRunAll(digits);
    assert digits[..DigitRun(digits)] == digits;
    if sign == [] {
      assert t == digits;
    } else {
      assert t[1..] == digits && t[0] == sign[0];
    }
  }

  lemma NumberChars(sign: Text, digits: Text)
    requires NumberOk(sign, digits)
    ensures var t := sign + digits; forall i :: 0 <= i < |t| ==> IsNumChar(t[i]) && !IsFloatChar(t[i])
  {
  }

  lemma NumberReads(s: Text, p: nat, d: Doc)
    requires d.Number? && DocOk(d) && p <= |s|
    requires StartsWith(s, p, DocText(d)) && !IsNumChar(At(s, p + |DocText(d)|))
    ensures ParseNumber(s, p) == Parsed(Meaning(d), p + |DocText(d)|)
    ensures p < |s| && IsNumChar(s[p])
  {
    hide Strtoll, NumberOk, Clamped, NumberValue;
    var t := DocText(d);
    NumberChars(d.sign, d.digits);
    NumberEndAt(s, p, t);
    SignedRead(d.sign, d.digits);
    assert t != [] by { NotEmpty(d.sign, d.digits); }
    Head(s, p, t, 0);
  }

  lemma NotEmpty(sign: Text, digits: Text)
    requires NumberOk(sign, digits)
    ensures sign + digits != []
  {
  }

  lemma RealReads(s: Text, p: nat, d: Doc)
    requires d.Real? && DocOk(d) && p <= |s|
    requires StartsWith(s, p, DocText(d)) && !IsNumChar(At(s, p + |DocText(d)|))
    ensures ParseNumber(s, p) == Parsed(Meaning(d), p + |DocText(d)|)
    ensures p < |s| && IsNumChar(s[p])
  {
    var t := DocText(d);
    Head(s, p, t, 0);
    NumberEndAt(s, p, t);
    var i :| 0 <= i < |t| && t[i] in {46, 69, 101};
    assert IsFloatChar(t[i]);
  }

  lemma WordReads(s: Text, p: nat, d: Doc)
    requires d.Word? && DocOk(d) && p <= |s| && StartsWith(s, p, DocText(d))
    ensures ParseValue(s, p) == Some(Parsed(Meaning(d), p + |DocText(d)|))
  {
    hide StringRest, ParseNumber, DocText, SkipSpace;
    WordText(d);
    Head(s, p, DocText(d), 0);
    NoSpace(s, p);
  }

  lemma WordText(d: Doc)
    requires d.Word? && DocOk(d)
    ensures DocText(d) == if d.v.Null? then NULL else if d.v == Json.Bool(true) then TRUE else FALSE
  {
  }

  lemma AtomReads(s: Text, p: nat, d: Doc)
    requires DocOk(d) && !d.List? && !d.Record? && p <= |s|
    requires StartsWith(s, p, DocText(d)) && !IsNumChar(At(s, p + |DocText(d)|))
    ensures ParseValue(s, p) == Some(Parsed(Meaning(d), p + |DocText(d)|))
  {
    hide StringRest, ParseNumber, StartsWith, LiteralText, NumberOk, RealOk;
    match d
    case Word(_) => WordReads(s, p, d);
    case Literal(cs) =>
      LiteralParses(s, p, cs);
      NoSpace(s, p);
    case Number(_, _) =>
      NumberReads(s, p, d);
      NoSpace(s, p);
      NotAWord(s, p);
    case Real(_) =>
      RealReads(s, p, d);
      NoSpace(s, p);
      NotAWord(s, p);
  }

  // ---- Values ----

  function Items(d: Doc): (r: seq<Text>)
    requires d.List?
    ensures |r| == |d.items| && forall i :: 0 <= i < |r| ==> r[i] == SpacedText(d.items[i])
  {
    seq(|d.items|, i requires 0 <= i < |d.items| => SpacedText(d.items[i]))
  }

  function Members(d: Doc): (r: seq<Text>)
    requires d.Record?
    ensures |r| == |d.members| && forall i :: 0 <= i < |r| ==> r[i] == MemberText(d.members[i])
  {
    seq(|d.members|, i requires 0 <= i < |d.members| => MemberText(d.members[i]))
  }

  lemma ListText(d: Doc)
    requires d.List?
    ensures DocText(d) == [OPEN_ARR] + ((if d.items == [] then d.pad else Commas(Items(d))) + [CLOSE_ARR])
  {
    assert Ascii("[") == [OPEN_ARR] && Ascii("]") == [CLOSE_ARR];
    assert Items(d) == seq(|d.items|, i requires 0 <= i < |d.items| => SpacedText(d.items[i]));
  }

  lemma RecordText(d: Doc)
    requires d.Record?
    ensures DocText(d) == [OPEN_OBJ] + ((if d.members == [] then d.pad else Commas(Members(d))) + [CLOSE_OBJ])
  {
    assert Ascii("{") == [OPEN_OBJ] && Ascii("}") == [CLOSE_OBJ];
    assert Members(d) == seq(|d.members|, i requires 0 <= i < |d.members| => MemberText(d.members[i]));
  }

  /** A byte a value may start with: no space, no NUL, nothing that closes or separates. */
  predicate Starts(c: Byte) {
    !IsSpace(c) && c !in {0, COMMA, COLON, CLOSE_ARR, CLOSE_OBJ}
  }

  lemma DocStarts(d: Doc)
    requires DocOk(d)
    ensures DocText(d) != [] && Starts(DocText(d)[0])
  {
    match d
    case Word(v) => assert DocText(d)[0] in {110, 116, 102};
    case List(_, _) => ListText(d);
    case Record(_, _) => RecordText(d);
    case _ =>
  }

  /** A byte that ends a number and is no whitespace. */
  predicate Ends(c: Byte) {
    !IsNumChar(c) && !IsSpace(c)
  }

  /** A value among whitespace: the parser finds it, and the whitespace behind it up to what follows. */
  lemma {:induction false} SpacedReads(s: Text, p: nat, x: Spaced)
    requires SpacedOk(x) && p <= |s| && StartsWith(s, p, SpacedText(x)) && Ends(At(s, p + |SpacedText(x)|))
    ensures var e := p + |x.before| + |DocText(x.doc)|;
            && SkipSpace(s, p) == p + |x.before| < |s| && Starts(At(s, p + |x.before|))
            && ParseValue(s, p) == Some(Parsed(Meaning(x.doc), e)) && e <= |s| && SkipSpace(s, e) == p + |SpacedText(x)|
    decreases x, 2, 0
  {
    hide StartsWith, ParseValue, DocText, Gap, SkipSpace, IsSpace, IsNumChar;
    Divide(s, p, x.before, DocText(x.doc) + x.after);
    var b := p + |x.before|;
    Divide(s, b, DocText(x.doc), x.after);
    var e := b + |DocText(x.doc)|;
    DocStarts(x.doc);
    Head(s, b, DocText(x.doc), 0);
    GapSkipped(s, p, x.before);
    GapSkipped(s, e, x.after);
    GapEnds(s, e, x.after);
    SkipsFirst(s, p);
    DocReads(s, b, x.doc);
  }

  lemma GapEnds(s: Text, p: nat, g: Text)
    requires StartsWith(s, p, g) && Gap(g) && Ends(At(s, p + |g|))
    ensures !IsNumChar(At(s, p))
  {
    if g != [] {
      Head(s, p, g, 0);
    }
  }

  /** The parser reads every spelling of a value as that value, and stops right behind it. */
  lemma {:induction false} DocReads(s: Text, p: nat, d: Doc)
    requires DocOk(d) && p <= |s| && StartsWith(s, p, DocText(d)) && !IsNumChar(At(s, p + |DocText(d)|))
    ensures ParseValue(s, p) == Some(Parsed(Meaning(d), p + |DocText(d)|))
    decreases d, 1, 0
  {
    match d
    case List(_, _) => ListReads(s, p, d);
    case Record(_, _) => RecordReads(s, p, d);
    case _ => AtomReads(s, p, d);
  }

  lemma {:induction false} ListReads(s: Text, p: nat, d: Doc)
    requires d.List? && DocOk(d) && p <= |s| && StartsWith(s, p, DocText(d))
    ensures ParseValue(s, p) == Some(Parsed(Meaning(d), p + |DocText(d)|))
    decreases d, 0, |d.items| + 1
  {
    hide StartsWith, DocText, DocOk, Commas, ParseElems, StringRest, ParseFields, ParseNumber, Gap, SkipSpace, Elems;
    ListText(d);
    var inner := if d.items == [] then d.pad else Commas(Items(d));
    Divide(s, p, [OPEN_ARR], inner + [CLOSE_ARR]);
    Head(s, p, [OPEN_ARR], 0);
    NoSpace(s, p);
    Divide(s, p + 1, inner, [CLOSE_ARR]);
    Head(s, p + 1 + |inner|, [CLOSE_ARR], 0);
    PadOk(d);
    if d.items == [] {
      GapSkipped(s, p + 1, d.pad);
    } else {
      assert Items(d)[0..] == Items(d);
      ItemsRead(s, p + 1, d, 0);
    }
    NoElems(d);
  }

  lemma PadOk(d: Doc)
    requires DocOk(d)
    ensures d.List? || d.Record? ==> Gap(d.pad)
  {
  }

  lemma NoElems(d: Doc)
    requires DocOk(d)
    ensures d.List? ==> Elems(d, 0) == []
    ensures d.Record? ==> Fields(d, 0) == map[]
  {
  }

  /** The first of the parts that are left, and what separates it from the next. */
  lemma CommasStep(s: Text, p: nat, parts: seq<Text>, k: nat)
    requires k < |parts| && StartsWith(s, p, Commas(parts[k..]))
    ensures StartsWith(s, p, parts[k])
    ensures k + 1 < |parts| ==>
              && At(s, p + |parts[k]|) == COMMA && p + |parts[k]| < |s|
              && StartsWith(s, p + |parts[k]| + 1, Commas(parts[k + 1..]))
    ensures |Commas(parts[k..])| == |parts[k]| + if k + 1 < |parts| then 1 + |Commas(parts[k + 1..])| else 0
  {
    hide StartsWith;
    if k + 1 < |parts| {
      var rest := Commas(parts[k + 1..]);
      assert parts[k..][1..] == parts[k + 1..];
      assert Commas(parts[k..]) == parts[k] + ([COMMA] + rest);
      Divide(s, p, parts[k], [COMMA] + rest);
      Divide(s, p + |parts[k]|, [COMMA], rest);
      Head(s, p + |parts[k]|, [COMMA], 0);
    } else {
      assert Commas(parts[k..]) == parts[k];
    }
  }

  lemma ItemOk(d: Doc, k: nat)
    requires d.List? && DocOk(d) && k < |d.items|
    ensures SpacedOk(d.items[k]) && Elems(d, k + 1) == Elems(d, k) + [Meaning(d.items[k].doc)]
  {
  }

  /** One round of the loop of parse_json_array. */
  lemma ElemRound(s: Text, p: nat, v: Json, e: nat, acc: seq<Json>)
    requires p <= |s| && ParseValue(s, p) == Some(Parsed(v, e)) && e <= |s|
    ensures var q := SkipSpace(s, e);
            ParseElems(s, SkipSpace(s, p), acc) ==
            if At(s, q) == COMMA then ParseElems(s, SkipSpace(s, q + 1), acc + [v])
            else Some(Parsed(Arr(acc + [v]), if At(s, q) == CLOSE_ARR then q + 1 else q))
  {
    hide SkipSpace, ParseValue;
    SkipsFirst(s, p);
  }

  /**
   The elements from number `k` on. What follows the last one is no comma: the closing
   bracket, or else the array ends there without one.
   */
  lemma {:induction false} ItemsRead(s: Text, p: nat, d: Doc, k: nat)
    requires d.List? && DocOk(d) && k < |d.items| && p <= |s| && StartsWith(s, p, Commas(Items(d)[k..]))
    requires var e := At(s, p + |Commas(Items(d)[k..])|); Ends(e) && e != COMMA
    ensures Starts(At(s, SkipSpace(s, p)))
    ensures var e := p + |Commas(Items(d)[k..])|;
            ParseElems(s, SkipSpace(s, p), Elems(d, k)) ==
              Some(Parsed(Arr(Elems(d, |d.items|)), if At(s, e) == CLOSE_ARR then e + 1 else e))
    decreases d, 0, |d.items| - k
  {
    hide StartsWith, DocOk, Commas, ParseValue, ParseElems, SkipSpace, SpacedText, Elems, SpacedOk;
    var parts := Items(d);
    CommasStep(s, p, parts, k);
    ItemOk(d, k);
    var x := d.items[k];
    SpacedReads(s, p, x);
    ElemRound(s, p, Meaning(x.doc), p + |x.before| + |DocText(x.doc)|, Elems(d, k));
    if k + 1 < |parts| {
      ItemsRead(s, p + |parts[k]| + 1, d, k + 1);
    }
  }

  // ---- Objects ----

  lemma MemberOk(d: Doc, k: nat)
    requires d.Record? && DocOk(d) && k < |d.members|
    ensures var m := d.members[k];
            && FrontOk(m) && SpacedOk(m.value)
            && Fields(d, k + 1) == Fields(d, k)[CharsMean(m.key) := Meaning(m.value.doc)]
  {
    assert SpacedOk(d.members[k].value);
  }

  /** Where the parts of a member are. */
  lemma MemberParts(s: Text, p: nat, m: Member)
    requires StartsWith(s, p, MemberText(m))
    ensures var b := p + |m.before|;
            var q := b + |LiteralText(m.key)|;
            var c := q + |m.mid|;
            && StartsWith(s, p, m.before) && StartsWith(s, b, LiteralText(m.key)) && StartsWith(s, q, m.mid)
            && (m.colon ==> c < |s| && At(s, c) == COLON) && StartsWith(s, c + |Colon(m)|, SpacedText(m.value))
            && c + |Colon(m)| + |SpacedText(m.value)| == p + |MemberText(m)| <= |s|
  {
    hide StartsWith, LiteralText, SpacedText;
    var b := p + |m.before|;
    var q := b + |LiteralText(m.key)|;
    var rest := Colon(m) + SpacedText(m.value);
    var behind := m.mid + rest;
    assert MemberText(m) == m.before + (LiteralText(m.key) + behind);
    hide MemberText;
    Bounded(s, p, MemberText(m));
    Divide(s, p, m.before, LiteralText(m.key) + behind);
    Divide(s, b, LiteralText(m.key), behind);
    Divide(s, q, m.mid, rest);
    Divide(s, q + |m.mid|, Colon(m), SpacedText(m.value));
    if m.colon {
      Head(s, q + |m.mid|, Colon(m), 0);
    }
  }

  /** What follows a key and its whitespace: the colon, or else the value. */
  lemma BehindKey(s: Text, p: nat, m: Member)
    requires StartsWith(s, p, MemberText(m)) && FrontOk(m) && SpacedOk(m.value)
    ensures var c := p + |m.before| + |LiteralText(m.key)| + |m.mid|;
            c < |s| && !IsSpace(At(s, c)) && (At(s, c) == COLON <==> m.colon) && |Colon(m)| == if m.colon then 1 else 0
  {
    hide StartsWith, LiteralText, SpacedText, MemberText, CharsOk, Gap, DocText, IsSpace;
    MemberParts(s, p, m);
    if !m.colon {
      var c := p + |m.before| + |LiteralText(m.key)| + |m.mid|;
      assert SpacedText(m.value) == DocText(m.value.doc) + m.value.after by { BareFront(m.value); }
      Divide(s, c, DocText(m.value.doc), m.value.after);
      DocStarts(m.value.doc);
      Head(s, c, DocText(m.value.doc), 0);
    } else {
      NoColonSpace();
    }
  }

  lemma BareFront(x: Spaced)
    requires x.before == []
    ensures SpacedText(x) == DocText(x.doc) + x.after
  {
  }

  lemma NoColonSpace()
    ensures !IsSpace(COLON)
  {
  }

  /** How the parser reads the key of a member. */
  lemma KeyReads(s: Text, p: nat, m: Member)
    requires p <= |s| && StartsWith(s, p, MemberText(m)) && FrontOk(m) && SpacedOk(m.value)
    ensures var b := p + |m.before|;
            var q := b + |LiteralText(m.key)|;
            && SkipSpace(s, p) == b < |s| && At(s, b) == QUOTE
            && StringRest(s, b + 1, []) == Some(Parsed(CharsMean(m.key), q))
            && q <= |s| && SkipSpace(s, q) == q + |m.mid|
  {
    hide StartsWith, StringRest, LiteralText, SpacedText, CharsOk, Gap, SkipSpace, MemberText;
    MemberParts(s, p, m);
    BehindKey(s, p, m);
    LiteralParses(s, p + |m.before|, m.key);
    GapSkipped(s, p, m.before);
    GapSkipped(s, p + |m.before| + |LiteralText(m.key)|, m.mid);
  }

  lemma Bounded(s: Text, p: nat, t: Text)
    requires StartsWith(s, p, t)
    ensures p + |t| <= |s|
  {
  }

  /** One round of the loop of parse_json_object. */
  lemma FieldRound(s: Text, p: nat, b: nat, key: Text, q: nat, c: nat, v: Json, e: nat, acc: map<Text, Json>)
    requires p <= |s| && SkipSpace(s, p) == b && At(s, b) == QUOTE && b < |s|
    requires StringRest(s, b + 1, []) == Some(Parsed(key, q)) && q <= |s| && SkipSpace(s, q) == c < |s|
    requires ParseValue(s, if At(s, c) == COLON then c + 1 else c) == Some(Parsed(v, e)) && e <= |s|
    ensures var o := SkipSpace(s, e);
            ParseFields(s, SkipSpace(s, p), acc) ==
            if At(s, o) == COMMA then ParseFields(s, SkipSpace(s, o + 1), acc[key := v])
            else Some(Parsed(Obj(acc[key := v]), if At(s, o) == CLOSE_OBJ then o + 1 else o))
  {
    hide SkipSpace, ParseValue, StringRest;
    SkipTwice(s, p);
  }

  /** The members from number `k` on, to the closing brace or to where it is missing. */
  lemma {:induction false} MembersRead(s: Text, p: nat, d: Doc, k: nat)
    requires d.Record? && DocOk(d) && k < |d.members| && p <= |s| && StartsWith(s, p, Commas(Members(d)[k..]))
    requires var e := At(s, p + |Commas(Members(d)[k..])|); Ends(e) && e != COMMA
    ensures At(s, SkipSpace(s, p)) == QUOTE
    ensures var e := p + |Commas(Members(d)[k..])|;
            ParseFields(s, SkipSpace(s, p), Fields(d, k)) ==
              Some(Parsed(Obj(Fields(d, |d.members|)), if At(s, e) == CLOSE_OBJ then e + 1 else e))
    decreases d, 0, |d.members| - k
  {
    hide StartsWith, DocOk, Commas, ParseValue, ParseFields, SkipSpace, SpacedText, Fields, SpacedOk, LiteralText,
         StringRest, CharsOk, Gap, MemberText, Colon, FrontOk;
    var parts := Members(d);
    CommasStep(s, p, parts, k);
    MemberOk(d, k);
    var m := d.members[k];
    MemberParts(s, p, m);
    KeyReads(s, p, m);
    BehindKey(s, p, m);
    var b := p + |m.before|;
    var q := b + |LiteralText(m.key)|;
    var c := q + |m.mid|;
    SpacedReads(s, c + |Colon(m)|, m.value);
    FieldRound(s, p, b, CharsMean(m.key), q, c, Meaning(m.value.doc),
               c + |Colon(m)| + |m.value.before| + |DocText(m.value.doc)|, Fields(d, k));
    if k + 1 < |parts| {
      MembersRead(s, p + |parts[k]| + 1, d, k + 1);
    }
  }

  lemma {:induction false} RecordReads(s: Text, p: nat, d: Doc)
    requires d.Record? && DocOk(d) && p <= |s| && StartsWith(s, p, DocText(d))
    ensures ParseValue(s, p) == Some(Parsed(Meaning(d), p + |DocText(d)|))
    decreases d, 0, |d.members| + 1
  {
    hide StartsWith, DocText, DocOk, Commas, ParseElems, StringRest, ParseFields, ParseNumber, Gap, SkipSpace, Fields;
    RecordText(d);
    var inner := if d.members == [] then d.pad else Commas(Members(d));
    Divide(s, p, [OPEN_OBJ], inner + [CLOSE_OBJ]);
    Head(s, p, [OPEN_OBJ], 0);
    NoSpace(s, p);
    Divide(s, p + 1, inner, [CLOSE_OBJ]);
    Head(s, p + 1 + |inner|, [CLOSE_OBJ], 0);
    PadOk(d);
    if d.members == [] {
      GapSkipped(s, p + 1, d.pad);
    } else {
      assert Members(d)[0..] == Members(d);
      MembersRead(s, p + 1, d, 0);
    }
    NoElems(d);
  }

  // ---- The printer's spelling ----

  /** A byte as the printer spells it: escaped only if it must be, or is a newline, a return or a tab. */
  function Spelt(c: Byte): Char {
    if c == 34 || c == 92 then Escaped(c)
    else if c == 10 then Escaped(110)
    else if c == 13 then Escaped(114)
    else if c == 9 then Escaped(116)
    else Plain(c)
  }

  function Spelling(t: Text): (cs: seq<Char>)
    ensures |cs| == |t| && forall i :: 0 <= i < |t| ==> cs[i] == Spelt(t[i])
  {
    seq(|t|, i requires 0 <= i < |t| => Spelt(t[i]))
  }

  /** No more escapes than needed, and none of the bytes that end or shift a line as they are. */
  predicate Tight(cs: seq<Char>) {
    forall i :: 0 <= i < |cs| ==> if cs[i].Plain? then cs[i].c !in {9, 10, 13} else cs[i].c in {34, 92, 110, 114, 116}
  }

  /** The digits of a number written once: no needless sign, no needless zero. */
  predicate Shortest(sign: Text, digits: Text) {
    && sign != [43] && digits != [] && (digits[0] == 48 ==> digits == [48] && sign == [])
  }

  /** No whitespace, tight literals, shortest numbers, keys in order. */
  predicate Compact(d: Doc) {
    match d
    case Word(_) => true
    case Number(sign, digits) =>
      NumberOk(sign, digits) && Shortest(sign, digits) && IsInt64(NumberValue(sign, digits))
    case Real(_) => true
    case Literal(cs) => Tight(cs)
    case List(pad, items) => pad == [] && forall i :: 0 <= i < |items| ==> Bare(items[i])
    case Record(pad, ms) =>
      && pad == []
      && (forall i :: 0 <= i < |ms| ==>
            ms[i].before == ms[i].mid == [] && ms[i].colon && Tight(ms[i].key) && Bare(ms[i].value))
      && forall i, j :: 0 <= i < j < |ms| ==> Less(CharsMean(ms[i].key), CharsMean(ms[j].key))
  }

  predicate Bare(x: Spaced) {
    x.before == x.after == [] && Compact(x.doc)
  }

  /** A byte has one tight spelling. */
  lemma {:induction false} TightText(cs: seq<Char>)
    requires CharsOk(cs) && Tight(cs)
    ensures CharsText(cs) == Escape(CharsMean(cs)) && LiteralText(cs) == Quoted(CharsMean(cs))
  {
    if cs != [] {
      TightText(cs[1..]);
      assert CharsMean(cs)[1..] == CharsMean(cs[1..]);
      assert CharText(cs[0]) == EscapeByte(CharMeans(cs[0]));
    }
  }

  lemma SpellingTight(t: Text)
    requires NulFree(t)
    ensures var cs := Spelling(t); CharsOk(cs) && Tight(cs) && CharsMean(cs) == t
  {
  }

  lemma {:induction false} DigitsOfNumber(s: Text)
    requires s != [] && (forall i :: 0 <= i < |s| ==> IsDigit(s[i])) && (s[0] == 48 ==> |s| == 1)
    ensures Digits(Decimal.Number(s)) == s && (s[0] != 48 ==> Decimal.Number(s) >= 1)
    decreases |s|
  {
    if |s| == 1 {
      assert DropLast(s) == [];
      assert Decimal.Number(s) == s[0] as int - 48;
    } else {
      var front := DropLast(s);
      DigitsOfNumber(front);
      assert s == front + [Last(s)];
    }
  }

  lemma NumberText(d: Doc)
    requires d.Number? && DocOk(d) && Compact(d)
    ensures DocText(d) == Encode(Meaning(d))
  {
    DigitsOfNumber(d.digits);
  }

  lemma {:induction false} ElemsAt(d: Doc, n: nat, i: nat)
    requires d.List? && DocOk(d) && i < n <= |d.items|
    ensures SpacedOk(d.items[i]) && Elems(d, n)[i] == Meaning(d.items[i].doc)
    decreases n
  {
    if i < n - 1 {
      ElemsAt(d, n - 1, i);
    }
  }

  function Keys(d: Doc): (ks: seq<Text>)
    requires d.Record?
    ensures |ks| == |d.members| && forall i :: 0 <= i < |ks| ==> ks[i] == CharsMean(d.members[i].key)
  {
    seq(|d.members|, i requires 0 <= i < |d.members| => CharsMean(d.members[i].key))
  }

  /** With different keys, every member counts. */
  lemma {:induction false} FieldsAt(d: Doc, n: nat, i: nat)
    requires d.Record? && DocOk(d) && i < n <= |d.members| && Increasing(Keys(d))
    ensures SpacedOk(d.members[i].value)
    ensures Keys(d)[i] in Fields(d, n) && Fields(d, n)[Keys(d)[i]] == Meaning(d.members[i].value.doc)
    decreases n
  {
    hide DocOk, Fields, SpacedOk, Meaning, Increasing;
    MemberOk(d, n - 1);
    if i < n - 1 {
      FieldsAt(d, n - 1, i);
      KeysDiffer(Keys(d), i, n - 1);
    }
  }

  lemma KeysDiffer(ks: seq<Text>, i: nat, j: nat)
    requires Increasing(ks) && i < j < |ks|
    ensures ks[i] != ks[j]
  {
    LessIrreflexive(ks[i]);
  }

  lemma {:induction false} FieldsKeys(d: Doc, n: nat, k: Text)
    requires d.Record? && DocOk(d) && n <= |d.members| && k in Fields(d, n)
    ensures k in Keys(d)
    decreases n
  {
    hide DocOk, SpacedOk, Meaning;
    if n > 0 {
      MemberOk(d, n - 1);
      if k != Keys(d)[n - 1] {
        FieldsKeys(d, n - 1, k);
      }
    }
  }

  lemma KeysInOrder(d: Doc)
    requires d.Record? && DocOk(d) && Increasing(Keys(d))
    ensures FieldOrder(Fields(d, |d.members|).Keys) == Keys(d)
    ensures forall k :: k in Keys(d) <==> k in Fields(d, |d.members|)
  {
    hide Increasing, DocOk, Fields;
    var n, fields := |d.members|, Fields(d, |d.members|);
    forall k ensures k in Keys(d) <==> k in fields {
      if k in fields {
        FieldsKeys(d, n, k);
      }
      if k in Keys(d) {
        var i :| 0 <= i < n && Keys(d)[i] == k;
        FieldsAt(d, n, i);
      }
    }
    OrderUnique(FieldOrder(fields.Keys), Keys(d), fields.Keys);
  }

  /** A compact text is the encoding of what it means: there is no other. */
  lemma {:induction false} CompactText(d: Doc)
    requires DocOk(d) && Compact(d)
    ensures DocText(d) == Encode(Meaning(d))
    decreases d
  {
    match d
    case Word(_) => WordText(d);
    case Number(_, _) => NumberText(d);
    case Real(_) =>
    case Literal(cs) => TightText(cs);
    case List(_, _) => CompactList(d);
    case Record(_, _) => CompactRecord(d);
  }

  lemma {:induction false} CompactList(d: Doc)
    requires d.List? && DocOk(d) && Compact(d)
    ensures DocText(d) == Encode(Meaning(d))
    decreases d, 0
  {
    var elems := Elems(d, |d.items|);
    forall i | 0 <= i < |d.items| ensures Items(d)[i] == Parts(elems)[i] {
      ElemsAt(d, |d.items|, i);
      assert Bare(d.items[i]);
      CompactText(d.items[i].doc);
      BareText(d.items[i]);
    }
    hide DocText, Encode, Commas, Compact, DocOk;
    ListText(d);
    EncodeArr(elems);
    NothingIn(d, Items(d));
    assert Items(d) == Parts(elems);
  }

  lemma BareText(x: Spaced)
    requires Bare(x)
    ensures SpacedText(x) == DocText(x.doc)
  {
  }

  lemma NothingIn(d: Doc, parts: seq<Text>)
    requires Compact(d)
    ensures (d.List? || d.Record?) && parts == [] ==> d.pad == Commas(parts)
  {
  }

  lemma CompactOk(d: Doc)
    requires d.Record? && DocOk(d) && Compact(d)
    ensures Increasing(Keys(d))
    ensures forall i :: 0 <= i < |d.members| ==>
              var m := d.members[i];
              && m.before == m.mid == [] && m.colon && CharsOk(m.key) && Tight(m.key)
              && Bare(m.value) && DocOk(m.value.doc)
  {
    forall i | 0 <= i < |d.members| ensures SpacedOk(d.members[i].value) {
      MemberOk(d, i);
    }
  }

  lemma {:induction false} CompactRecord(d: Doc)
    requires d.Record? && DocOk(d) && Compact(d)
    ensures DocText(d) == Encode(Meaning(d))
    decreases d, 0
  {
    hide DocText, Encode, Commas, Compact, DocOk, Fields, Tight, CharsOk, Increasing, MemberText, Field;
    var fields, ks := Fields(d, |d.members|), Keys(d);
    CompactOk(d);
    KeysInOrder(d);
    forall i | 0 <= i < |d.members| ensures Members(d)[i] == FieldParts(fields, ks)[i] {
      FieldsAt(d, |d.members|, i);
      CompactText(d.members[i].value.doc);
      BareMember(d.members[i]);
    }
    RecordText(d);
    EncodeObj(fields);
    NothingIn(d, Members(d));
    assert Members(d) == FieldParts(fields, ks);
  }

  lemma BareMember(m: Member)
    requires m.before == m.mid == [] && m.colon && CharsOk(m.key) && Tight(m.key) && Bare(m.value)
    ensures MemberText(m) == Field(CharsMean(m.key), DocText(m.value.doc))
  {
    hide CharsOk, Tight, LiteralText, Quoted, SpacedText, DocText, Compact;
    TightText(m.key);
    BareText(m.value);
    assert Ascii(":") == [COLON];
    var value := [COLON] + DocText(m.value.doc);
    assert [] + value == value && [] + (Quoted(CharsMean(m.key)) + value) == Quoted(CharsMean(m.key)) + value;
  }

  ghost function DocOf(v: Json): Doc
    requires Encodable(v)
  {
    match v
    case Null => Word(v)
    case Bool(_) => Word(v)
    case Int(i) => Number(if i < 0 then [45] else [], Digits(if i < 0 then -i else i))
    case Str(s) => Literal(Spelling(s))
    case Arr(elems) => List([], seq(|elems|, i requires 0 <= i < |elems| => Spaced([], DocOf(elems[i]), [])))
    case Obj(fields) =>
      var ks := FieldOrder(fields.Keys);
      Record([], seq(|ks|, i requires 0 <= i < |ks| =>
        (assert ks[i] in ks; Member([], Spelling(ks[i]), [], true, Spaced([], DocOf(fields[ks[i]]), [])))))
    case Float(t) => Real(t)
  }

  lemma {:induction false} DocOfOk(v: Json)
    requires Encodable(v)
    ensures DocOk(DocOf(v)) && Compact(DocOf(v)) && Meaning(DocOf(v)) == v
    decreases v, 1
  {
    match v
    case Int(i) => DocOfInt(i);
    case Str(s) => SpellingTight(s);
    case Arr(_) => DocOfArr(v);
    case Obj(_) => DocOfObj(v);
    case _ =>
  }

  lemma DocOfInt(i: int)
    requires IsInt64(i)
    ensures var d := DocOf(Json.Int(i)); DocOk(d) && Compact(d) && Meaning(d) == Json.Int(i)
  {
    hide Decimal.Number, Digits;
    var n := if i < 0 then -i else i;
    DigitsNumber(n);
    NoLeadingZero(n);
    assert DocOf(Json.Int(i)) == Number(if i < 0 then [45] else [], Digits(n));
  }

  lemma {:induction false} NoLeadingZero(n: nat)
    ensures Digits(n)[0] == 48 ==> n == 0 && Digits(n) == [48]
  {
    if n >= 10 {
      NoLeadingZero(n / 10);
    }
  }

  lemma {:induction false} DocOfArr(v: Json)
    requires v.Arr? && Encodable(v)
    ensures DocOk(DocOf(v)) && Compact(DocOf(v)) && Meaning(DocOf(v)) == v
    decreases v, 0
  {
    var d := DocOf(v);
    forall i | 0 <= i < |v.elems|
      ensures SpacedOk(d.items[i]) && Bare(d.items[i]) && Meaning(d.items[i].doc) == v.elems[i]
    {
      DocOfOk(v.elems[i]);
    }
    assert DocOk(d);
    forall i | 0 <= i < |v.elems| ensures Elems(d, |d.items|)[i] == v.elems[i] {
      ElemsAt(d, |d.items|, i);
    }
    assert Elems(d, |d.items|) == v.elems;
  }

  lemma {:induction false} DocOfObj(v: Json)
    requires v.Obj? && Encodable(v)
    ensures DocOk(DocOf(v)) && Compact(DocOf(v)) && Meaning(DocOf(v)) == v
    decreases v, 0
  {
    var d, ks := DocOf(v), FieldOrder(v.fields.Keys);
    forall i | 0 <= i < |ks|
      ensures var m := d.members[i];
              && ks[i] in v.fields && CharsOk(m.key) && Tight(m.key) && CharsMean(m.key) == ks[i]
              && SpacedOk(m.value) && Bare(m.value) && Meaning(m.value.doc) == v.fields[ks[i]]
    {
      FieldEncodable(v, ks, i);
      SpellingTight(ks[i]);
      DocOfOk(v.fields[ks[i]]);
    }
    assert Keys(d) == ks;
    assert DocOk(d);
    hide DocOf, DocOk, CharsOk, Tight, SpacedOk, Bare, Fields, FieldOrder;
    KeysInOrder(d);
    SameFields(d, v.fields);
  }

  lemma SameFields(d: Doc, fields: map<Text, Json>)
    requires d.Record? && DocOk(d) && Increasing(Keys(d))
    requires forall k :: k in Keys(d) <==> k in fields
    requires forall i :: 0 <= i < |d.members| ==>
               SpacedOk(d.members[i].value) && Meaning(d.members[i].value.doc) == fields[Keys(d)[i]]
    ensures Fields(d, |d.members|) == fields
  {
    hide DocOk, Fields, SpacedOk, Increasing;
    KeysInOrder(d);
    forall k | k in fields ensures Fields(d, |d.members|)[k] == fields[k] {
      var i :| 0 <= i < |d.members| && Keys(d)[i] == k;
      FieldsAt(d, |d.members|, i);
    }
  }

  /** The printed text is what the grammar has for the value if spaces and needless escapes are left out. */
  lemma EncodeIff(v: Json, t: Text)
    requires Encodable(v)
    ensures t == Encode(v) <==> exists d :: DocOk(d) && Compact(d) && Meaning(d) == v && DocText(d) == t
  {
    DocOfOk(v);
    CompactText(DocOf(v));
    if d :| DocOk(d) && Compact(d) && Meaning(d) == v && DocText(d) == t {
      CompactText(d);
    }
  }

  // ---- The round trip ----

  /**
   A value's encoding, wherever it stands in a text, parses to the value and leaves the
   cursor right behind it. A number must be followed by something else than a number's
   character, which every encoding context provides.
   */
  lemma ValueParses(s: Text, p: nat, v: Json)
    requires Encodable(v) && p <= |s|
    requires StartsWith(s, p, Encode(v)) && !IsNumChar(At(s, p + |Encode(v)|))
    ensures ParseValue(s, p) == Some(Parsed(v, p + |Encode(v)|))
  {
    DocOfOk(v);
    CompactText(DocOf(v));
    DocReads(s, p, DocOf(v));
  }

  /** The law of the pair: json_decode(json_encode(v)) is v, and the whole text is used. */
  lemma RoundTrip(v: Json)
    requires Encodable(v)
    ensures ParseValue(Encode(v), 0) == Some(Parsed(v, |Encode(v)|))
  {
    ValueParses(Encode(v), 0, v);
  }

  /** Hence two values with the same encoding are equal. */
  lemma EncodeInjective(v: Json, w: Json)
    requires Encodable(v) && Encodable(w) && Encode(v) == Encode(w)
    ensures v == w
  {
    RoundTrip(v);
    RoundTrip(w);
  }

  // ---- The printed text by itself ----

  /** Outside string literals, inside one, and inside one behind a backslash. */
  datatype Mode = Outside | Inside | Behind

  /**
   One look over a text from left to right. Outside literals it has no whitespace; inside
   it has no tab, newline or return, and a backslash only in front of a quote, a
   backslash, or the letters of these three.
   */
  function Scan(t: Text, m: Mode): Option<Mode> {
    if t == [] then Some(m)
    else
      match m
      case Outside =>
        if t[0] in {32, 9, 10, 11, 12, 13} then None
        else Scan(t[1..], if t[0] == 34 then Inside else Outside)
      case Inside =>
        if t[0] in {9, 10, 13} then None
        else Scan(t[1..], if t[0] == 34 then Outside else if t[0] == 92 then Behind else Inside)
      case Behind => if t[0] in {34, 92, 110, 114, 116} then Scan(t[1..], Inside) else None
  }

  lemma {:induction false} ScanJoined(a: Text, b: Text, m: Mode)
    ensures Scan(a + b, m) == if Scan(a, m).Some? then Scan(b, Scan(a, m).value) else None
  {
    if a == [] {
      assert a + b == b;
    } else {
      assert (a + b)[1..] == a[1..] + b && (a + b)[0] == a[0];
      ScanJoined(a[1..], b, Outside);
      ScanJoined(a[1..], b, Inside);
      ScanJoined(a[1..], b, Behind);
    }
  }

  lemma {:induction false} ScanPlain(t: Text)
    requires forall i :: 0 <= i < |t| ==> t[i] !in {34, 32, 9, 10, 11, 12, 13}
    ensures Scan(t, Outside) == Some(Outside)
  {
    if t != [] {
      ScanPlain(t[1..]);
    }
  }

  lemma {:induction false} ScanChars(cs: seq<Char>)
    requires CharsOk(cs) && Tight(cs)
    ensures Scan(CharsText(cs), Inside) == Some(Inside)
  {
    if cs != [] {
      var c := CharText(cs[0]);
      ScanJoined(c, CharsText(cs[1..]), Inside);
      assert c[1..] == if cs[0].Plain? then [] else [cs[0].c];
      assert Scan(c, Inside) == Some(Inside);
      ScanChars(cs[1..]);
    }
  }

  lemma ScanLiteral(cs: seq<Char>)
    requires CharsOk(cs) && Tight(cs)
    ensures Scan(LiteralText(cs), Outside) == Some(Outside)
  {
    ScanChars(cs);
    ScanJoined(CharsText(cs), [34], Inside);
    assert [34][1..] == [];
    assert LiteralText(cs)[1..] == CharsText(cs) + [34];
  }

  lemma {:induction false} ScanCommas(parts: seq<Text>)
    requires forall i :: 0 <= i < |parts| ==> Scan(parts[i], Outside) == Some(Outside)
    ensures Scan(Commas(parts), Outside) == Some(Outside)
  {
    hide Scan;
    if |parts| > 1 {
      ScanCommas(parts[1..]);
      ScanPlain([COMMA]);
      ScanJoined(parts[0] + [COMMA], Commas(parts[1..]), Outside);
      ScanJoined(parts[0], [COMMA], Outside);
    } else if parts == [] {
      ScanPlain([]);
    }
  }

  lemma ScanBrackets(open: Byte, inner: Text, close: Byte)
    requires Scan(inner, Outside) == Some(Outside)
    requires open in {OPEN_ARR, OPEN_OBJ} && close in {CLOSE_ARR, CLOSE_OBJ}
    ensures Scan([open] + (inner + [close]), Outside) == Some(Outside)
  {
    hide Scan;
    ScanPlain([open]);
    ScanPlain([close]);
    ScanJoined([open], inner + [close], Outside);
    ScanJoined(inner, [close], Outside);
  }

  lemma {:induction false} ScanDoc(d: Doc)
    requires DocOk(d) && Compact(d)
    ensures Scan(DocText(d), Outside) == Some(Outside)
    decreases d, 1
  {
    hide Scan;
    match d
    case Word(_) => ScanPlain(DocText(d));
    case Number(_, _) => ScanPlain(DocText(d));
    case Real(_) => ScanPlain(DocText(d));
    case Literal(cs) => ScanLiteral(cs);
    case List(_, _) => ScanList(d);
    case Record(_, _) => ScanRecord(d);
  }

  lemma {:induction false} ScanList(d: Doc)
    requires d.List? && DocOk(d) && Compact(d)
    ensures Scan(DocText(d), Outside) == Some(Outside)
    decreases d, 0
  {
    forall i | 0 <= i < |d.items| ensures Scan(Items(d)[i], Outside) == Some(Outside) {
      assert SpacedOk(d.items[i]) && Bare(d.items[i]);
      ScanDoc(d.items[i].doc);
      BareText(d.items[i]);
    }
    hide Scan, DocText, Commas, Compact, DocOk;
    ListText(d);
    NothingIn(d, Items(d));
    ScanCommas(Items(d));
    ScanBrackets(OPEN_ARR, Commas(Items(d)), CLOSE_ARR);
  }

  lemma {:induction false} ScanRecord(d: Doc)
    requires d.Record? && DocOk(d) && Compact(d)
    ensures Scan(DocText(d), Outside) == Some(Outside)
    decreases d, 0
  {
    hide Scan, DocText, Commas, Compact, DocOk, MemberText;
    CompactOk(d);
    forall i | 0 <= i < |d.members| ensures Scan(Members(d)[i], Outside) == Some(Outside) {
      ScanDoc(d.members[i].value.doc);
      ScanMember(d.members[i]);
    }
    RecordText(d);
    NothingIn(d, Members(d));
    ScanCommas(Members(d));
    ScanBrackets(OPEN_OBJ, Commas(Members(d)), CLOSE_OBJ);
  }

  lemma ScanMember(m: Member)
    requires m.before == m.mid == [] && m.colon && CharsOk(m.key) && Tight(m.key) && Bare(m.value)
    requires Scan(DocText(m.value.doc), Outside) == Some(Outside)
    ensures Scan(MemberText(m), Outside) == Some(Outside)
  {
    hide Scan, DocText, LiteralText, CharsOk, Tight, MemberText, Compact, Quoted;
    BareMember(m);
    TightText(m.key);
    ScanLiteral(m.key);
    ScanPlain([COLON]);
    ScanJoined(Quoted(CharsMean(m.key)) + [COLON], DocText(m.value.doc), Outside);
    ScanJoined(Quoted(CharsMean(m.key)), [COLON], Outside);
  }

  /** What the printer prints passes the scan, and ends outside any literal. */
  lemma EncodeScans(v: Json)
    requires Encodable(v)
    ensures Scan(Encode(v), Outside) == Some(Outside)
  {
    DocOfOk(v);
    CompactText(DocOf(v));
    ScanDoc(DocOf(v));
  }

  /** So it is one line. */
  lemma {:induction false} ScanOneLine(t: Text, m: Mode)
    requires Scan(t, m).Some?
    ensures forall i :: 0 <= i < |t| ==> t[i] !in {9, 10, 13}
  {
    if t != [] {
      ScanOneLine(t[1..], if m == Behind then Inside else if t[0] == 34 then if m == Inside then Outside else Inside
                          else if m == Inside && t[0] == 92 then Behind else m);
      assert t == [t[0]] + t[1..];
    }
  }

  // ---- Texts that break off ----

  /** An array whose closing bracket is missing at the end of the text has the elements there are. */
  lemma UnclosedArray(s: Text, p: nat, d: Doc)
    requires d.List? && DocOk(d) && d.items != [] && p <= |s|
    requires s[p..] == [91] + Commas(Items(d))
    ensures ParseValue(s, p) == Some(Parsed(Meaning(d), |s|))
  {
    hide DocOk, Commas, ParseElems, StringRest, ParseFields, ParseNumber, SkipSpace, Elems, DocText;
    assert StartsWith(s, p, [OPEN_ARR] + Commas(Items(d)));
    Divide(s, p, [OPEN_ARR], Commas(Items(d)));
    Head(s, p, [OPEN_ARR], 0);
    NoSpace(s, p);
    assert Items(d)[0..] == Items(d);
    ItemsRead(s, p + 1, d, 0);
    NoElems(d);
  }

  /** The same for an object and its closing brace. */
  lemma UnclosedObject(s: Text, p: nat, d: Doc)
    requires d.Record? && DocOk(d) && d.members != [] && p <= |s|
    requires s[p..] == [123] + Commas(Members(d))
    ensures ParseValue(s, p) == Some(Parsed(Meaning(d), |s|))
  {
    hide DocOk, Commas, ParseElems, StringRest, ParseFields, ParseNumber, SkipSpace, Fields, DocText;
    assert StartsWith(s, p, [OPEN_OBJ] + Commas(Members(d)));
    Divide(s, p, [OPEN_OBJ], Commas(Members(d)));
    Head(s, p, [OPEN_OBJ], 0);
    NoSpace(s, p);
    assert Members(d)[0..] == Members(d);
    MembersRead(s, p + 1, d, 0);
    NoElems(d);
  }
}
