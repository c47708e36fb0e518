/**
 The JSON printer and parser of the C runtime as functions. JsonDocs.dfy says which texts
 the parser reads as which values, and proves the round trip.

 A C string is its bytes; the terminating NUL is read at its end.
 */
module Json {
  import opened Bits
  import opened Common
  import opened Cursor
  import opened Decimal
  import opened MapKeys

  datatype Json =
    | Null
    | Bool(b: bool)
    | Int(i: int)
    | Float(text: seq<Byte>)     // opaque: the text strtod was given
    | Str(s: seq<Byte>)
    | Arr(elems: seq<Json>)
    | Obj(fields: map<seq<Byte>, Json>)

  type Text = seq<Byte>

  const QUOTE: Byte := 34
  const BACKSLASH: Byte := 92
  const SLASH: Byte := 47
  const NEWLINE: Byte := 10
  const RETURN: Byte := 13
  const TAB: Byte := 9
  const COMMA: Byte := 44
  const COLON: Byte := 58
  const OPEN_ARR: Byte := 91
  const CLOSE_ARR: Byte := 93
  const OPEN_OBJ: Byte := 123
  const CLOSE_OBJ: Byte := 125
  const TRUE: Text := [116, 114, 117, 101]
  const FALSE: Text := [102, 97, 108, 115, 101]
  const NULL: Text := [110, 117, 108, 108]

  // ---- Printer ----

  /** One byte of a string, escaped. */
  function EscapeByte(c: Byte): (r: Text)
    ensures 1 <= |r| <= 2
  {
    if c == QUOTE then [BACKSLASH, QUOTE]
    else if c == BACKSLASH then [BACKSLASH, BACKSLASH]
    else if c == NEWLINE then [BACKSLASH, 110]
    else if c == RETURN then [BACKSLASH, 114]
    else if c == TAB then [BACKSLASH, 116]
    else [c]
  }

  function Escape(s: Text): (r: Text)
    ensures |r| <= 2 * |s|
  {
    if s == [] then [] else EscapeByte(s[0]) + Escape(s[1..])
  }

  function Quoted(s: Text): Text {
    [QUOTE] + Escape(s) + [QUOTE]
  }

  /** `ks` is strictly increasing in the order of strcmp. */
  ghost predicate Increasing(ks: seq<Text>) {
    forall i, j :: 0 <= i < j < |ks| ==> Less(ks[i], ks[j])
  }

  ghost predicate OrderedKeys(ks: seq<Text>, keys: set<Text>) {
    Increasing(ks) && forall k :: k in ks <==> k in keys
  }

  lemma {:induction false} LessTrans(a: Text, b: Text, c: Text)
    requires Less(a, b) && Less(b, c)
    ensures Less(a, c)
  {
    if a != [] && a[0] == b[0] && b[0] == c[0] {
      LessTrans(a[1..], b[1..], c[1..]);
    }
  }

  lemma {:induction false} OrderedKeysExist(keys: set<Text>) returns (ks: seq<Text>)
    ensures OrderedKeys(ks, keys)
  {
    if keys == {} {
      ks := [];
    } else {
      var k :| k in keys;
      var rest := OrderedKeysExist(keys - {k});
      ks := InsertKey(rest, k, keys - {k});
      assert keys == keys - {k} + {k};
    }
  }

  lemma {:induction false} InsertKey(ks: seq<Text>, k: Text, keys: set<Text>) returns (r: seq<Text>)
    requires OrderedKeys(ks, keys) && k !in keys
    ensures OrderedKeys(r, keys + {k})
  {
    if ks == [] {
      r := [k];
    } else if Less(k, ks[0]) {
      r := [k] + ks;
      forall j | 0 <= j < |ks| ensures Less(k, ks[j]) {
        if j > 0 {
          LessTrans(k, ks[0], ks[j]);
        }
      }
    } else {
      assert ks == [ks[0]] + ks[1..];
      assert ks[0] in ks;
      LessTotal(k, ks[0]);
      HeadOnce(ks, keys);
      var tail := InsertKey(ks[1..], k, keys - {ks[0]});
      r := [ks[0]] + tail;
      forall t | t in tail ensures Less(ks[0], t) {
        if t != k {
          var j :| 0 <= j < |ks[1..]| && ks[1..][j] == t;
          assert ks[j + 1] == t;
        }
      }
      assert keys + {k} == {ks[0]} + (keys - {ks[0]} + {k});
    }
  }

  lemma HeadOnce(ks: seq<Text>, keys: set<Text>)
    requires OrderedKeys(ks, keys) && ks != []
    ensures OrderedKeys(ks[1..], keys - {ks[0]})
  {
    LessIrreflexive(ks[0]);
    assert ks == [ks[0]] + ks[1..];
  }

  lemma {:induction false} LessIrreflexive(a: Text)
    ensures !Less(a, a)
  {
    if a != [] {
      LessIrreflexive(a[1..]);
    }
  }

  /** The order the printer emits a map's fields in. */
  ghost function FieldOrder(keys: set<Text>): (ks: seq<Text>)
    ensures OrderedKeys(ks, keys)
  {
    assert exists ks :: OrderedKeys(ks, keys) by {
      var ks := OrderedKeysExist(keys);
    }
    var ks :| OrderedKeys(ks, keys);
    ks
  }

  function StrKeys(ks: seq<Text>): seq<Key> {
    seq(|ks|, i requires 0 <= i < |ks| => StrKey(ks[i]))
  }

  lemma OrderedCanonical(ks: seq<Text>, keys: set<Text>)
    requires OrderedKeys(ks, keys)
    ensures Canonical(StrKeys(ks), set k | k in keys :: StrKey(k))
  {
    var ss := StrKeys(ks);
    forall i, j | 0 <= i < j < |ss| ensures ss[i] != ss[j] && !Less(MapKeys.Text(ss[j]), MapKeys.Text(ss[i])) {
      LessIrreflexive(ks[i]);
      if Less(ks[j], ks[i]) {
        LessTrans(ks[i], ks[j], ks[i]);
      }
    }
    forall k ensures k in ss <==> k in (set k | k in keys :: StrKey(k)) {
      if k in ss {
        var i :| 0 <= i < |ss| && ss[i] == k;
        assert ks[i] in ks;
      }
      if k.StrKey? && k.s in keys {
        var i :| 0 <= i < |ks| && ks[i] == k.s;
        assert ss[i] == k;
      }
    }
  }

  /** There is one strictly increasing listing of a key set, so every sort agrees on it. */
  lemma OrderUnique(a: seq<Text>, b: seq<Text>, keys: set<Text>)
    requires OrderedKeys(a, keys) && OrderedKeys(b, keys)
    ensures a == b
  {
    OrderedCanonical(a, keys);
    OrderedCanonical(b, keys);
    CanonicalUnique(StrKeys(a), StrKeys(b), set k | k in keys :: StrKey(k));
    forall i | 0 <= i < |a| ensures a[i] == b[i] {
      assert StrKeys(a)[i] == StrKeys(b)[i];
    }
    assert |StrKeys(a)| == |a|;
  }

  function Commas(parts: seq<Text>): Text {
    if parts == [] then [] else if |parts| == 1 then parts[0] else parts[0] + [COMMA] + Commas(parts[1..])
  }

  function Field(key: Text, value: Text): Text {
    Quoted(key) + [COLON] + value
  }

  ghost function Encode(v: Json): Text {
    match v
    case Null => NULL
    case Bool(b) => if b then TRUE else FALSE
    case Int(i) => IntText(i)
    case Float(t) => t
    case Str(s) => Quoted(s)
    case Arr(elems) => [OPEN_ARR] + Commas(seq(|elems|, i requires 0 <= i < |elems| => Encode(elems[i]))) + [CLOSE_ARR]
    case Obj(fields) =>
      var ks := FieldOrder(fields.Keys);
      [OPEN_OBJ] + Commas(seq(|ks|, i requires 0 <= i < |ks| =>
        (assert ks[i] in ks; Field(ks[i], Encode(fields[ks[i]]))))) + [CLOSE_OBJ]
  }

  // ---- Parser ----

  datatype Parsed<+T> = Parsed(value: T, next: nat)

  /** The byte at `p`, NUL at the end of the string. */
  function At(s: Text, p: nat): Byte {
    if p < |s| then s[p] else 0
  }

  predicate IsSpace(c: Byte) {
    c == 32 || 9 <= c <= 13
  }

  function SkipSpace(s: Text, p: nat): (q: nat)
    requires p <= |s|
    ensures p <= q <= |s|
    decreases |s| - p
  {
    if IsSpace(At(s, p)) then SkipSpace(s, p + 1) else p
  }

  /** What an escaped byte stands for; an unknown escape leaves the backslash. */
  function Unescape(c: Byte): Byte {
    if c == 110 then NEWLINE
    else if c == 114 then RETURN
    else if c == 116 then TAB
    else if c == QUOTE || c == BACKSLASH || c == SLASH then c
    else BACKSLASH
  }

  /** The rest of a string, up to its quote or the text's end; None if it ends in a backslash. */
  function StringRest(s: Text, p: nat, acc: Text): (r: Option<Parsed<Text>>)
    requires p <= |s|
    ensures r.Some? ==> p <= r.value.next <= |s|
    decreases |s| - p
  {
    if At(s, p) == QUOTE then Some(Parsed(acc, p + 1))
    else if At(s, p) == 0 then Some(Parsed(acc, p))
    else if s[p] != BACKSLASH then StringRest(s, p + 1, acc + [s[p]])
    else if p + 1 == |s| then None
    else StringRest(s, p + 2, acc + [Unescape(s[p + 1])])
  }

  predicate IsNumChar(c: Byte) {
    IsDigit(c) || c == MINUS || c == 43 || c == 46 || c == 69 || c == 101
  }

  predicate IsFloatChar(c: Byte) {
    c == 46 || c == 69 || c == 101
  }

  function NumberEnd(s: Text, p: nat): (q: nat)
    requires p <= |s|
    ensures p <= q <= |s|
    decreases |s| - p
  {
    if IsNumChar(At(s, p)) then NumberEnd(s, p + 1) else p
  }

  function DigitRun(t: Text): (n: nat)
    ensures n <= |t| && forall i :: 0 <= i < n ==> IsDigit(t[i])
  {
    if t == [] || !IsDigit(t[0]) then 0 else 1 + DigitRun(t[1..])
  }

  /** strtoll: a sign, then digits, the result clamped to int64. */
  function Strtoll(t: Text): (v: int)
    ensures IsInt64(v)
  {
    var signed := t != [] && (t[0] == MINUS || t[0] == 43);
    var d := if signed then t[1..] else t;
    var n := Number(d[..DigitRun(d)]) as int;
    if signed && t[0] == MINUS then (if 0 - n < INT64_MIN then INT64_MIN else 0 - n)
    else (if n > INT64_MAX then INT64_MAX else n)
  }

  function ParseNumber(s: Text, p: nat): (r: Parsed<Json>)
    requires p <= |s|
    ensures p <= r.next <= |s|
  {
    var q := NumberEnd(s, p);
    var t := s[p..q];
    Parsed(if exists i :: 0 <= i < |t| && IsFloatChar(t[i]) then Float(t) else Int(Strtoll(t)), q)
  }

  function ParseValue(s: Text, p0: nat): (r: Option<Parsed<Json>>)
    requires p0 <= |s|
    ensures r.Some? ==> p0 <= r.value.next <= |s|
    decreases |s| - p0, 1
  {
    var p := SkipSpace(s, p0);
    if At(s, p) == QUOTE then
      match StringRest(s, p + 1, [])
      case None => None
      case Some(t) => Some(Parsed(Str(t.value), t.next))
    else if At(s, p) == OPEN_ARR then
      var q := SkipSpace(s, p + 1);
      if At(s, q) == CLOSE_ARR then Some(Parsed(Arr([]), q + 1)) else ParseElems(s, q, [])
    else if At(s, p) == OPEN_OBJ then
      var q := SkipSpace(s, p + 1);
      if At(s, q) == CLOSE_OBJ then Some(Parsed(Obj(map[]), q + 1)) else ParseFields(s, q, map[])
    else if StartsWith(s, p, TRUE) then Some(Parsed(Bool(true), p + 4))
    else if StartsWith(s, p, FALSE) then Some(Parsed(Bool(false), p + 5))
    else if StartsWith(s, p, NULL) then Some(Parsed(Null, p + 4))
    else Some(ParseNumber(s, p))
  }

  /** The loop of parse_json_array, from an element on. */
  function ParseElems(s: Text, p: nat, acc: seq<Json>): (r: Option<Parsed<Json>>)
    requires p <= |s|
    ensures r.Some? ==> p <= r.value.next <= |s|
    decreases |s| - p, 2
  {
    match ParseValue(s, p)
    case None => None
    case Some(v) =>
      var elems, q := acc + [v.value], SkipSpace(s, v.next);
      if At(s, q) == COMMA then ParseElems(s, SkipSpace(s, q + 1), elems)
      else Some(Parsed(Arr(elems), if At(s, q) == CLOSE_ARR then q + 1 else q))
  }

  /** The loop of parse_json_object, from a key on. */
  function ParseFields(s: Text, p0: nat, acc: map<Text, Json>): (r: Option<Parsed<Json>>)
    requires p0 <= |s|
    ensures r.Some? ==> p0 <= r.value.next <= |s|
    decreases |s| - p0, 2
  {
    var p := SkipSpace(s, p0);
    if At(s, p) != QUOTE then Some(Parsed(Obj(acc), p))
    else
      match StringRest(s, p + 1, [])
      case None => None
      case Some(key) =>
        var q := SkipSpace(s, key.next);
        match ParseValue(s, if At(s, q) == COLON then q + 1 else q)
        case None => None
        case Some(v) =>
          var fields, e := acc[key.value := v.value], SkipSpace(s, v.next);
          if At(s, e) == COMMA then ParseFields(s, SkipSpace(s, e + 1), fields)
          else Some(Parsed(Obj(fields), if At(s, e) == CLOSE_OBJ then e + 1 else e))
  }

  // ---- Facts about both ----

  /** What the encoding keeps: everything but floats, with int64 integers and NUL-free strings. */
  ghost predicate Encodable(v: Json) {
    match v
    case Null => true
    case Bool(_) => true
    case Int(i) => IsInt64(i)
    case Float(_) => false
    case Str(s) => NulFree(s)
    case Arr(elems) => forall i :: 0 <= i < |elems| ==> Encodable(elems[i])
    case Obj(fields) => forall k :: k in fields ==> NulFree(k) && Encodable(fields[k])
  }

  lemma {:induction false} NumberEndAt(s: Text, p: nat, t: Text)
    requires StartsWith(s, p, t) && forall i :: 0 <= i < |t| ==> IsNumChar(t[i])
    requires !IsNumChar(At(s, p + |t|))
    ensures NumberEnd(s, p) == p + |t|
    decreases |t|
  {
    if t != [] {
      assert t == t[..1] + t[1..];
      Divide(s, p, t[..1], t[1..]);
      Head(s, p, t, 0);
      NumberEndAt(s, p + 1, t[1..]);
    }
  }

  lemma {:induction false} DigitRunAll(t: Text)
    requires forall i :: 0 <= i < |t| ==> IsDigit(t[i])
    ensures DigitRun(t) == |t|
  {
    if t != [] {
      DigitRunAll(t[1..]);
    }
  }

  lemma NoSpace(s: Text, p: nat)
    requires p <= |s| && !IsSpace(At(s, p))
    ensures SkipSpace(s, p) == p
  {
  }

  lemma NotAWord(s: Text, p: nat)
    requires p < |s| && s[p] !in {TRUE[0], FALSE[0], NULL[0]}
    ensures !StartsWith(s, p, TRUE) && !StartsWith(s, p, FALSE) && !StartsWith(s, p, NULL)
  {
    FirstByte(s, p, TRUE);
    FirstByte(s, p, FALSE);
    FirstByte(s, p, NULL);
  }

  lemma FirstByte(s: Text, p: nat, t: Text)
    requires p < |s| && t != []
    ensures StartsWith(s, p, t) ==> s[p] == t[0]
  {
    assert StartsWith(s, p, t) ==> s[p..p + |t|][0] == t[0];
  }

  ghost function Parts(elems: seq<Json>): (r: seq<Text>)
    ensures |r| == |elems| && forall i :: 0 <= i < |r| ==> r[i] == Encode(elems[i])
  {
    seq(|elems|, i requires 0 <= i < |elems| => Encode(elems[i]))
  }

  ghost function FieldParts(fields: map<Text, Json>, ks: seq<Text>): (r: seq<Text>)
    requires forall k :: k in ks ==> k in fields
    ensures |r| == |ks| && forall i :: 0 <= i < |r| ==> ks[i] in fields && r[i] == Field(ks[i], Encode(fields[ks[i]]))
  {
    seq(|ks|, i requires 0 <= i < |ks| => (assert ks[i] in ks; Field(ks[i], Encode(fields[ks[i]]))))
  }

  lemma EncodeArr(elems: seq<Json>)
    ensures Encode(Arr(elems)) == [OPEN_ARR] + (Commas(Parts(elems)) + [CLOSE_ARR])
  {
    assert Parts(elems) == seq(|elems|, i requires 0 <= i < |elems| => Encode(elems[i]));
  }

  lemma EncodeObj(fields: map<Text, Json>)
    ensures Encode(Obj(fields)) == [OPEN_OBJ] + (Commas(FieldParts(fields, FieldOrder(fields.Keys))) + [CLOSE_OBJ])
  {
    var ks := FieldOrder(fields.Keys);
    assert FieldParts(fields, ks) == seq(|ks|, i requires 0 <= i < |ks| =>
      (assert ks[i] in ks; Field(ks[i], Encode(fields[ks[i]]))));
  }

  lemma EmptyCommas(parts: seq<Text>)
    requires parts == []
    ensures Commas(parts) == []
  {
  }

  lemma ElemEncodable(v: Json, k: nat)
    requires v.Arr? && Encodable(v) && k < |v.elems|
    ensures Encodable(v.elems[k])
  {
  }

  lemma NoKeys(ks: seq<Text>, keys: set<Text>)
    requires OrderedKeys(ks, keys)
    ensures ks == [] <==> keys == {}
  {
    if ks != [] {
      assert ks[0] in ks;
    } else {
      assert forall k :: k in keys ==> k in ks;
    }
  }

  lemma FieldEncodable(v: Json, ks: seq<Text>, k: nat)
    requires v.Obj? && Encodable(v) && k < |ks| && ks == FieldOrder(v.fields.Keys)
    ensures ks[k] in v.fields && NulFree(ks[k]) && Encodable(v.fields[ks[k]])
  {
    assert ks[k] in ks;
  }
}
