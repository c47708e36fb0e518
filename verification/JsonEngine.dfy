/**
 The printer and parser as the C runtime runs them: texts grown in reallocated buffers
 with their capacity checks, and a cursor moved along the input. Each is proved to
 compute the function of Json.dfy, and every append to have room.
 */
module JsonEngine {
  import opened Common
  import opened Cursor
  import opened Decimal
  import opened MapKeys
  import opened Json
  import JsonDocs
  import opened Buffer

  lemma {:induction false} EscapeSnoc(s: Text, c: Byte)
    ensures Escape(s + [c]) == Escape(s) + EscapeByte(c)
  {
    if s == [] {
      assert [] + [c] == [c];
      assert Escape([c]) == EscapeByte(c) + Escape([]);
    } else {
      assert (s + [c])[1..] == s[1..] + [c];
      EscapeSnoc(s[1..], c);
    }
  }

  function QuoteOpened(s: Text): Text {
    [QUOTE] + Escape(s)
  }

  lemma QuoteSnoc(s: Text, i: nat)
    requires i < |s|
    ensures QuoteOpened(s[..i + 1]) == QuoteOpened(s[..i]) + EscapeByte(s[i]) && 1 <= |EscapeByte(s[i])| <= 2
  {
    EscapeSnoc(s[..i], s[i]);
    assert s[..i + 1] == s[..i] + [s[i]];
  }

  lemma QuoteWhole(s: Text)
    ensures QuoteOpened(s[..0]) == [QUOTE] && QuoteOpened(s[..|s|]) + [QUOTE] == Quoted(s)
  {
    assert s[..|s|] == s;
  }

  /** escape_json_string, in a buffer of twice the length plus quotes and NUL. */
  method EscapeString(s: Text) returns (r: Text)
    ensures r == Quoted(s)
  {
    hide EscapeByte, QuoteOpened, Quoted;
    QuoteWhole(s);
    var res := new Buffer(|s| * 2 + 3);
    res.Append([QUOTE]);
    var i := 0;
    while i < |s|
      invariant i <= |s| && res.Valid() && fresh(res) && fresh(res.data) && res.data.Length == |s| * 2 + 3
      invariant res.Text() == QuoteOpened(s[..i]) && res.length <= 2 * i + 1
    {
      QuoteSnoc(s, i);
      res.Append(EscapeByte(s[i]));
      i := i + 1;
    }
    res.Append([QUOTE]);
    r := res.Text();
  }

  lemma {:induction false} CommasSnoc(parts: seq<Text>, x: Text)
    ensures Commas(parts + [x]) == if parts == [] then x else Commas(parts) + [COMMA] + x
  {
    if parts == [] {
      assert [] + [x] == [x];
    } else {
      assert (parts + [x])[1..] == parts[1..] + [x];
      CommasSnoc(parts[1..], x);
    }
  }

  /** A container's text up to and including some parts. */
  function Opened(open: Byte, parts: seq<Text>): Text {
    [open] + Commas(parts)
  }

  lemma OpenedSnoc(open: Byte, parts: seq<Text>, i: nat)
    requires i < |parts|
    ensures Opened(open, parts[..i + 1]) == Opened(open, parts[..i]) + (if i == 0 then [] else [COMMA]) + parts[i]
  {
    CommasSnoc(parts[..i], parts[i]);
    assert parts[..i + 1] == parts[..i] + [parts[i]];
  }

  lemma OpenedWhole(open: Byte, parts: seq<Text>, close: Byte)
    ensures Opened(open, parts[..0]) == [open]
    ensures Opened(open, parts[..|parts|]) + [close] == [open] + (Commas(parts) + [close])
  {
    hide Commas;
    EmptyCommas(parts[..0]);
    assert parts[..|parts|] == parts;
    assert [open] + Commas(parts) + [close] == [open] + (Commas(parts) + [close]);
  }

  /** Append a part, and a comma before it unless it is the first, growing the buffer as the runtime does. */
  method AppendPart(buf: Buffer, first: bool, part: Text, size: nat, slack: nat)
    requires buf.Valid() && buf.length + 2 < buf.data.Length
    requires (|part| == size && slack == 2) || (|part| == size + 1 && slack == 5)
    modifies buf, buf.data
    ensures buf.Valid() && buf.length + 2 < buf.data.Length
    ensures fresh(buf.data) || buf.data == old(buf.data)
    ensures buf.Text() == old(buf.Text()) + (if first then [] else [COMMA]) + part
  {
    if !first {
      if buf.length + 3 >= buf.data.Length {
        buf.Realloc(buf.data.Length * 2);
      }
      buf.Append([COMMA]);
    }
    if buf.length + size + slack >= buf.data.Length {
      buf.Realloc((buf.data.Length + size) * 2);
    }
    buf.Append(part);
  }

  /** The order qsort puts a map's fields in. */
  ghost predicate SortsKeys(sorted: set<Text> -> seq<Text>) {
    forall keys :: (forall k :: k in keys ==> NulFree(k)) ==> OrderedKeys(sorted(keys), keys)
  }

  /** value_to_json. */
  method ToJson(v: Json, sorted: set<Text> -> seq<Text>) returns (t: Text)
    requires Encodable(v) && SortsKeys(sorted)
    ensures t == Encode(v)
    decreases v, 1
  {
    match v
    case Null => t := NULL;
    case Bool(b) => t := if b then TRUE else FALSE;
    case Int(i) => t := IntText(i);
    case Str(s) => t := EscapeString(s);
    case Arr(elems) => t := ArrToJson(v, sorted);
    case Obj(fields) => t := ObjToJson(v, sorted);
    case Float(_) =>
      t := [];
      assert false;
  }

  method ArrToJson(v: Json, sorted: set<Text> -> seq<Text>) returns (t: Text)
    requires v.Arr? && Encodable(v) && SortsKeys(sorted)
    ensures t == Encode(v)
    decreases v, 0
  {
    hide Encode, Encodable, Commas, Opened, SortsKeys;
    ghost var parts := Parts(v.elems);
    var buf := new Buffer(1004);
    buf.Append([OPEN_ARR]);
    OpenedWhole(OPEN_ARR, parts, CLOSE_ARR);
    var i := 0;
    while i < |v.elems|
      invariant i <= |v.elems| && buf.Valid() && buf.length + 2 < buf.data.Length
      invariant fresh(buf) && fresh(buf.data)
      invariant buf.Text() == Opened(OPEN_ARR, parts[..i])
    {
      ElemEncodable(v, i);
      var part := ToJson(v.elems[i], sorted);
      OpenedSnoc(OPEN_ARR, parts, i);
      AppendPart(buf, i == 0, part, |part|, 2);
      i := i + 1;
    }
    buf.Append([CLOSE_ARR]);
    EncodeArr(v.elems);
    t := buf.Text();
  }

  method ObjToJson(v: Json, sorted: set<Text> -> seq<Text>) returns (t: Text)
    requires v.Obj? && Encodable(v) && SortsKeys(sorted)
    ensures t == Encode(v)
    decreases v, 0
  {
    hide Encode, Encodable, Commas, SortsKeys, FieldOrder, OrderedKeys, FieldParts, Quoted;
    EncodeObj(v.fields);
    if v.fields == map[] {
      EmptyObj();
      return [OPEN_OBJ, CLOSE_OBJ];
    }
    SortedFields(v, sorted);
    t := FieldsToJson(v, sorted(v.fields.Keys), sorted);
  }

  method FieldToJson(key: Text, value: Json, sorted: set<Text> -> seq<Text>) returns (part: Text, size: nat)
    requires Encodable(value) && SortsKeys(sorted)
    ensures part == Field(key, Encode(value)) && |part| == size + 1
    decreases value, 2
  {
    hide Encode, Encodable, SortsKeys, Quoted;
    var k := EscapeString(key);
    var t := ToJson(value, sorted);
    part, size := k + [COLON] + t, |k| + |t|;
  }

  method FieldsToJson(v: Json, ks: seq<Text>, sorted: set<Text> -> seq<Text>) returns (t: Text)
    requires v.Obj? && Encodable(v) && SortsKeys(sorted)
    requires ks == FieldOrder(v.fields.Keys) && forall k :: k in ks ==> k in v.fields
    ensures t == [OPEN_OBJ] + (Commas(FieldParts(v.fields, ks)) + [CLOSE_OBJ])
    decreases v, 0, 0
  {
    hide Encode, Encodable, Commas, Opened, SortsKeys, FieldOrder, FieldParts, Field;
    ghost var parts := FieldParts(v.fields, ks);
    var buf := new Buffer(1004);
    buf.Append([OPEN_OBJ]);
    OpenedWhole(OPEN_OBJ, parts, CLOSE_OBJ);
    var i := 0;
    while i < |ks|
      invariant i <= |ks| && buf.Valid() && buf.length + 2 < buf.data.Length
      invariant fresh(buf) && fresh(buf.data)
      invariant buf.Text() == Opened(OPEN_OBJ, parts[..i])
    {
      FieldEncodable(v, ks, i);
      var part, size := FieldToJson(ks[i], v.fields[ks[i]], sorted);
      OpenedSnoc(OPEN_OBJ, parts, i);
      AppendPart(buf, i == 0, part, size, 5);
      i := i + 1;
    }
    buf.Append([CLOSE_OBJ]);
    t := buf.Text();
  }

  lemma EmptyObj()
    ensures Encode(Obj(map[])) == [OPEN_OBJ, CLOSE_OBJ]
  {
    var fields: map<Text, Json> := map[];
    EncodeObj(fields);
    var ks := FieldOrder(fields.Keys);
    NoKeys(ks, fields.Keys);
    EmptyCommas(FieldParts(fields, ks));
  }

  lemma SortedFields(v: Json, sorted: set<Text> -> seq<Text>)
    requires v.Obj? && Encodable(v) && SortsKeys(sorted)
    ensures sorted(v.fields.Keys) == FieldOrder(v.fields.Keys)
    ensures forall k :: k in sorted(v.fields.Keys) ==> k in v.fields
  {
    OrderUnique(sorted(v.fields.Keys), FieldOrder(v.fields.Keys), v.fields.Keys);
  }

  method SkipWhitespace(s: Text, p: nat) returns (q: nat)
    requires p <= |s|
    ensures q == SkipSpace(s, p)
  {
    q := p;
    while IsSpace(At(s, q))
      invariant p <= q <= |s| && SkipSpace(s, q) == SkipSpace(s, p)
      decreases |s| - q
    {
      q := q + 1;
    }
  }

  /** parse_json_string from its opening quote, in a buffer that doubles; None runs off the text. */
  method ParseString(s: Text, p: nat) returns (r: Option<Parsed<Text>>)
    requires p < |s|
    ensures r == StringRest(s, p + 1, [])
  {
    hide Unescape;
    var q := p + 1;
    var buf := new Buffer(32);
    while At(s, q) != 0 && At(s, q) != QUOTE
      invariant q <= |s| && buf.Valid() && fresh(buf) && fresh(buf.data)
      invariant StringRest(s, q, buf.Text()) == StringRest(s, p + 1, [])
      decreases |s| - q
    {
      var c := s[q];
      if c == BACKSLASH {
        q := q + 1;
        if q == |s| {
          return None;
        }
        c := Unescape(s[q]);
      }
      if buf.length + 1 >= buf.data.Length {
        buf.Realloc(buf.data.Length * 2);
      }
      buf.Append([c]);
      q := q + 1;
    }
    if At(s, q) == QUOTE {
      q := q + 1;
    }
    r := Some(Parsed(buf.Text(), q));
  }

  /** parse_json_number's scan; the conversions are strtod's and strtoll's. */
  method ScanNumber(s: Text, p: nat) returns (r: Parsed<Json>)
    requires p <= |s|
    ensures r == ParseNumber(s, p)
  {
    var q, isFloat := p, false;
    while IsNumChar(At(s, q))
      invariant p <= q <= |s| && NumberEnd(s, q) == NumberEnd(s, p)
      invariant isFloat <==> exists i :: p <= i < q && IsFloatChar(s[i])
      decreases |s| - q
    {
      if IsFloatChar(s[q]) {
        isFloat := true;
      }
      q := q + 1;
    }
    var t := s[p..q];
    assert isFloat <==> exists i :: 0 <= i < |t| && IsFloatChar(t[i]) by {
      if isFloat {
        var i :| p <= i < q && IsFloatChar(s[i]);
        assert t[i - p] == s[i];
      }
    }
    r := Parsed(if isFloat then Float(t) else Int(Strtoll(t)), q);
  }

  /** parse_json_value. */
  method ParseJson(s: Text, p0: nat) returns (r: Option<Parsed<Json>>)
    requires p0 <= |s|
    ensures r == ParseValue(s, p0)
    decreases |s| - p0, 1
  {
    hide StringRest, ParseNumber, ParseElems, ParseFields;
    var p := SkipWhitespace(s, p0);
    if At(s, p) == QUOTE {
      var t := ParseString(s, p);
      r := if t == None then None else Some(Parsed(Str(t.value.value), t.value.next));
    } else if At(s, p) == OPEN_ARR {
      var q := SkipWhitespace(s, p + 1);
      if At(s, q) == CLOSE_ARR {
        return Some(Parsed(Arr([]), q + 1));
      }
      r := ParseArray(s, q);
    } else if At(s, p) == OPEN_OBJ {
      var q := SkipWhitespace(s, p + 1);
      if At(s, q) == CLOSE_OBJ {
        return Some(Parsed(Obj(map[]), q + 1));
      }
      r := ParseObject(s, q);
    } else if StartsWith(s, p, TRUE) {
      r := Some(Parsed(Bool(true), p + 4));
    } else if StartsWith(s, p, FALSE) {
      r := Some(Parsed(Bool(false), p + 5));
    } else if StartsWith(s, p, NULL) {
      r := Some(Parsed(Null, p + 4));
    } else {
      var n := ScanNumber(s, p);
      r := Some(n);
    }
  }

  /** The loop of parse_json_array. */
  method ParseArray(s: Text, p0: nat) returns (r: Option<Parsed<Json>>)
    requires p0 <= |s|
    ensures r == ParseElems(s, p0, [])
    decreases |s| - p0, 2
  {
    hide ParseValue;
    var p, arr: seq<Json> := p0, [];
    while true
      invariant p0 <= p <= |s| && ParseElems(s, p, arr) == ParseElems(s, p0, [])
      decreases |s| - p
    {
      var val := ParseJson(s, p);
      if val == None {
        return None;
      }
      arr := arr + [val.value.value];
      var q := SkipWhitespace(s, val.value.next);
      if At(s, q) == COMMA {
        p := SkipWhitespace(s, q + 1);
      } else {
        return Some(Parsed(Arr(arr), if At(s, q) == CLOSE_ARR then q + 1 else q));
      }
    }
  }

  /** The loop of parse_json_object. */
  method ParseObject(s: Text, p0: nat) returns (r: Option<Parsed<Json>>)
    requires p0 <= |s|
    ensures r == ParseFields(s, p0, map[])
    decreases |s| - p0, 2
  {
    hide ParseValue, StringRest;
    var p, fields: map<Text, Json> := p0, map[];
    while true
      invariant p0 <= p <= |s| && ParseFields(s, p, fields) == ParseFields(s, p0, map[])
      decreases |s| - p
    {
      var k := SkipWhitespace(s, p);
      if At(s, k) != QUOTE {
        return Some(Parsed(Obj(fields), k));
      }
      var key := ParseString(s, k);
      if key == None {
        return None;
      }
      var c := SkipWhitespace(s, key.value.next);
      if At(s, c) == COLON {
        c := c + 1;
      }
      var val := ParseJson(s, c);
      if val == None {
        return None;
      }
      fields := fields[key.value.value := val.value.value];
      var q := SkipWhitespace(s, val.value.next);
      if At(s, q) == COMMA {
        p := SkipWhitespace(s, q + 1);
      } else {
        return Some(Parsed(Obj(fields), if At(s, q) == CLOSE_OBJ then q + 1 else q));
      }
    }
  }

  /** Printing and parsing back, as the runtime does it. */
  method PrintAndParse(v: Json, sorted: set<Text> -> seq<Text>) returns (r: Option<Parsed<Json>>)
    requires Encodable(v) && SortsKeys(sorted)
    ensures r == Some(Parsed(v, |Encode(v)|))
  {
    var t := ToJson(v, sorted);
    r := ParseJson(t, 0);
    JsonDocs.RoundTrip(v);
  }
}
