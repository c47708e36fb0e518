/**
 When the JSON parser of the C runtime stays inside its text. A backslash makes it take
 the byte behind it without looking for the end, so a string that is still open at the
 end of the text, behind an odd number of backslashes, takes it past the terminator:
 exactly then the parser of Json.dfy gives no result.
 */
module JsonBounds {
  import opened Common
  import opened Cursor
  import opened MapKeys
  import opened Json

  /** Backslashes directly before `e`, from `p` on. */
  function Run(s: Text, p: nat, e: nat): (n: nat)
    requires p <= e <= |s|
    ensures n <= e - p
  {
    if e == p || s[e - 1] != BACKSLASH then 0 else 1 + Run(s, p, e - 1)
  }

  /** No quote from `p` on closes the string: each is behind an odd number of backslashes. */
  ghost predicate Unclosed(s: Text, p: nat)
    requires p <= |s|
  {
    forall q :: p <= q < |s| && s[q] == QUOTE ==> Run(s, p, q) % 2 == 1
  }

  /** A run does not reach across a byte that is no backslash. */
  lemma {:induction false} RunFrom(s: Text, p: nat, p': nat, e: nat)
    requires p < p' <= e <= |s| && s[p' - 1] != BACKSLASH
    ensures Run(s, p, e) == Run(s, p', e)
    decreases e
  {
    if e > p' {
      RunFrom(s, p, p', e - 1);
    }
  }

  /** Skipping a backslash and the byte behind it keeps the parity. */
  lemma {:induction false} RunParity(s: Text, p: nat, e: nat)
    requires p + 2 <= e <= |s| && s[p] == BACKSLASH
    ensures Run(s, p, e) % 2 == Run(s, p + 2, e) % 2
    decreases e
  {
    if s[p + 1] != BACKSLASH {
      RunFrom(s, p, p + 2, e);
    } else if e > p + 2 {
      RunParity(s, p, e - 1);
    } else {
      assert Run(s, p, p + 1) == 1;
    }
  }

  lemma {:induction false} UnclosedSkip(s: Text, p: nat, p': nat)
    requires p < p' <= |s|
    requires forall q :: p' <= q <= |s| ==> Run(s, p, q) % 2 == Run(s, p', q) % 2
    requires forall q :: p <= q < p' && s[q] == QUOTE ==> Run(s, p, q) % 2 == 1
    ensures Unclosed(s, p) <==> Unclosed(s, p')
  {
    hide Run;
    if Unclosed(s, p) {
      forall q | p' <= q < |s| && s[q] == QUOTE ensures Run(s, p', q) % 2 == 1 {
        assert Run(s, p, q) % 2 == 1;
      }
    }
    if Unclosed(s, p') {
      forall q | p <= q < |s| && s[q] == QUOTE ensures Run(s, p, q) % 2 == 1 {
        assert q >= p' ==> Run(s, p', q) % 2 == 1;
      }
    }
  }

  /** The string parser leaves the text exactly if the string is still open at its end, behind an odd run. */
  lemma {:induction false} StringLeavesIff(s: Text, p: nat, acc: Text)
    requires NulFree(s) && p <= |s|
    ensures StringRest(s, p, acc) == None <==> Unclosed(s, p) && Run(s, p, |s|) % 2 == 1
    decreases |s| - p
  {
    if p == |s| {
    } else if s[p] == QUOTE {
      assert Run(s, p, p) == 0;
    } else if s[p] != BACKSLASH {
      StringLeavesIff(s, p + 1, acc + [s[p]]);
      forall q | p + 1 <= q <= |s| ensures Run(s, p, q) == Run(s, p + 1, q) {
        RunFrom(s, p, p + 1, q);
      }
      UnclosedSkip(s, p, p + 1);
    } else if p + 1 == |s| {
      assert Run(s, p, p) == 0 && Run(s, p, p + 1) == 1;
    } else {
      StringLeavesIff(s, p + 2, acc + [Unescape(s[p + 1])]);
      forall q | p + 2 <= q <= |s| ensures Run(s, p, q) % 2 == Run(s, p + 2, q) % 2 {
        RunParity(s, p, q);
      }
      assert Run(s, p, p) == 0 && Run(s, p, p + 1) == 1;
      UnclosedSkip(s, p, p + 2);
    }
  }

  /** A string that begins at `q` is still open at the text's end, behind an odd run of backslashes. */
  ghost predicate OpenAtEnd(s: Text, q: nat) {
    q <= |s| && Unclosed(s, q) && Run(s, q, |s|) % 2 == 1
  }

  predicate BehindQuote(s: Text, q: nat) {
    1 <= q <= |s| && s[q - 1] == QUOTE
  }

  /** Parsing the value at `p0` comes to a string whose first byte is at `q`. */
  predicate ValueOpens(s: Text, p0: nat, q: nat): (b: bool)
    requires p0 <= |s|
    ensures b ==> BehindQuote(s, q)
    decreases |s| - p0, 1
  {
    var p := SkipSpace(s, p0);
    if At(s, p) == QUOTE then q == p + 1
    else if At(s, p) == OPEN_ARR then
      var e := SkipSpace(s, p + 1);
      At(s, e) != CLOSE_ARR && ElemsOpen(s, e, q)
    else if At(s, p) == OPEN_OBJ then
      var e := SkipSpace(s, p + 1);
      At(s, e) != CLOSE_OBJ && FieldsOpen(s, e, q)
    else false
  }

  predicate ElemsOpen(s: Text, p: nat, q: nat): (b: bool)
    requires p <= |s|
    ensures b ==> BehindQuote(s, q)
    decreases |s| - p, 2
  {
    || ValueOpens(s, p, q)
    || match ParseValue(s, p)
       case None => false
       case Some(v) =>
         var e := SkipSpace(s, v.next);
         At(s, e) == COMMA && ElemsOpen(s, SkipSpace(s, e + 1), q)
  }

  predicate FieldsOpen(s: Text, p0: nat, q: nat): (b: bool)
    requires p0 <= |s|
    ensures b ==> BehindQuote(s, q)
    decreases |s| - p0, 2
  {
    var p := SkipSpace(s, p0);
    At(s, p) == QUOTE &&
    (q == p + 1 || match StringRest(s, p + 1, []) case None => false case Some(key) => FieldOpens(s, p0, key.next, q))
  }

  /** The part of a field behind its key, and the fields after it. */
  predicate FieldOpens(s: Text, p0: nat, p: nat, q: nat): (b: bool)
    requires p0 < p <= |s|
    ensures b ==> BehindQuote(s, q)
    decreases |s| - p0, 1
  {
    var c := ValueAt(s, p);
    || ValueOpens(s, c, q)
    || match ParseValue(s, c)
       case None => false
       case Some(v) =>
         var e := SkipSpace(s, v.next);
         At(s, e) == COMMA && FieldsOpen(s, SkipSpace(s, e + 1), q)
  }

  /** Where the value behind a key begins. */
  function ValueAt(s: Text, p: nat): (c: nat)
    requires p <= |s|
    ensures p <= c <= |s|
  {
    var c := SkipSpace(s, p);
    if At(s, c) == COLON then c + 1 else c
  }

  ghost predicate ValueLeaves(s: Text, p: nat)
    requires p <= |s|
  {
    exists q :: ValueOpens(s, p, q) && OpenAtEnd(s, q)
  }

  ghost predicate ElemsLeave(s: Text, p: nat)
    requires p <= |s|
  {
    exists q :: ElemsOpen(s, p, q) && OpenAtEnd(s, q)
  }

  ghost predicate FieldsLeave(s: Text, p: nat)
    requires p <= |s|
  {
    exists q :: FieldsOpen(s, p, q) && OpenAtEnd(s, q)
  }

  ghost predicate FieldLeaves(s: Text, p0: nat, p: nat)
    requires p0 < p <= |s|
  {
    exists q :: FieldOpens(s, p0, p, q) && OpenAtEnd(s, q)
  }

  /** The parser leaves the text exactly if it comes to a string that is open at the text's end, behind an odd run. */
  lemma {:induction false} ValueLeavesIff(s: Text, p0: nat)
    requires NulFree(s) && p0 <= |s|
    ensures ParseValue(s, p0) == None <==> ValueLeaves(s, p0)
    decreases |s| - p0, 1
  {
    hide OpenAtEnd, StringRest, ParseNumber, StartsWith, ElemsOpen, FieldsOpen, ParseElems, ParseFields;
    var p := SkipSpace(s, p0);
    if At(s, p) == QUOTE {
      LiteralLeavesIff(s, p + 1);
      assert ValueOpens(s, p0, p + 1);
    } else if At(s, p) == OPEN_ARR {
      var e := SkipSpace(s, p + 1);
      ElemsLeaveIff(s, e, []);
      assert forall q :: ValueOpens(s, p0, q) <==> At(s, e) != CLOSE_ARR && ElemsOpen(s, e, q);
    } else if At(s, p) == OPEN_OBJ {
      var e := SkipSpace(s, p + 1);
      FieldsLeaveIff(s, e, map[]);
      assert forall q :: ValueOpens(s, p0, q) <==> At(s, e) != CLOSE_OBJ && FieldsOpen(s, e, q);
    }
  }

  lemma LiteralLeavesIff(s: Text, p: nat)
    requires NulFree(s) && p <= |s|
    ensures StringRest(s, p, []) == None <==> OpenAtEnd(s, p)
  {
    StringLeavesIff(s, p, []);
  }

  lemma {:induction false} ElemsLeaveIff(s: Text, p: nat, acc: seq<Json>)
    requires NulFree(s) && p <= |s|
    ensures ParseElems(s, p, acc) == None <==> ElemsLeave(s, p)
    decreases |s| - p, 2
  {
    hide OpenAtEnd, ParseValue, ValueOpens, SkipSpace;
    ValueLeavesIff(s, p);
    assert forall q :: ValueOpens(s, p, q) ==> ElemsOpen(s, p, q);
    if ParseValue(s, p).Some? {
      var v := ParseValue(s, p).value;
      var e := SkipSpace(s, v.next);
      if At(s, e) == COMMA {
        var next := SkipSpace(s, e + 1);
        ElemsLeaveIff(s, next, acc + [v.value]);
        assert forall q :: ElemsOpen(s, p, q) <==> ValueOpens(s, p, q) || ElemsOpen(s, next, q);
      }
    }
  }

  lemma {:induction false} FieldsLeaveIff(s: Text, p0: nat, acc: map<Text, Json>)
    requires NulFree(s) && p0 <= |s|
    ensures ParseFields(s, p0, acc) == None <==> FieldsLeave(s, p0)
    decreases |s| - p0, 2
  {
    hide OpenAtEnd, ParseValue, ValueOpens, StringRest, SkipSpace, FieldOpens;
    var p := SkipSpace(s, p0);
    if At(s, p) == QUOTE {
      LiteralLeavesIff(s, p + 1);
      assert FieldsOpen(s, p0, p + 1);
      if StringRest(s, p + 1, []).Some? {
        var key := StringRest(s, p + 1, []).value;
        FieldLeavesIff(s, p0, key.next, key.value, acc);
        assert forall q :: FieldsOpen(s, p0, q) <==> q == p + 1 || FieldOpens(s, p0, key.next, q);
      }
    }
  }

  /** ParseFields behind a key. */
  function ParseField(s: Text, p0: nat, p: nat, key: Text, acc: map<Text, Json>): Option<Parsed<Json>>
    requires p0 < p <= |s|
  {
    match ParseValue(s, ValueAt(s, p))
    case None => None
    case Some(v) =>
      var e := SkipSpace(s, v.next);
      if At(s, e) == COMMA then ParseFields(s, SkipSpace(s, e + 1), acc[key := v.value])
      else Some(Parsed(Obj(acc[key := v.value]), if At(s, e) == CLOSE_OBJ then e + 1 else e))
  }

  lemma {:induction false} FieldLeavesIff(s: Text, p0: nat, p: nat, key: Text, acc: map<Text, Json>)
    requires NulFree(s) && p0 < p <= |s|
    ensures ParseField(s, p0, p, key, acc) == None <==> FieldLeaves(s, p0, p)
    decreases |s| - p0, 1
  {
    hide OpenAtEnd, ParseValue, ParseFields, FieldsOpen, ValueOpens, StringRest, SkipSpace;
    var c := ValueAt(s, p);
    ValueLeavesIff(s, c);
    assert forall q :: ValueOpens(s, c, q) ==> FieldOpens(s, p0, p, q);
    if ParseValue(s, c).Some? {
      var v := ParseValue(s, c).value;
      var e := SkipSpace(s, v.next);
      if At(s, e) == COMMA {
        var next := SkipSpace(s, e + 1);
        FieldsLeaveIff(s, next, acc[key := v.value]);
        assert forall q :: FieldOpens(s, p0, p, q) <==> ValueOpens(s, c, q) || FieldsOpen(s, next, q);
      }
    }
  }

  /** A text that ends in an even number of backslashes, none included, never takes the parser outside it. */
  lemma ValueStays(s: Text, p: nat)
    requires NulFree(s) && p <= |s| && Run(s, 0, |s|) % 2 == 0
    ensures ParseValue(s, p).Some?
  {
    hide ParseValue, ValueOpens, Unclosed;
    ValueLeavesIff(s, p);
    if q :| ValueOpens(s, p, q) && OpenAtEnd(s, q) {
      RunFrom(s, 0, q, |s|);
    }
  }

  /** A quote and a backslash are enough to leave the text. */
  lemma LoneBackslash()
    ensures ParseValue([QUOTE, BACKSLASH], 0) == None
  {
    var s := [QUOTE, BACKSLASH];
    assert Run(s, 1, 1) == 0 && Run(s, 1, 2) == 1;
    StringLeavesIff(s, 1, []);
    assert SkipSpace(s, 0) == 0;
  }
}
