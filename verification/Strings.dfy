/**
 split, join and replace of the C runtime. The loops move a cursor with strstr and grow
 their buffers by the runtime's own capacity checks; the functions say what they compute.
 */
module Strings {
  import opened Common
  import opened Buffer
  import opened Cursor

  type Text = seq<Byte>

  ghost predicate Contains(s: Text, sub: Text) {
    exists p :: 0 <= p <= |s| && StartsWith(s, p, sub)
  }

  /** strstr from `p` on: the first occurrence. */
  function Strstr(s: Text, sub: Text, p: nat := 0): (r: Option<nat>)
    requires p <= |s|
    ensures r.Some? ==>
              p <= r.value && StartsWith(s, r.value, sub) && forall k :: p <= k < r.value ==> !StartsWith(s, k, sub)
    ensures r.None? ==> forall k :: p <= k <= |s| ==> !StartsWith(s, k, sub)
    decreases |s| - p
  {
    if StartsWith(s, p, sub) then Some(p) else if p == |s| then None else Strstr(s, sub, p + 1)
  }

  function Split(s: Text, sep: Text): (parts: seq<Text>)
    requires sep != []
    ensures parts != []
    decreases |s|
  {
    match Strstr(s, sep)
    case None => [s]
    case Some(q) => [s[..q]] + Split(s[q + |sep|..], sep)
  }

  function Join(parts: seq<Text>, sep: Text): Text {
    if parts == [] then [] else if |parts| == 1 then parts[0] else parts[0] + sep + Join(parts[1..], sep)
  }

  /** The replacement of every occurrence, left to right; between all bytes for an empty `from`. */
  function Replace(s: Text, from: Text, to: Text): Text
    requires from != []
    decreases |s|
  {
    match Strstr(s, from)
    case None => s
    case Some(q) => s[..q] + to + Replace(s[q + |from|..], from, to)
  }

  function Interleave(s: Text, to: Text): Text {
    if s == [] then to else to + [s[0]] + Interleave(s[1..], to)
  }

  // ---- The laws ----

  lemma StrstrUnique(s: Text, sub: Text, p: nat, q: nat)
    requires p <= q && StartsWith(s, q, sub) && forall k :: p <= k < q ==> !StartsWith(s, k, sub)
    ensures Strstr(s, sub, p) == Some(q)
  {
  }

  /** Searching from a cursor is searching the rest of the text. */
  lemma StrstrFrom(s: Text, sub: Text, p: nat)
    requires p <= |s|
    ensures var r := Strstr(s[p..], sub);
            Strstr(s, sub, p) == if r == None then None else Some(p + r.value)
  {
    var t := s[p..];
    forall k | p <= k <= |s| ensures StartsWith(s, k, sub) <==> StartsWith(t, k - p, sub) {
      if k + |sub| <= |s| {
        assert s[k..k + |sub|] == t[k - p..k - p + |sub|];
      }
    }
    var r := Strstr(t, sub);
    if r.Some? {
      assert StartsWith(s, p + r.value, sub);
      forall k | p <= k < p + r.value ensures !StartsWith(s, k, sub) {
        assert !StartsWith(t, k - p, sub);
      }
      StrstrUnique(s, sub, p, p + r.value);
    } else {
      var f := Strstr(s, sub, p);
      if f.Some? {
        assert !StartsWith(t, f.value - p, sub);
      }
    }
  }

  lemma {:induction false} JoinSplit(s: Text, sep: Text)
    requires sep != []
    ensures Join(Split(s, sep), sep) == s
    decreases |s|
  {
    var f := Strstr(s, sep);
    if f.Some? {
      var q := f.value;
      JoinSplit(s[q + |sep|..], sep);
      assert Split(s, sep)[1..] == Split(s[q + |sep|..], sep);
      assert s[..q] + s[q..q + |sep|] + s[q + |sep|..] == s;
    }
  }

  lemma {:induction false} ReplaceIsJoinSplit(s: Text, from: Text, to: Text)
    requires from != []
    ensures Replace(s, from, to) == Join(Split(s, from), to)
    decreases |s|
  {
    var f := Strstr(s, from);
    if f.Some? {
      ReplaceIsJoinSplit(s[f.value + |from|..], from, to);
      assert Split(s, from)[1..] == Split(s[f.value + |from|..], from);
    }
  }

  /**
   Parts a split can produce: followed by the separator, each has it first at its end,
   and the last has none.
   */
  ghost predicate Separated(parts: seq<Text>, sep: Text) {
    && parts != []
    && !Contains(parts[|parts| - 1], sep)
    && forall i :: 0 <= i < |parts| - 1 ==> forall k :: 0 <= k < |parts[i]| ==> !StartsWith(parts[i] + sep, k, sep)
  }

  lemma {:induction false} SplitSeparates(s: Text, sep: Text)
    requires sep != []
    ensures Separated(Split(s, sep), sep)
    decreases |s|
  {
    hide StartsWith;
    SplitStep(s, sep);
    var f := Strstr(s, sep);
    if f.Some? {
      var q := f.value;
      OccursLength(s, sep, q);
      var part, rest := s[..q], Split(s[q + |sep|..], sep);
      SplitSeparates(s[q + |sep|..], sep);
      forall k | 0 <= k < q ensures !StartsWith(part + sep, k, sep) {
        FirstWithin(s, sep, q, k);
      }
      var parts := Split(s, sep);
      assert parts == [part] + rest;
      assert parts[|parts| - 1] == rest[|rest| - 1];
      forall i | 0 <= i < |parts| - 1 ensures forall k :: 0 <= k < |parts[i]| ==> !StartsWith(parts[i] + sep, k, sep) {
        if i > 0 {
          assert parts[i] == rest[i - 1];
        }
      }
    }
  }

  lemma FirstWithin(s: Text, sep: Text, q: nat, k: nat)
    requires StartsWith(s, q, sep) && k < q && !StartsWith(s, k, sep)
    ensures !StartsWith(s[..q] + sep, k, sep)
  {
    var a, b := s[..q] + sep, s[q + |sep|..];
    assert a + b == s[..q] + s[q..q + |sep|] + s[q + |sep|..] == s;
    OccursPrefix(a, b, sep, k);
  }

  /** No part of a split contains the separator. */
  lemma PartsHaveNoSeparator(s: Text, sep: Text, i: nat)
    requires sep != [] && i < |Split(s, sep)|
    ensures !Contains(Split(s, sep)[i], sep)
  {
    var parts := Split(s, sep);
    SplitSeparates(s, sep);
    if i < |parts| - 1 {
      forall k | 0 <= k <= |parts[i]| ensures !StartsWith(parts[i], k, sep) {
        if k + |sep| <= |parts[i]| {
          assert !StartsWith(parts[i] + sep, k, sep);
          assert (parts[i] + sep)[k..k + |sep|] == parts[i][k..k + |sep|];
        }
      }
    }
  }

  lemma {:induction false} SplitJoinSeparated(parts: seq<Text>, sep: Text)
    requires sep != [] && Separated(parts, sep)
    ensures Split(Join(parts, sep), sep) == parts
    decreases |parts|
  {
    hide Strstr, StartsWith;
    if |parts| > 1 {
      var part, rest := parts[0], Join(parts[1..], sep);
      var s := Join(parts, sep);
      assert s == part + sep + rest;
      OccursHere(part, sep, rest);
      forall k | 0 <= k < |part| ensures !StartsWith(s, k, sep) {
        OccursPrefix(part + sep, rest, sep, k);
      }
      StrstrUnique(s, sep, 0, |part|);
      SplitStep(s, sep);
      assert s[..|part|] == part && s[|part| + |sep|..] == rest;
      SplitJoinSeparated(parts[1..], sep);
      assert parts == [part] + parts[1..];
    } else {
      assert Join(parts, sep) == parts[0];
      SplitStep(parts[0], sep);
      NoneIfAbsent(parts[0], sep);
    }
  }

  lemma NoneIfAbsent(s: Text, sub: Text)
    requires !Contains(s, sub)
    ensures Strstr(s, sub) == None
  {
  }

  lemma OccursHere(a: Text, sub: Text, b: Text)
    ensures StartsWith(a + sub + b, |a|, sub)
  {
    assert (a + sub + b)[|a|..|a| + |sub|] == sub;
  }

  /** Splitting undoes joining for exactly the separated parts. */
  lemma SplitJoinIff(parts: seq<Text>, sep: Text)
    requires sep != []
    ensures Split(Join(parts, sep), sep) == parts <==> Separated(parts, sep)
  {
    SplitSeparates(Join(parts, sep), sep);
    if Separated(parts, sep) {
      SplitJoinSeparated(parts, sep);
    }
  }

  // ---- The loops ----

  lemma SplitStep(t: Text, sep: Text)
    requires sep != []
    ensures match Strstr(t, sep)
            case None => Split(t, sep) == [t]
            case Some(q) => Split(t, sep) == [t[..q]] + Split(t[q + |sep|..], sep)
  {
    hide Strstr, StartsWith;
  }

  lemma ReplaceStep(t: Text, from: Text, to: Text)
    requires from != []
    ensures match Strstr(t, from)
            case None => Replace(t, from, to) == t
            case Some(q) => Replace(t, from, to) == t[..q] + to + Replace(t[q + |from|..], from, to)
  {
    hide Strstr, StartsWith;
  }

  lemma FoundFrom(s: Text, sub: Text, p: nat)
    requires p <= |s|
    ensures match Strstr(s, sub, p)
            case None => Strstr(s[p..], sub) == None
            case Some(n) =>
              var q := n - p;
              && p <= n && n + |sub| <= |s| && Strstr(s[p..], sub) == Some(q) && q + |sub| <= |s[p..]|
              && s[p..][q + |sub|..] == s[n + |sub|..] && s[p..][..q] == s[p..n]
  {
    hide Strstr, StartsWith;
    StrstrFrom(s, sub, p);
    if n :| Strstr(s, sub, p) == Some(n) {
      OccursLength(s, sub, n);
    }
  }

  lemma OccursLength(s: Text, sub: Text, p: nat)
    requires StartsWith(s, p, sub)
    ensures p + |sub| <= |s|
  {
  }

  /** Text after the end of an occurrence does not matter. */
  lemma OccursPrefix(a: Text, b: Text, sub: Text, k: nat)
    requires k + |sub| <= |a|
    ensures StartsWith(a + b, k, sub) <==> StartsWith(a, k, sub)
  {
    assert (a + b)[k..k + |sub|] == a[k..k + |sub|];
  }

  lemma SplitFrom(s: Text, sep: Text, p: nat)
    requires sep != [] && p <= |s|
    ensures match Strstr(s, sep, p)
            case None => Split(s[p..], sep) == [s[p..]]
            case Some(n) => Split(s[p..], sep) == [s[p..n]] + Split(s[n + |sep|..], sep)
  {
    hide Strstr, StartsWith, Split;
    FoundFrom(s, sep, p);
    SplitStep(s[p..], sep);
  }

  lemma ReplaceFrom(s: Text, from: Text, to: Text, p: nat)
    requires from != [] && p <= |s|
    ensures match Strstr(s, from, p)
            case None => Replace(s[p..], from, to) == s[p..]
            case Some(n) => Replace(s[p..], from, to) == s[p..n] + to + Replace(s[n + |from|..], from, to)
  {
    hide Strstr, StartsWith, Replace;
    FoundFrom(s, from, p);
    ReplaceStep(s[p..], from, to);
  }

  method SplitStr(s: Text, sep: Text) returns (parts: seq<Text>)
    requires sep != []
    ensures parts == Split(s, sep)
  {
    hide Strstr, StartsWith, Split;
    parts := [];
    var curr := 0;
    assert s[curr..] == s;
    while Strstr(s, sep, curr).Some?
      invariant curr <= |s|
      invariant parts + Split(s[curr..], sep) == Split(s, sep)
      decreases |s| - curr
    {
      FoundFrom(s, sep, curr);
      SplitFrom(s, sep, curr);
      var next := Strstr(s, sep, curr).value;
      parts := parts + [s[curr..next]];
      curr := next + |sep|;
    }
    SplitFrom(s, sep, curr);
    parts := parts + [s[curr..]];
  }

  lemma {:induction false} JoinSnoc(parts: seq<Text>, x: Text, sep: Text)
    ensures Join(parts + [x], sep) == if parts == [] then x else Join(parts, sep) + sep + x
  {
    if parts == [] {
      assert [] + [x] == [x];
    } else {
      assert (parts + [x])[1..] == parts[1..] + [x];
      JoinSnoc(parts[1..], x, sep);
    }
  }

  /** join_arr, with its two capacity checks per part. */
  method JoinArr(parts: seq<Text>, sep: Text) returns (r: Text)
    ensures r == Join(parts, sep)
  {
    hide Join;
    var buf := new Buffer(1004);
    JoinNone(sep);
    var i := 0;
    while i < |parts|
      invariant i <= |parts| && buf.Valid() && fresh(buf) && fresh(buf.data)
      invariant buf.Text() == Join(parts[..i], sep)
    {
      JoinSnoc(parts[..i], parts[i], sep);
      assert parts[..i + 1] == parts[..i] + [parts[i]];
      if i > 0 {
        if buf.length + |sep| + 2 >= buf.data.Length {
          buf.Realloc((buf.data.Length + |sep|) * 2);
        }
        buf.Append(sep);
      }
      if buf.length + |parts[i]| + 2 >= buf.data.Length {
        buf.Realloc((buf.data.Length + |parts[i]|) * 2);
      }
      buf.Append(parts[i]);
      i := i + 1;
    }
    assert parts[..i] == parts;
    r := buf.Text();
  }

  lemma JoinNone(sep: Text)
    ensures Join([], sep) == []
  {
  }

  /** replace: the result never outgrows its buffer, whose last growth is an exact fit. */
  method ReplaceStr(s: Text, from: Text, to: Text) returns (r: Text)
    ensures r == if from == [] then Interleave(s, to) else Replace(s, from, to)
  {
    if from == [] {
      r := ReplaceEmpty(s, to);
    } else {
      r := ReplaceAll(s, from, to);
    }
  }

  method ReplaceAll(s: Text, from: Text, to: Text) returns (r: Text)
    requires from != []
    ensures r == Replace(s, from, to)
  {
    hide Strstr, StartsWith, Replace;
    var buf := new Buffer(|s| + 1);
    var curr := 0;
    assert s[curr..] == s;
    while Strstr(s, from, curr).Some?
      invariant curr <= |s| && buf.Valid() && fresh(buf) && fresh(buf.data)
      invariant buf.Text() + Replace(s[curr..], from, to) == Replace(s, from, to)
      decreases |s| - curr
    {
      FoundFrom(s, from, curr);
      ReplaceFrom(s, from, to, curr);
      var next := Strstr(s, from, curr).value;
      curr := PutReplaced(buf, s, curr, next, to, |from|, Replace(s[next + |from|..], from, to));
    }
    ReplaceFrom(s, from, to, curr);
    var tail := s[curr..];
    if buf.length + |tail| + 1 >= buf.data.Length {
      buf.Realloc(buf.length + |tail| + 1);
    }
    buf.Append(tail);
    r := buf.Text();
  }

  /** One replacement: the text before the match, then `to`. */
  method PutReplaced(buf: Buffer, s: Text, curr: nat, next: nat, to: Text, width: nat, ghost rest: Text)
    returns (after: nat)
    requires buf.Valid() && curr <= next && next + width <= |s|
    modifies buf, buf.data
    ensures buf.Valid() && (fresh(buf.data) || buf.data == old(buf.data)) && after == next + width
    ensures buf.Text() + rest == old(buf.Text()) + (s[curr..next] + to + rest)
  {
    var diff := next - curr;
    if buf.length + diff + |to| + 1 >= buf.data.Length {
      buf.Realloc((buf.data.Length + diff + |to|) * 2);
    }
    buf.Append(s[curr..next]);
    buf.Append(to);
    after := next + width;
  }

  lemma {:induction false} InterleaveSnoc(s: Text, c: Byte, to: Text)
    ensures Interleave(s + [c], to) == Interleave(s, to) + [c] + to
  {
    if s == [] {
      assert [] + [c] == [c];
    } else {
      assert (s + [c])[1..] == s[1..] + [c];
      InterleaveSnoc(s[1..], c, to);
    }
  }

  lemma InterleaveStep(s: Text, to: Text, i: nat)
    requires i < |s|
    ensures Interleave(s[..i + 1], to) == Interleave(s[..i], to) + [s[i]] + to
  {
    InterleaveSnoc(s[..i], s[i], to);
    assert s[..i + 1] == s[..i] + [s[i]];
  }

  lemma RoomFor(i: nat, n: nat, w: nat)
    requires i < n
    ensures (i + 1) * w == i * w + w && (i + 1) * w <= n * w && (n + 1) * w == n * w + w
  {
  }

  /** The empty pattern: a buffer computed to the byte. */
  method ReplaceEmpty(s: Text, to: Text) returns (r: Text)
    ensures r == Interleave(s, to)
  {
    hide Interleave;
    var buf := new Buffer((|s| + 1) * |to| + |s| + 1);
    InterleaveNone(to);
    var i := 0;
    while i < |s|
      invariant i <= |s| && buf.Valid() && fresh(buf) && fresh(buf.data)
      invariant buf.data.Length == (|s| + 1) * |to| + |s| + 1 && buf.length == i * |to| + i
      invariant buf.Text() + to == Interleave(s[..i], to)
    {
      InterleaveStep(s, to, i);
      RoomFor(i, |s|, |to|);
      buf.Append(to);
      buf.Append([s[i]]);
      i := i + 1;
    }
    assert s[..i] == s;
    buf.Append(to);
    r := buf.Text();
  }

  lemma InterleaveNone(to: Text)
    ensures Interleave([], to) == to
  {
  }
}
