/**
 The chunked-body decoder of the HTTP client (RFC 9112 section 7.1).

 What it says of the bytes received so far is never revised by more bytes, so a body
 may be fed to it as it arrives: it asks for more on every proper prefix of a
 well-formed message, and on the whole message returns exactly the body.
 */
module Dechunk {
  import opened Common

  type Bytes = seq<Byte>

  const CR: Byte := 13
  const LF: Byte := 10
  const CRLF: Bytes := [CR, LF]
  const SIZE_MAX: nat := 0xFFFF_FFFF_FFFF_FFFF
  const LIMIT: nat := SIZE_MAX / 32     // larger values would overflow on the next digit

  datatype Verdict =
    | Complete(body: Bytes, next: nat)   // 1; `next` is where the message ends
    | More                               // 0
    | Malformed                          // -1

  predicate IsHex(c: Byte) {
    48 <= c <= 57 || 65 <= c <= 70 || 97 <= c <= 102
  }

  function HexDigit(c: Byte): (d: nat)
    requires IsHex(c)
    ensures d < 16
  {
    if c <= 57 then c - 48 else if c <= 70 then c - 55 else c - 87
  }

  predicate CrlfAt(s: Bytes, p: nat) {
    p + 1 < |s| && s[p] == CR && s[p + 1] == LF
  }

  /** The first CRLF from `p` on. */
  function FindCrlf(s: Bytes, p: nat): (r: Option<nat>)
    requires p <= |s|
    ensures r.Some? ==> p <= r.value && CrlfAt(s, r.value) && forall k :: p <= k < r.value ==> !CrlfAt(s, k)
    ensures r.None? ==> forall k :: p <= k ==> !CrlfAt(s, k)
    decreases |s| - p
  {
    if p + 1 >= |s| then None else if CrlfAt(s, p) then Some(p) else FindCrlf(s, p + 1)
  }

  datatype Size = Size(value: nat, digits: nat) | TooBig

  /** The hexadecimal size at `d`, stopped by a non-digit or the line's end. */
  function ReadSize(s: Bytes, d: nat, eol: nat, sz: nat, digits: nat): (r: Size)
    requires d <= eol <= |s| && sz <= LIMIT * 16 + 15
    ensures r.Size? ==> r.value + 2 <= SIZE_MAX && r.value <= LIMIT * 16 + 15
    decreases eol - d
  {
    if d == eol || !IsHex(s[d]) then Size(sz, digits)
    else if sz > LIMIT then TooBig
    else ReadSize(s, d + 1, eol, sz * 16 + HexDigit(s[d]), digits + 1)
  }

  /** Trailer lines up to the blank one: where the message ends. */
  function SkipTrailers(s: Bytes, c: nat): (r: Option<nat>)
    requires c <= |s|
    ensures r.Some? ==> c < r.value <= |s|
    decreases |s| - c
  {
    match FindCrlf(s, c)
    case None => None
    case Some(t) => if t == c then Some(c + 2) else SkipTrailers(s, t + 2)
  }

  datatype Round = Answer(verdict: Verdict) | Again(at: nat, out: Bytes)

  /** One chunk, from its size line on: an answer, or the next chunk's place. */
  function OneRound(s: Bytes, c: nat, out: Bytes): (r: Round)
    requires c <= |s|
    ensures r.Again? ==> c < r.at <= |s|
    ensures r.Answer? && r.verdict.Complete? ==> r.verdict.next <= |s|
  {
    match FindCrlf(s, c)
    case None => Answer(More)
    case Some(eol) =>
      match ReadSize(s, c, eol, 0, 0)
      case TooBig => Answer(Malformed)
      case Size(sz, digits) =>
        if digits == 0 then Answer(Malformed)
        else if sz == 0 then
          match SkipTrailers(s, eol + 2)
          case None => Answer(More)
          case Some(next) => Answer(Complete(out, next))
        else if |s| - (eol + 2) < sz + 2 then Answer(More)
        else
          var e := eol + 2 + sz;
          if s[e] != CR || s[e + 1] != LF then Answer(Malformed) else Again(e + 2, out + s[eol + 2..e])
  }

  /** The decoder from a chunk's size line on. */
  function Decode(s: Bytes, c: nat, out: Bytes): (r: Verdict)
    requires c <= |s|
    ensures r.Complete? ==> r.next <= |s|
    decreases |s| - c
  {
    match OneRound(s, c, out)
    case Answer(v) => v
    case Again(at, o) => Decode(s, at, o)
  }

  /** http_dechunk. */
  method HttpDechunk(s: Bytes) returns (code: int, out: Bytes)
    ensures match Decode(s, 0, [])
            case Complete(body, _) => code == 1 && out == body
            case More => code == 0
            case Malformed => code == -1
  {
    hide FindCrlf, ReadSize, SkipTrailers;
    out := [];
    var c := 0;
    while true
      invariant c <= |s| && Decode(s, c, out) == Decode(s, 0, [])
      decreases |s| - c
    {
      var line := FirstCrlf(s, c);
      if line == None {
        return 0, out;
      }
      var eol := line.value;
      var size := ParseSize(s, c, eol);
      if size == TooBig || size.digits == 0 {
        return -1, out;
      }
      var sz := size.value;
      c := eol + 2;
      if sz == 0 {
        code := Trailers(s, c);
        return;
      }
      if |s| - c < sz + 2 {
        return 0, out;
      }
      out := out + s[c..c + sz];
      c := c + sz;
      if s[c] != CR || s[c + 1] != LF {
        return -1, out;
      }
      c := c + 2;
    }
  }

  method FirstCrlf(s: Bytes, p: nat) returns (r: Option<nat>)
    requires p <= |s|
    ensures r == FindCrlf(s, p)
  {
    var q := p;
    while q + 1 < |s|
      invariant p <= q <= |s| && FindCrlf(s, q) == FindCrlf(s, p)
    {
      if s[q] == CR && s[q + 1] == LF {
        return Some(q);
      }
      q := q + 1;
    }
    r := None;
  }

  /** The digit loop; `sz` never leaves size_t. */
  method ParseSize(s: Bytes, c: nat, eol: nat) returns (r: Size)
    requires c <= eol <= |s|
    ensures r == ReadSize(s, c, eol, 0, 0)
  {
    var d, sz: nat, digits: nat := c, 0, 0;
    while d < eol && IsHex(s[d])
      invariant c <= d <= eol && sz <= LIMIT * 16 + 15
      invariant ReadSize(s, d, eol, sz, digits) == ReadSize(s, c, eol, 0, 0)
    {
      if sz > LIMIT {
        return TooBig;
      }
      assert sz * 16 + HexDigit(s[d]) <= SIZE_MAX;
      sz, d, digits := sz * 16 + HexDigit(s[d]), d + 1, digits + 1;
    }
    r := Size(sz, digits);
  }

  method Trailers(s: Bytes, start: nat) returns (code: int)
    requires start <= |s|
    ensures code == if SkipTrailers(s, start) == None then 0 else 1
  {
    var c := start;
    while true
      invariant start <= c <= |s| && (SkipTrailers(s, c) == None <==> SkipTrailers(s, start) == None)
      decreases |s| - c
    {
      var t := FirstCrlf(s, c);
      if t == None {
        return 0;
      }
      if t.value == c {
        return 1;
      }
      c := t.value + 2;
    }
  }

  // ---- Verdicts are final ----

  lemma FindStable(s: Bytes, t: Bytes, p: nat)
    requires p <= |s| && s <= t && FindCrlf(s, p).Some?
    ensures FindCrlf(t, p) == FindCrlf(s, p)
  {
    var q := FindCrlf(s, p).value;
    assert CrlfAt(t, q);
    forall k | p <= k < q ensures !CrlfAt(t, k) {
      assert !CrlfAt(s, k);
    }
  }

  lemma {:induction false} ReadSizeStable(s: Bytes, t: Bytes, d: nat, eol: nat, sz: nat, digits: nat)
    requires d <= eol <= |s| && sz <= LIMIT * 16 + 15 && s <= t
    ensures ReadSize(t, d, eol, sz, digits) == ReadSize(s, d, eol, sz, digits)
    decreases eol - d
  {
    if d < eol && IsHex(s[d]) && sz <= LIMIT {
      ReadSizeStable(s, t, d + 1, eol, sz * 16 + HexDigit(s[d]), digits + 1);
    }
  }

  lemma {:induction false} TrailersStable(s: Bytes, t: Bytes, c: nat)
    requires c <= |s| && s <= t && SkipTrailers(s, c).Some?
    ensures SkipTrailers(t, c) == SkipTrailers(s, c)
    decreases |s| - c
  {
    FindStable(s, t, c);
    var q := FindCrlf(s, c).value;
    if q != c {
      TrailersStable(s, t, q + 2);
    }
  }

  lemma RoundFinal(s: Bytes, t: Bytes, c: nat, out: Bytes)
    requires c <= |s| && s <= t && OneRound(s, c, out) != Answer(More)
    ensures OneRound(t, c, out) == OneRound(s, c, out)
  {
    hide FindCrlf, ReadSize, SkipTrailers;
    FindStable(s, t, c);
    var eol := FindCrlf(s, c).value;
    ReadSizeStable(s, t, c, eol, 0, 0);
    var size := ReadSize(s, c, eol, 0, 0);
    if size.Size? && size.digits > 0 {
      if size.value == 0 {
        TrailersStable(s, t, eol + 2);
      } else {
        assert t[eol + 2..eol + 2 + size.value] == s[eol + 2..eol + 2 + size.value];
      }
    }
  }

  /** More bytes change nothing once the decoder has answered. */
  lemma {:induction false} VerdictFinal(s: Bytes, t: Bytes, c: nat, out: Bytes)
    requires c <= |s| && s <= t && Decode(s, c, out) != More
    ensures Decode(t, c, out) == Decode(s, c, out)
    decreases |s| - c
  {
    hide OneRound;
    RoundFinal(s, t, c, out);
    var r := OneRound(s, c, out);
    if r.Again? {
      VerdictFinal(s, t, r.at, r.out);
    }
  }

  // ---- Well-formed messages ----

  /** A chunk: its size in hexadecimal, an extension, and its data. */
  datatype Chunk = Chunk(size: Bytes, ext: Bytes, data: Bytes)

  /** The value of hexadecimal digits read after `sz`. */
  function HexValue(digits: Bytes, sz: nat): nat
    requires forall i :: 0 <= i < |digits| ==> IsHex(digits[i])
  {
    if digits == [] then sz else HexValue(digits[1..], sz * 16 + HexDigit(digits[0]))
  }

  predicate NoCrlf(line: Bytes) {
    forall k :: 0 <= k < |line| ==> !CrlfAt(line, k)
  }

  predicate SizeLine(size: Bytes, ext: Bytes, n: nat) {
    && size != [] && (forall i :: 0 <= i < |size| ==> IsHex(size[i])) && HexValue(size, 0) == n
    && NoCrlf(ext) && (ext != [] ==> !IsHex(ext[0]))
  }

  /** No object exceeds half the address space, so neither does a chunk. */
  predicate WellFormedChunk(c: Chunk) {
    SizeLine(c.size, c.ext, |c.data|) && 0 < |c.data| <= SIZE_MAX / 2
  }

  predicate WellFormed(chunks: seq<Chunk>, lastSize: Bytes, lastExt: Bytes, trailers: seq<Bytes>) {
    && (forall i :: 0 <= i < |chunks| ==> WellFormedChunk(chunks[i]))
    && SizeLine(lastSize, lastExt, 0)
    && forall i :: 0 <= i < |trailers| ==> trailers[i] != [] && NoCrlf(trailers[i])
  }

  function Body(chunks: seq<Chunk>): Bytes {
    if chunks == [] then [] else chunks[0].data + Body(chunks[1..])
  }

  function TrailerPart(trailers: seq<Bytes>): Bytes {
    if trailers == [] then CRLF else trailers[0] + CRLF + TrailerPart(trailers[1..])
  }

  function Message(chunks: seq<Chunk>, lastSize: Bytes, lastExt: Bytes, trailers: seq<Bytes>): Bytes {
    if chunks == [] then lastSize + lastExt + CRLF + TrailerPart(trailers)
    else
      var c := chunks[0];
      c.size + c.ext + CRLF + c.data + CRLF + Message(chunks[1..], lastSize, lastExt, trailers)
  }

  /** `s` from `c` on begins with `line` and a CRLF, and that is the first one. */
  lemma LineFound(s: Bytes, c: nat, line: Bytes)
    requires c + |line| + 2 <= |s| && s[c..c + |line|] == line && s[c + |line|..c + |line| + 2] == CRLF
    requires NoCrlf(line)
    ensures FindCrlf(s, c) == Some(c + |line|)
  {
    assert CrlfAt(s, c + |line|) by {
      assert s[c + |line|..c + |line| + 2][0] == CR && s[c + |line|..c + |line| + 2][1] == LF;
    }
    forall k | c <= k < c + |line| ensures !CrlfAt(s, k) {
      assert s[c..c + |line|][k - c] == line[k - c];
      if k + 1 < c + |line| {
        assert s[c..c + |line|][k + 1 - c] == line[k + 1 - c];
        assert !CrlfAt(line, k - c);
      }
    }
  }

  lemma SizeLineNoCrlf(size: Bytes, ext: Bytes, n: nat)
    requires SizeLine(size, ext, n)
    ensures NoCrlf(size + ext)
  {
    var line := size + ext;
    forall k | 0 <= k < |line| ensures !CrlfAt(line, k) {
      if k >= |size| && k + 1 < |line| {
        assert line[k] == ext[k - |size|] && line[k + 1] == ext[k + 1 - |size|];
        assert !CrlfAt(ext, k - |size|);
      } else if k < |size| {
        assert line[k] == size[k];
      }
    }
  }

  lemma {:induction false} HexValueGrows(digits: Bytes, sz: nat)
    requires forall i :: 0 <= i < |digits| ==> IsHex(digits[i])
    ensures HexValue(digits, sz) >= sz && (digits != [] ==> HexValue(digits, sz) >= 16 * sz)
  {
    if digits != [] {
      HexValueGrows(digits[1..], sz * 16 + HexDigit(digits[0]));
    }
  }

  lemma {:induction false} SizeRead(s: Bytes, d: nat, eol: nat, size: Bytes, sz: nat, n: nat)
    requires d + |size| <= eol <= |s| && s[d..d + |size|] == size
    requires forall i :: 0 <= i < |size| ==> IsHex(size[i])
    requires d + |size| < eol ==> !IsHex(s[d + |size|])
    requires HexValue(size, sz) <= SIZE_MAX / 2 && sz <= LIMIT * 16 + 15
    ensures ReadSize(s, d, eol, sz, n) == Size(HexValue(size, sz), n + |size|)
    decreases |size|
  {
    if size != [] {
      HexValueGrows(size, sz);
      assert s[d] == s[d..d + |size|][0];
      assert s[d + 1..d + |size|] == s[d..d + |size|][1..];
      SizeRead(s, d + 1, eol, size[1..], sz * 16 + HexDigit(size[0]), n + 1);
    }
  }

  /** A size line at `c`: where it ends and what it says. */
  lemma SizeLineRead(s: Bytes, c: nat, size: Bytes, ext: Bytes, rest: Bytes, n: nat)
    requires c <= |s| && s[c..] == size + ext + CRLF + rest && SizeLine(size, ext, n) && n <= SIZE_MAX / 2
    ensures var eol := c + |size| + |ext|;
            FindCrlf(s, c) == Some(eol) && eol + 2 <= |s| && s[eol + 2..] == rest &&
            ReadSize(s, c, eol, 0, 0) == Size(n, |size|)
  {
    var line, t := size + ext, s[c..];
    SizeLineNoCrlf(size, ext, n);
    assert t == line + CRLF + rest;
    assert s[c..c + |line|] == t[..|line|] == line;
    assert s[c + |line|..c + |line| + 2] == t[|line|..|line| + 2] == CRLF;
    LineFound(s, c, line);
    assert s[c..c + |size|] == t[..|size|] == size;
    assert ext != [] ==> s[c + |size|] == t[|size|] == ext[0];
    SizeRead(s, c, c + |line|, size, 0, 0);
    assert s[c + |line| + 2..] == t[|line| + 2..] == rest;
  }

  lemma {:induction false} TrailersRead(s: Bytes, c: nat, trailers: seq<Bytes>)
    requires c <= |s| && s[c..] == TrailerPart(trailers)
    requires forall i :: 0 <= i < |trailers| ==> trailers[i] != [] && NoCrlf(trailers[i])
    ensures SkipTrailers(s, c) == Some(|s|)
    decreases |trailers|
  {
    hide FindCrlf;
    var t := s[c..];
    if trailers == [] {
      assert s[c..c + 0] == [] && s[c + 0..c + 2] == t[..2] == CRLF;
      LineFound(s, c, []);
    } else {
      var line, rest := trailers[0], TrailerPart(trailers[1..]);
      assert t == line + CRLF + rest;
      assert s[c..c + |line|] == t[..|line|] == line;
      assert s[c + |line|..c + |line| + 2] == t[|line|..|line| + 2] == CRLF;
      LineFound(s, c, line);
      assert s[c + |line| + 2..] == t[|line| + 2..] == rest;
      TrailersRead(s, c + |line| + 2, trailers[1..]);
    }
  }

  lemma LastRound(s: Bytes, c: nat, out: Bytes, eol: nat, digits: nat)
    requires c <= |s| && FindCrlf(s, c) == Some(eol) && ReadSize(s, c, eol, 0, 0) == Size(0, digits) && digits > 0
    requires SkipTrailers(s, eol + 2) == Some(|s|)
    ensures OneRound(s, c, out) == Answer(Complete(out, |s|))
  {
    hide FindCrlf, ReadSize, SkipTrailers;
  }

  lemma ChunkRound(s: Bytes, c: nat, out: Bytes, k: Chunk, rest: Bytes)
    requires c <= |s| && s[c..] == k.size + k.ext + CRLF + (k.data + CRLF + rest) && WellFormedChunk(k)
    ensures var r := OneRound(s, c, out); r.Again? && r.out == out + k.data && s[r.at..] == rest
  {
    hide FindCrlf, ReadSize, SkipTrailers, SizeLine;
    SizeLineRead(s, c, k.size, k.ext, k.data + CRLF + rest, |k.data|);
    LastSizeNotEmpty(k.size, k.ext, |k.data|);
    DataAt(s, c + |k.size| + |k.ext| + 2, k.data, rest);
  }

  lemma {:induction false} MessageDecodes(s: Bytes, c: nat, out: Bytes, chunks: seq<Chunk>, lastSize: Bytes,
      lastExt: Bytes, trailers: seq<Bytes>)
    requires WellFormed(chunks, lastSize, lastExt, trailers)
    requires c <= |s| && s[c..] == Message(chunks, lastSize, lastExt, trailers)
    ensures Decode(s, c, out) == Complete(out + Body(chunks), |s|)
    decreases |chunks|
  {
    hide OneRound, FindCrlf, ReadSize, SkipTrailers, SizeLine, WellFormedChunk, TrailerPart;
    if chunks == [] {
      assert s[c..] == lastSize + lastExt + CRLF + TrailerPart(trailers);
      SizeLineRead(s, c, lastSize, lastExt, TrailerPart(trailers), 0);
      TrailersRead(s, c + |lastSize| + |lastExt| + 2, trailers);
      LastSizeNotEmpty(lastSize, lastExt, 0);
      LastRound(s, c, out, c + |lastSize| + |lastExt|, |lastSize|);
      assert out + [] == out;
    } else {
      var k, rest := chunks[0], Message(chunks[1..], lastSize, lastExt, trailers);
      MessageHead(s[c..], chunks, lastSize, lastExt, trailers);
      ChunkRound(s, c, out, k, rest);
      MessageDecodes(s, OneRound(s, c, out).at, out + k.data, chunks[1..], lastSize, lastExt, trailers);
      assert out + k.data + Body(chunks[1..]) == out + Body(chunks);
    }
  }

  lemma MessageHead(m: Bytes, chunks: seq<Chunk>, lastSize: Bytes, lastExt: Bytes, trailers: seq<Bytes>)
    requires chunks != [] && m == Message(chunks, lastSize, lastExt, trailers)
    ensures var k, rest := chunks[0], Message(chunks[1..], lastSize, lastExt, trailers);
            m == k.size + k.ext + CRLF + (k.data + CRLF + rest)
  {
  }

  lemma LastSizeNotEmpty(size: Bytes, ext: Bytes, n: nat)
    requires SizeLine(size, ext, n)
    ensures |size| > 0
  {
  }

  lemma DataAt(s: Bytes, d: nat, data: Bytes, rest: Bytes)
    requires d <= |s| && s[d..] == data + CRLF + rest
    ensures var e := d + |data|;
            e + 2 <= |s| && s[d..e] == data && s[e] == CR && s[e + 1] == LF && s[e + 2..] == rest
  {
    var t := s[d..];
    assert t[..|data|] == data && t[|data|] == CR && t[|data| + 1] == LF && t[|data| + 2..] == rest;
    assert s[d..d + |data|] == t[..|data|];
    assert s[d + |data| + 2..] == t[|data| + 2..];
  }

  /** The whole message: complete, with exactly the body, and nothing left over. */
  lemma WholeMessage(chunks: seq<Chunk>, lastSize: Bytes, lastExt: Bytes, trailers: seq<Bytes>)
    requires WellFormed(chunks, lastSize, lastExt, trailers)
    ensures var m := Message(chunks, lastSize, lastExt, trailers);
            Decode(m, 0, []) == Complete(Body(chunks), |m|)
  {
    var m := Message(chunks, lastSize, lastExt, trailers);
    assert m[0..] == m;
    MessageDecodes(m, 0, [], chunks, lastSize, lastExt, trailers);
    assert [] + Body(chunks) == Body(chunks);
  }

  /** Every proper prefix of it: more bytes are needed, never an error. */
  lemma ProperPrefix(chunks: seq<Chunk>, lastSize: Bytes, lastExt: Bytes, trailers: seq<Bytes>, s: Bytes)
    requires WellFormed(chunks, lastSize, lastExt, trailers)
    requires s < Message(chunks, lastSize, lastExt, trailers)
    ensures Decode(s, 0, []) == More
  {
    WholeMessage(chunks, lastSize, lastExt, trailers);
    if Decode(s, 0, []) != More {
      VerdictFinal(s, Message(chunks, lastSize, lastExt, trailers), 0, []);
    }
  }
}
