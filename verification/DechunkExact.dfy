/**
 The converse for the chunked decoder: it answers "complete" for nothing but a well-formed
 message, with that message's body, and it refuses a chunk for exactly the faults a size
 line or its data can have.
 */
module DechunkExact {
  import opened Common
  import opened Dechunk

  // ---- Hexadecimal ----

  const LOWER := "0123456789abcdef"
  const UPPER := "0123456789ABCDEF"

  /** The digits of either case are hexadecimal digits of their value, */
  lemma HexNamed(d: nat)
    requires d < 16
    ensures IsHex(LOWER[d] as int) && HexDigit(LOWER[d] as int) == d
    ensures IsHex(UPPER[d] as int) && HexDigit(UPPER[d] as int) == d
  {
  }

  /** and there are no others. */
  lemma HexOnly(c: Byte)
    requires IsHex(c)
    ensures c == LOWER[HexDigit(c)] as int || c == UPPER[HexDigit(c)] as int
  {
  }

  /** The first digit weighs most. */
  lemma {:induction false} HexValueSnoc(digits: Bytes, c: Byte, sz: nat)
    requires IsHex(c) && forall i :: 0 <= i < |digits| ==> IsHex(digits[i])
    ensures HexValue(digits + [c], sz) == 16 * HexValue(digits, sz) + HexDigit(c)
    decreases |digits|
  {
    if digits == [] {
      assert digits + [c] == [c] && [c][1..] == [];
    } else {
      assert (digits + [c])[1..] == digits[1..] + [c];
      HexValueSnoc(digits[1..], c, sz * 16 + HexDigit(digits[0]));
    }
  }

  /** How many digits a line starts with. */
  function HexRun(line: Bytes): (n: nat)
    ensures n <= |line| && (forall i :: 0 <= i < n ==> IsHex(line[i])) && (n < |line| ==> !IsHex(line[n]))
  {
    if line == [] || !IsHex(line[0]) then 0 else 1 + HexRun(line[1..])
  }

  /** The size of a line, refused if all but its last digit make more than the limit. */
  lemma {:induction false} SizeLaw(s: Bytes, d: nat, eol: nat, sz: nat, n: nat)
    requires d <= eol <= |s| && sz <= LIMIT * 16 + 15
    ensures var ds := s[d..eol][..HexRun(s[d..eol])];
            ReadSize(s, d, eol, sz, n) ==
            if ds == [] then Size(sz, n)
            else if HexValue(ds[..|ds| - 1], sz) > LIMIT then TooBig
            else Size(HexValue(ds, sz), n + |ds|)
    decreases eol - d
  {
    var line := s[d..eol];
    if d < eol && IsHex(s[d]) {
      var ds, rest := line[..HexRun(line)], s[d + 1..eol];
      assert line[1..] == rest;
      var next := sz * 16 + HexDigit(s[d]);
      assert ds == [s[d]] + rest[..HexRun(rest)];
      if sz > LIMIT {
        HexValueGrows(ds[..|ds| - 1], sz);
      } else {
        SizeLaw(s, d + 1, eol, next, n + 1);
        if rest[..HexRun(rest)] != [] {
          assert ds[..|ds| - 1][1..] == rest[..HexRun(rest)][..HexRun(rest) - 1];
        } else {
          assert ds[..|ds| - 1] == [];
        }
        assert ds[1..] == rest[..HexRun(rest)];
      }
    }
  }

  // ---- One chunk ----

  /** Without a whole line there is nothing to say yet. */
  lemma NoLine(s: Bytes, c: nat, out: Bytes)
    requires c <= |s| && NoCrlf(s[c..])
    ensures OneRound(s, c, out) == Answer(More)
  {
    match FindCrlf(s, c)
    case None =>
    case Some(e) => assert CrlfAt(s[c..], e - c);
  }

  /** What a chunk of `n` bytes comes to, when `rest`, from `d` on, follows its size line. */
  function DataAnswer(s: Bytes, d: nat, rest: Bytes, n: nat, out: Bytes): Round
    requires d <= |s|
  {
    if n == 0 then Answer(if SkipTrailers(s, d).Some? then Complete(out, SkipTrailers(s, d).value) else More)
    else if |rest| < n + 2 then Answer(More)
    else if rest[n..n + 2] != CRLF then Answer(Malformed)
    else Again(d + n + 2, out + rest[..n])
  }

  /**
   The answer to a size line and what follows it: malformed if it starts with no digit, if
   its size is beyond the limit, or if the data is not followed by a line's end.
   */
  lemma RoundLaw(s: Bytes, c: nat, out: Bytes, line: Bytes, rest: Bytes)
    requires c <= |s| && s[c..] == line + CRLF + rest && NoCrlf(line)
    ensures var ds, d := line[..HexRun(line)], c + |line| + 2;
            && d <= |s|
            && OneRound(s, c, out) ==
               if ds == [] || HexValue(ds[..|ds| - 1], 0) > LIMIT then Answer(Malformed)
               else DataAnswer(s, d, rest, HexValue(ds, 0), out)
  {
    hide FindCrlf, ReadSize, HexValue, OneRound, HexRun, NoCrlf, IsHex, DataAnswer;
    LineSize(s, c, line, rest);
    SizedRound(s, c, out, c + |line|, rest);
  }

  lemma LineSize(s: Bytes, c: nat, line: Bytes, rest: Bytes)
    requires c <= |s| && s[c..] == line + CRLF + rest && NoCrlf(line)
    ensures var eol, ds := c + |line|, line[..HexRun(line)];
            && eol + 2 <= |s| && s[eol + 2..] == rest && FindCrlf(s, c) == Some(eol)
            && ReadSize(s, c, eol, 0, 0) ==
               if ds == [] then Size(0, 0)
               else if HexValue(ds[..|ds| - 1], 0) > LIMIT then TooBig
               else Size(HexValue(ds, 0), |ds|)
  {
    hide ReadSize, HexValue, HexRun, NoCrlf, IsHex;
    LineThere(s, c, line, rest);
    LineFound(s, c, line);
    SizeLaw(s, c, c + |line|, 0, 0);
  }

  lemma SizedRound(s: Bytes, c: nat, out: Bytes, eol: nat, rest: Bytes)
    requires c <= |s| && FindCrlf(s, c) == Some(eol) && eol + 2 <= |s| && s[eol + 2..] == rest
    ensures OneRound(s, c, out) ==
              match ReadSize(s, c, eol, 0, 0)
              case TooBig => Answer(Malformed)
              case Size(n, digits) => if digits == 0 then Answer(Malformed) else DataAnswer(s, eol + 2, rest, n, out)
  {
    hide FindCrlf, ReadSize, SkipTrailers;
    var size := ReadSize(s, c, eol, 0, 0);
    if size.Size? && |rest| >= size.value + 2 {
      var v := size.value;
      assert rest[v..v + 2] == [s[eol + 2 + v], s[eol + 2 + v + 1]];
      assert s[eol + 2..eol + 2 + v] == rest[..v];
    }
  }

  lemma LineThere(s: Bytes, c: nat, line: Bytes, rest: Bytes)
    requires c <= |s| && s[c..] == line + CRLF + rest
    ensures var e := c + |line|;
            e + 2 <= |s| && s[c..e] == line && s[e..e + 2] == CRLF && s[e + 2..] == rest
  {
    var t := s[c..];
    assert t[..|line|] == line && t[|line|..|line| + 2] == CRLF && t[|line| + 2..] == rest;
    assert s[c..c + |line|] == t[..|line|] && s[c + |line|..c + |line| + 2] == t[|line|..|line| + 2];
    assert s[c + |line| + 2..] == t[|line| + 2..];
  }

  // ---- Complete messages ----

  /** The bytes from `c` up to the first line's end are a line. */
  lemma FirstLine(s: Bytes, c: nat)
    requires c <= |s| && FindCrlf(s, c).Some?
    ensures var e := FindCrlf(s, c).value;
            c <= e && e + 2 <= |s| && NoCrlf(s[c..e]) && s[c..] == s[c..e] + CRLF + s[e + 2..]
  {
    var e := FindCrlf(s, c).value;
    forall k | 0 <= k < e - c ensures !CrlfAt(s[c..e], k) {
      assert !CrlfAt(s, c + k);
    }
    assert s[e..e + 2] == CRLF;
    assert s[c..] == s[c..e] + s[e..e + 2] + s[e + 2..];
  }

  lemma {:induction false} TrailersAre(s: Bytes, c: nat) returns (trailers: seq<Bytes>)
    requires c <= |s| && SkipTrailers(s, c).Some?
    ensures forall i :: 0 <= i < |trailers| ==> trailers[i] != [] && NoCrlf(trailers[i])
    ensures s[c..SkipTrailers(s, c).value] == TrailerPart(trailers)
    decreases |s| - c
  {
    hide FindCrlf;
    FirstLine(s, c);
    var e := FindCrlf(s, c).value;
    if e == c {
      trailers := [];
      assert s[c..c + 2] == CRLF;
    } else {
      var rest := TrailersAre(s, e + 2);
      var line, end := s[c..e], SkipTrailers(s, c).value;
      trailers := [line] + rest;
      assert s[e..e + 2] == CRLF;
      assert s[c..end] == line + s[e..e + 2] + s[e + 2..end];
      assert trailers[1..] == rest;
    }
  }

  /** A size line that is read says its size. */
  lemma SizeSaid(line: Bytes)
    requires HexRun(line) > 0
    ensures var h := HexRun(line); SizeLine(line[..h], line[h..], HexValue(line[..h], 0)) || !NoCrlf(line)
  {
    var h := HexRun(line);
    if NoCrlf(line) {
      forall k | 0 <= k < |line[h..]| ensures !CrlfAt(line[h..], k) {
        assert !CrlfAt(line, h + k);
      }
    }
  }

  /**
   "Complete" is answered to well-formed messages alone: what was read is one, with the
   body returned.
   */
  lemma {:induction false} CompleteIsMessage(s: Bytes, c: nat, out: Bytes)
    returns (chunks: seq<Chunk>, lastSize: Bytes, lastExt: Bytes, trailers: seq<Bytes>)
    requires c <= |s| <= SIZE_MAX / 2 && Decode(s, c, out).Complete?
    ensures WellFormed(chunks, lastSize, lastExt, trailers)
    ensures var v := Decode(s, c, out);
            && c <= v.next <= |s| && v.body == out + Body(chunks)
            && s[c..v.next] == Message(chunks, lastSize, lastExt, trailers)
    decreases |s| - c
  {
    hide FindCrlf, OneRound, SizeLine, HexValue, SkipTrailers, WellFormedChunk, TrailerPart, NoCrlf, ReadSize;
    var size, ext, n, eol := CompleteLine(s, c, out);
    var rest, end := s[eol + 2..], Decode(s, c, out).next;
    if n == 0 {
      trailers := TrailersAre(s, eol + 2);
      chunks, lastSize, lastExt := [], size, ext;
      Cut(s, c, eol, end);
      assert out + Body([]) == out;
    } else {
      var k, r := Chunk(size, ext, rest[..n]), OneRound(s, c, out);
      ChunkOk(k, n);
      chunks, lastSize, lastExt, trailers := CompleteIsMessage(s, r.at, r.out);
      Cut(s, c, eol, end);
      CutData(s, eol + 2, n, end);
      OneMoreChunk(k, chunks, lastSize, lastExt, trailers);
      assert out + k.data + Body(chunks) == out + (k.data + Body(chunks));
      chunks := [k] + chunks;
    }
  }

  lemma CompleteLine(s: Bytes, c: nat, out: Bytes) returns (size: Bytes, ext: Bytes, n: nat, eol: nat)
    requires c <= |s| && Decode(s, c, out).Complete?
    ensures c <= eol && eol + 2 <= |s| && s[c..eol] == size + ext && SizeLine(size, ext, n)
    ensures s[c..] == s[c..eol] + CRLF + s[eol + 2..]
    ensures OneRound(s, c, out) == DataAnswer(s, eol + 2, s[eol + 2..], n, out)
  {
    hide FindCrlf, OneRound, HexRun, SizeLine, HexValue, NoCrlf, ReadSize, DataAnswer;
    AnswersLine(s, c, out);
    FirstLine(s, c);
    eol := FindCrlf(s, c).value;
    var line := s[c..eol];
    RoundLaw(s, c, out, line, s[eol + 2..]);
    size, ext := line[..HexRun(line)], line[HexRun(line)..];
    n := HexValue(size, 0);
    SizeSaid(line);
  }

  lemma OneMoreChunk(k: Chunk, chunks: seq<Chunk>, lastSize: Bytes, lastExt: Bytes, trailers: seq<Bytes>)
    requires WellFormedChunk(k) && WellFormed(chunks, lastSize, lastExt, trailers)
    ensures WellFormed([k] + chunks, lastSize, lastExt, trailers) && Body([k] + chunks) == k.data + Body(chunks)
    ensures Message([k] + chunks, lastSize, lastExt, trailers) ==
              k.size + k.ext + CRLF + (k.data + CRLF + Message(chunks, lastSize, lastExt, trailers))
  {
    hide WellFormedChunk, SizeLine;
    assert ([k] + chunks)[1..] == chunks;
    MessageHead(Message([k] + chunks, lastSize, lastExt, trailers), [k] + chunks, lastSize, lastExt, trailers);
  }

  lemma AnswersLine(s: Bytes, c: nat, out: Bytes)
    requires c <= |s| && Decode(s, c, out).Complete?
    ensures FindCrlf(s, c).Some?
  {
  }

  lemma ChunkOk(k: Chunk, n: nat)
    requires SizeLine(k.size, k.ext, n) && |k.data| == n && 0 < n <= SIZE_MAX / 2
    ensures WellFormedChunk(k)
  {
  }

  lemma Cut(s: Bytes, c: nat, e: nat, end: nat)
    requires c <= e && e + 2 <= end <= |s| && s[c..] == s[c..e] + CRLF + s[e + 2..]
    ensures s[c..end] == s[c..e] + CRLF + s[e + 2..end]
  {
    assert s[c..][e - c..e - c + 2] == CRLF;
    assert s[e..e + 2] == s[c..][e - c..e - c + 2];
  }

  lemma CutData(s: Bytes, d: nat, n: nat, end: nat)
    requires d + n + 2 <= end <= |s| && s[d..][n..n + 2] == CRLF
    ensures s[d..end] == s[d..][..n] + CRLF + s[d + n + 2..end]
  {
    assert s[d..][n..n + 2] == s[d + n..d + n + 2];
    assert s[d..][..n] == s[d..d + n];
  }
}
