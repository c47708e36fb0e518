/** Reading along a sequence of bytes from a cursor. */
module Cursor {
  import opened Common

  type Bytes = seq<Byte>

  predicate StartsWith(s: Bytes, p: nat, t: Bytes) {
    p + |t| <= |s| && s[p..p + |t|] == t
  }

  lemma Divide(s: Bytes, p: nat, a: Bytes, b: Bytes)
    requires StartsWith(s, p, a + b)
    ensures StartsWith(s, p, a) && StartsWith(s, p + |a|, b)
  {
    var t := s[p..p + |a + b|];
    assert t[..|a|] == a && t[|a|..] == b;
    assert s[p..p + |a|] == t[..|a|] && s[p + |a|..p + |a| + |b|] == t[|a|..];
  }

  lemma Head(s: Bytes, p: nat, t: Bytes, i: nat)
    requires StartsWith(s, p, t) && i < |t|
    ensures p + i < |s| && s[p + i] == t[i]
  {
    assert s[p..p + |t|][i] == t[i];
  }
}
