/**
 Keys of maps: how the C runtime compares, hashes and renders them, and why the
 keys of one map listed in textual order form one sequence and no other.
 */
module MapKeys {
  import opened Common
  import opened Bits
  import opened Decimal

  datatype Key = IntKey(i: int) | StrKey(s: seq<Byte>)

  const TWO_32: nat := 0x1_0000_0000

  /** A C string ends at its first NUL. */
  function UptoNul(s: seq<Byte>): seq<Byte> {
    if s == [] || s[0] == 0 then [] else [s[0]] + UptoNul(s[1..])
  }

  predicate NulFree(s: seq<Byte>) {
    forall i :: 0 <= i < |s| ==> s[i] != 0
  }

  lemma {:induction false} NulFreeWhole(s: seq<Byte>)
    requires NulFree(s)
    ensures UptoNul(s) == s
  {
    if s != [] {
      NulFreeWhole(s[1..]);
    }
  }

  /** The text of a key, all of it. */
  function Text(k: Key): seq<Byte> {
    match k
    case IntKey(i) => IntText(i)
    case StrKey(s) => s
  }

  /** value_eq on keys: two integers by value, otherwise strcmp of the texts. */
  predicate KeyEq(a: Key, b: Key) {
    if a.IntKey? && b.IntKey? then a.i == b.i else UptoNul(Text(a)) == UptoNul(Text(b))
  }

  /** FNV-1a in 32 bits. */
  function Fnv(s: seq<Byte>, h: nat): nat {
    if s == [] then h else Fnv(s[1..], Xor(h, s[0]) * 16777619 % TWO_32)
  }

  /** hash_value: an integer's two 32-bit halves combined, a string's FNV-1a hash. */
  function Hash(k: Key): nat {
    match k
    case IntKey(i) => Xor(i % TWO_32, (i / TWO_32) % TWO_32) % TWO_32
    case StrKey(s) => Fnv(s, 2166136261) % TWO_32
  }

  /** Both halves of an integer count: it hashes like its complement, and a 32-bit one as itself. */
  lemma IntHash(i: int)
    requires IsInt64(i)
    ensures Hash(IntKey(i)) == Hash(IntKey(-1 - i))
    ensures 0 <= i < TWO_32 ==> Hash(IntKey(i)) == i
  {
    hide Xor, Pow2;
    var lo, hi := i % TWO_32, (i / TWO_32) % TWO_32;
    Complemented(i);
    Power32();
    XorComplements(lo, hi, 32);
    XorZero(lo);
  }

  lemma Complemented(i: int)
    ensures (-1 - i) % TWO_32 == TWO_32 - 1 - i % TWO_32
    ensures ((-1 - i) / TWO_32) % TWO_32 == TWO_32 - 1 - (i / TWO_32) % TWO_32
  {
    assert (-1 - i) / TWO_32 == -1 - i / TWO_32;
  }

  lemma Power32()
    ensures Pow2(32) == TWO_32
  {
    assert Pow2(8) == 256 by { assert Pow2(4) == 16; }
    assert Pow2(16) == 65536 by { assert Pow2(12) == 4096; }
    assert Pow2(24) == 16777216 by { assert Pow2(20) == 1048576; }
    assert Pow2(28) == 268435456;
  }

  lemma {:induction false} XorComplements(a: nat, b: nat, n: nat)
    requires a < Pow2(n) && b < Pow2(n)
    ensures Xor(Pow2(n) - 1 - a, Pow2(n) - 1 - b) == Xor(a, b)
  {
    hide Xor;
    if n > 0 {
      var m := Pow2(n - 1);
      HalfComplement(a, m);
      HalfComplement(b, m);
      XorComplements(a / 2, b / 2, n - 1);
      XorStep(a, b);
      XorStep(2 * m - 1 - a, 2 * m - 1 - b);
      SameHalves(Xor(2 * m - 1 - a, 2 * m - 1 - b), Xor(a, b));
    }
  }

  lemma HalfComplement(a: nat, m: nat)
    requires a < 2 * m
    ensures (2 * m - 1 - a) / 2 == m - 1 - a / 2 && (2 * m - 1 - a) % 2 == 1 - a % 2
  {
  }

  /** value_to_string of a key: its text as a C string, which equality and order look at. */
  function Name(k: Key): seq<Byte> {
    UptoNul(Text(k))
  }

  /** Equality of keys of any kinds is equality of names, so an equivalence. */
  lemma KeyEqIff(a: Key, b: Key)
    ensures KeyEq(a, b) <==> Name(a) == Name(b)
  {
    if a.IntKey? && b.IntKey? {
      IntTextNulFree(a.i);
      IntTextNulFree(b.i);
      NulFreeWhole(IntText(a.i));
      NulFreeWhole(IntText(b.i));
      if Name(a) == Name(b) {
        IntTextInjective(a.i, b.i);
      }
    }
  }

  lemma IntTextNulFree(i: int)
    ensures NulFree(IntText(i))
  {
  }

  /** Two different keys that a table of that capacity takes for one. */
  predicate Confused(a: Key, b: Key, cap: nat)
    requires cap > 0
  {
    a != b && Name(a) == Name(b) && Hash(a) % cap == Hash(b) % cap
  }

  /** Keys not confused in a table are not confused in one of twice the size. */
  lemma ConfusedDoubled(a: Key, b: Key, cap: nat)
    requires cap > 0 && Confused(a, b, 2 * cap)
    ensures Confused(a, b, cap)
  {
    hide Hash, Name;
    ModHalf(Hash(a), cap);
    ModHalf(Hash(b), cap);
  }

  lemma {:induction false} ModHalf(x: nat, c: nat)
    requires c > 0
    ensures x % c == (x % (2 * c)) % c
  {
    if x >= 2 * c {
      ModHalf(x - 2 * c, c);
      ModOne(x - 2 * c, 2 * c);
      ModOne(x - 2 * c, c);
      ModOne(x - c, c);
    } else {
      ModUnique(x, 2 * c, 0, x);
    }
  }

  lemma ModOne(x: nat, c: nat)
    requires c > 0
    ensures (x + c) % c == x % c
  {
    var q, r := x / c, x % c;
    assert (q + 1) * c == q * c + c;
    ModUnique(x + c, c, q + 1, r);
  }

  lemma ModUnique(x: nat, c: nat, q: nat, r: nat)
    requires c > 0 && x == q * c + r && r < c
    ensures x % c == r
  {
    var d := x / c - q;
    assert d * c == (x / c) * c - q * c == r - x % c;
    assert d >= 1 ==> d * c >= c;
    assert d <= -1 ==> d * c + c <= 0;
  }

  /** No two keys have the same name. */
  ghost predicate NamesTell(keys: set<Key>) {
    forall a, b :: a in keys && b in keys && Name(a) == Name(b) ==> a == b
  }

  ghost predicate NoNul(keys: set<Key>) {
    forall k :: k in keys && k.StrKey? ==> NulFree(k.s)
  }

  /**
   What a caller can check: with NUL-free strings, names tell exactly if no string key is
   the text of an integer key.
   */
  lemma NamesTellIff(keys: set<Key>)
    requires NoNul(keys)
    ensures NamesTell(keys) <==> forall i, s :: IntKey(i) in keys && StrKey(s) in keys ==> s != IntText(i)
  {
    forall k | k in keys ensures Name(k) == Text(k) {
      if k.IntKey? {
        IntTextNulFree(k.i);
      }
      NulFreeWhole(Text(k));
    }
    if forall i, s :: IntKey(i) in keys && StrKey(s) in keys ==> s != IntText(i) {
      forall a, b | a in keys && b in keys && Name(a) == Name(b) ensures a == b {
        if a.IntKey? && b.IntKey? {
          IntTextInjective(a.i, b.i);
        }
      }
    }
    if NamesTell(keys) {
      forall i, s | IntKey(i) in keys && StrKey(s) in keys ensures s != IntText(i) {
        assert Name(IntKey(i)) == IntText(i) && Name(StrKey(s)) == s;
      }
    }
  }

  lemma XorFirst()
    ensures Xor(2166136261, 49) == 2166136308
  {
    hide Xor;
    XorZero(33845879);
    XorUp(67691758, 1, 33845879);
    XorUp(135383516, 3, 67691759);
    XorUp(270767032, 6, 135383519);
    XorUp(541534065, 12, 270767038);
    XorUp(1083068130, 24, 541534077);
    XorUp(2166136261, 49, 1083068154);
  }

  lemma XorSecond()
    ensures Xor(873244444, 51) == 873244463
  {
    hide Xor;
    XorZero(13644444);
    XorUp(27288888, 1, 13644444);
    XorUp(54577777, 3, 27288889);
    XorUp(109155555, 6, 54577778);
    XorUp(218311111, 12, 109155557);
    XorUp(436622222, 25, 218311115);
    XorUp(873244444, 51, 436622231);
  }

  lemma FnvOfOne()
    ensures Fnv([49], 2166136261) == 873244444
  {
    hide Xor;
    XorFirst();
  }

  lemma FnvOfThirteen()
    ensures Fnv([49, 51], 2166136261) == 518729469
  {
    hide Xor;
    XorFirst();
    XorSecond();
    assert [49, 51][1..] == [51];
    assert Fnv([51], 873244444) == 518729469;
  }

  lemma HashesOfOne()
    ensures Hash(IntKey(1)) == 1
    ensures Hash(StrKey([49])) == 873244444
  {
    hide Fnv;
    FnvOfOne();
    XorZero(1);
  }

  lemma HashesOfThirteen()
    ensures Hash(IntKey(13)) == 13 && Hash(StrKey([49, 51])) == 518729469
    ensures Name(IntKey(13)) == [49, 51] == Name(StrKey([49, 51]))
  {
    hide Fnv;
    FnvOfThirteen();
    XorZero(13);
    assert Text(IntKey(13)) == Digits(1) + [51] && Digits(1) == [49];
    assert NulFree([49, 51]);
    NulFreeWhole([49, 51]);
  }

  /** 13 and "13" are one key to a table of the initial capacity, and two after one resize. */
  lemma ThirteenConfused()
    ensures Confused(IntKey(13), StrKey([49, 51]), 16) && !Confused(IntKey(13), StrKey([49, 51]), 32)
  {
    hide Hash, Name;
    HashesOfThirteen();
  }

  /** 1 and "1" are equal to value_eq but two keys to every table, whose capacities are even. */
  lemma OneNeverConfused(half: nat)
    requires half > 0
    ensures KeyEq(IntKey(1), StrKey([49])) && !Confused(IntKey(1), StrKey([49]), 2 * half)
  {
    hide Hash, Name;
    HashesOfOne();
    assert Text(IntKey(1)) == [49];
    ModHalves(1, half);
    ModHalves(873244444, half);
  }

  lemma {:induction false} ModHalves(x: nat, half: nat)
    requires half > 0
    ensures (x % (2 * half)) % 2 == x % 2
  {
    if x >= 2 * half {
      ModHalves(x - 2 * half, half);
      ModOne(x - 2 * half, 2 * half);
    } else {
      ModUnique(x, 2 * half, 0, x);
    }
  }

  /** strcmp(a, b) < 0 on C strings, and Go's `<` on strings. */
  predicate Less(a: seq<Byte>, b: seq<Byte>) {
    b != [] && (a == [] || a[0] < b[0] || (a[0] == b[0] && Less(a[1..], b[1..])))
  }

  lemma {:induction false} LessTotal(a: seq<Byte>, b: seq<Byte>)
    ensures Less(a, b) || a == b || Less(b, a)
  {
    if a != [] && b != [] && a[0] == b[0] {
      LessTotal(a[1..], b[1..]);
      if a[1..] == b[1..] {
        assert a == [a[0]] + a[1..] && b == [b[0]] + b[1..];
      }
    }
  }

  /** One text is before another if it is a proper prefix of it, or smaller where they first differ. */
  lemma {:induction false} LessIff(a: seq<Byte>, b: seq<Byte>)
    ensures Less(a, b) <==>
            exists k: nat :: k <= |a| && k < |b| && a[..k] == b[..k] && (k == |a| || a[k] < b[k])
  {
    if a == [] && b != [] {
      assert a[..0] == b[..0];
    } else if a != [] && b != [] && a[0] < b[0] {
      assert a[..0] == b[..0];
    } else if a != [] && b != [] && a[0] == b[0] {
      LessIff(a[1..], b[1..]);
      if Less(a[1..], b[1..]) {
        var k: nat :| k <= |a[1..]| && k < |b[1..]| && a[1..][..k] == b[1..][..k]
                      && (k == |a[1..]| || a[1..][k] < b[1..][k]);
        assert a[..k + 1] == [a[0]] + a[1..][..k] && b[..k + 1] == [b[0]] + b[1..][..k];
      }
      if k: nat :| k <= |a| && k < |b| && a[..k] == b[..k] && (k == |a| || a[k] < b[k]) {
        assert k > 0;
        assert a[1..][..k - 1] == a[..k][1..] && b[1..][..k - 1] == b[..k][1..];
      }
    } else if a != [] && b != [] {
      if k: nat :| k <= |a| && k < |b| && a[..k] == b[..k] && (k == |a| || a[k] < b[k]) {
        assert k > 0 ==> a[..k][0] == b[..k][0];
      }
    }
  }

  /** The order of Go's mapKeysSorted. */
  ghost predicate SortedTexts(ks: seq<Key>) {
    forall i, j :: 0 <= i < j < |ks| ==> !Less(Text(ks[j]), Text(ks[i]))
  }

  /** The order of compare_map_pairs, a strcmp, which stops at a NUL. */
  ghost predicate SortedNames(ks: seq<Key>) {
    forall i, j :: 0 <= i < j < |ks| ==> !Less(Name(ks[j]), Name(ks[i]))
  }

  /** Texts that differ as C strings are ordered alike by both. */
  lemma {:induction false} LessUptoNul(a: seq<Byte>, b: seq<Byte>)
    requires UptoNul(a) != UptoNul(b)
    ensures Less(UptoNul(a), UptoNul(b)) <==> Less(a, b)
  {
    if a != [] && b != [] && a[0] == b[0] != 0 {
      assert UptoNul(a) == [a[0]] + UptoNul(a[1..]) && UptoNul(b) == [b[0]] + UptoNul(b[1..]);
      LessUptoNul(a[1..], b[1..]);
    }
  }

  ghost predicate Distinct(ks: seq<Key>) {
    forall i, j :: 0 <= i < j < |ks| ==> ks[i] != ks[j]
  }

  /** `ks` lists exactly the keys `s`, each once. */
  ghost predicate Lists(ks: seq<Key>, s: set<Key>) {
    Distinct(ks) && forall k :: k in ks <==> k in s
  }

  /** `ks` lists the keys in an order C's qsort may leave them in. */
  ghost predicate ByName(ks: seq<Key>, s: set<Key>) {
    Lists(ks, s) && SortedNames(ks)
  }

  /** `ks` lists the keys in textual order, which is what keys(m) returns in Go. */
  ghost predicate Canonical(ks: seq<Key>, s: set<Key>) {
    Lists(ks, s) && SortedTexts(ks)
  }

  /** No two keys have the same text. */
  ghost predicate TextsTell(keys: set<Key>) {
    forall a, b :: a in keys && b in keys && Text(a) == Text(b) ==> a == b
  }

  lemma NamesTellTexts(keys: set<Key>)
    requires NamesTell(keys)
    ensures TextsTell(keys)
  {
    hide UptoNul, Text;
  }

  /** If names tell the keys apart, the two orders are one. */
  lemma ByNameCanonical(ks: seq<Key>, s: set<Key>)
    requires Lists(ks, s) && NamesTell(s)
    ensures SortedNames(ks) <==> SortedTexts(ks)
  {
    hide Less, UptoNul, Text;
    forall i, j | 0 <= i < j < |ks| ensures Less(Name(ks[j]), Name(ks[i])) <==> Less(Text(ks[j]), Text(ks[i])) {
      assert ks[i] in ks && ks[j] in ks;
      LessUptoNul(Text(ks[j]), Text(ks[i]));
    }
  }

  /** keys(m) depends on the set of keys alone. */
  lemma {:induction false} CanonicalUnique(a: seq<Key>, b: seq<Key>, s: set<Key>)
    requires TextsTell(s)
    requires Canonical(a, s) && Canonical(b, s)
    ensures a == b
    decreases |a|
  {
    if b != [] {
      assert b[0] in b;
      assert b[0] in a;
    }
    if a != [] {
      var k := a[0];
      assert k in a && k in b;
      var i :| 0 <= i < |b| && b[i] == k;
      assert b[0] in b && b[0] in a;
      var j :| 0 <= j < |a| && a[j] == b[0];
      if i != 0 {
        assert !Less(Text(b[i]), Text(b[0]));
        assert !Less(Text(a[j]), Text(a[0]));
        LessTotal(Text(b[0]), Text(k));
        assert false;
      }
      CanonicalTail(a, s);
      CanonicalTail(b, s);
      CanonicalUnique(a[1..], b[1..], s - {k});
      assert a == [k] + a[1..] && b == [k] + b[1..];
    }
  }

  lemma CanonicalTail(a: seq<Key>, s: set<Key>)
    requires a != [] && Canonical(a, s)
    ensures Canonical(a[1..], s - {a[0]})
  {
    assert a == [a[0]] + a[1..];
    forall k ensures k in a[1..] <==> k in s - {a[0]} {
      if k in a[1..] {
        var i :| 0 <= i < |a[1..]| && a[1..][i] == k;
        assert a[i + 1] == k;
      }
      if k in s && k != a[0] {
        var i :| 0 <= i < |a| && a[i] == k;
        assert a[1..][i - 1] == k;
      }
    }
  }

  lemma ListsConcat(a: seq<Key>, s: set<Key>, b: seq<Key>, t: set<Key>)
    requires Lists(a, s) && Lists(b, t) && s !! t
    ensures Lists(a + b, s + t)
  {
    var ks := a + b;
    forall k ensures k in ks <==> k in s + t {
      assert k in ks <==> k in a || k in b;
    }
    forall i, j | 0 <= i < j < |ks| ensures ks[i] != ks[j] {
      if i < |a| <= j {
        assert ks[i] in a && ks[j] in b;
      }
    }
  }

  /** What sort.Slice promises under Go's order. */
  ghost predicate SortsTexts(sort: seq<Key> -> seq<Key>) {
    forall s :: SortedTexts(sort(s)) && multiset(sort(s)) == multiset(s)
  }

  /** What qsort promises under compare_map_pairs. */
  ghost predicate SortsNames(sort: seq<Key> -> seq<Key>) {
    forall s :: SortedNames(sort(s)) && multiset(sort(s)) == multiset(s)
  }

  lemma {:induction false} DistinctCounts(s: seq<Key>)
    ensures Distinct(s) <==> forall k :: multiset(s)[k] <= 1
  {
    if s != [] {
      var t := DropLast(s);
      DistinctCounts(t);
      assert s == t + [Last(s)];
      assert forall k :: multiset(s)[k] == multiset(t)[k] + multiset([Last(s)])[k];
      if Last(s) in t {
        assert multiset(t)[Last(s)] >= 1;
        assert multiset(s)[Last(s)] >= 2;
        var i :| 0 <= i < |t| && t[i] == Last(s);
        assert s[i] == s[|s| - 1];
      } else if Distinct(s) {
        assert Distinct(t);
      }
    }
  }

  lemma PermutedLists(s: seq<Key>, t: seq<Key>, keys: set<Key>)
    requires Lists(s, keys) && multiset(t) == multiset(s)
    ensures Lists(t, keys)
  {
    DistinctCounts(s);
    DistinctCounts(t);
    forall k ensures k in t <==> k in keys {
      assert k in t <==> k in multiset(t);
      assert k in s <==> k in multiset(s);
    }
  }

  /** qsort of any listing of a key set: in name order, and canonical if names tell the keys apart. */
  lemma QsortCanonical(s: seq<Key>, keys: set<Key>, qsort: seq<Key> -> seq<Key>)
    requires Lists(s, keys) && SortsNames(qsort)
    ensures ByName(qsort(s), keys) && (NamesTell(keys) ==> Canonical(qsort(s), keys))
  {
    PermutedLists(s, qsort(s), keys);
    if NamesTell(keys) {
      ByNameCanonical(qsort(s), keys);
    }
  }

  /**
   keys(m) in the two engines: whatever order the C buckets or the Go map present the keys
   in, and whatever each library's sort does with ties, the results are equal if no two
   keys have the same name.
   */
  lemma KeysAgree(listed: seq<Key>, ranged: seq<Key>, keys: set<Key>,
      qsort: seq<Key> -> seq<Key>, goSort: seq<Key> -> seq<Key>)
    requires NamesTell(keys)
    requires Lists(listed, keys) && Lists(ranged, keys) && SortsNames(qsort) && SortsTexts(goSort)
    ensures qsort(listed) == goSort(ranged)
  {
    QsortCanonical(listed, keys, qsort);
    PermutedLists(ranged, goSort(ranged), keys);
    NamesTellTexts(keys);
    CanonicalUnique(qsort(listed), goSort(ranged), keys);
  }

  lemma OneByName(l: seq<Key>, ks: seq<Key>, keys: set<Key>)
    requires NamesTell(keys) && ByName(l, keys) && ByName(ks, keys)
    ensures l == ks
  {
    hide Less, Name, Text, Lists, SortedNames, SortedTexts, NamesTell, TextsTell;
    ByNameCanonical(l, keys);
    ByNameCanonical(ks, keys);
    NamesTellTexts(keys);
    CanonicalUnique(l, ks, keys);
  }

  /** There is one listing in name order exactly if no two keys have the same name. */
  lemma ByNameUniqueIff(ks: seq<Key>, keys: set<Key>)
    requires ByName(ks, keys)
    ensures NamesTell(keys) <==> forall l :: ByName(l, keys) ==> l == ks
  {
    hide Less, Name, SortedNames;
    if NamesTell(keys) {
      forall l | ByName(l, keys) ensures l == ks {
        OneByName(l, ks, keys);
      }
    } else {
      var a, b :| a in keys && b in keys && Name(a) == Name(b) && a != b;
      assert a in ks && b in ks;
      var i :| 0 <= i < |ks| && ks[i] == a;
      var j :| 0 <= j < |ks| && ks[j] == b;
      SwappedByName(ks, keys, i, j);
    }
  }

  /** Two keys of one name may as well be listed the other way round. */
  lemma SwappedByName(ks: seq<Key>, keys: set<Key>, i: nat, j: nat)
    requires ByName(ks, keys) && i < |ks| && j < |ks| && i != j && Name(ks[i]) == Name(ks[j])
    ensures ByName(ks[i := ks[j]][j := ks[i]], keys) && ks[i := ks[j]][j := ks[i]] != ks
  {
    hide Less, Name;
    var l := ks[i := ks[j]][j := ks[i]];
    assert forall m :: 0 <= m < |ks| ==> Name(l[m]) == Name(ks[m]);
    assert forall m :: 0 <= m < |ks| ==> l[m] == ks[if m == i then j else if m == j then i else m];
    assert forall m :: 0 <= m < |ks| ==> ks[m] == l[if m == i then j else if m == j then i else m];
    forall k ensures k in l <==> k in keys {
      if k in l {
        var m :| 0 <= m < |l| && l[m] == k;
        assert ks[if m == i then j else if m == j then i else m] == k;
      }
      if k in ks {
        var m :| 0 <= m < |ks| && ks[m] == k;
        assert l[if m == i then j else if m == j then i else m] == k;
      }
    }
    assert ks[i] != ks[j];
  }

  /** Go lists "a\0a" before "a\0b"; to C they are in order either way. */
  lemma NulKeysEitherWay()
    ensures var a, b := StrKey([97, 0, 97]), StrKey([97, 0, 98]);
            Canonical([a, b], {a, b}) && !Canonical([b, a], {a, b}) && ByName([a, b], {a, b}) && ByName([b, a], {a, b})
  {
    var a, b := StrKey([97, 0, 97]), StrKey([97, 0, 98]);
    assert UptoNul([97, 0, 97]) == [97] + UptoNul([97, 0, 97][1..]);
    assert UptoNul([97, 0, 98]) == [97] + UptoNul([97, 0, 98][1..]);
    assert Name(a) == Name(b) == [97];
    assert !Less([97], [97]);
    assert Less([97], [98]) && !Less([98], [97]);
    assert [97, 0, 97][1..] == [0, 97] && [97, 0, 98][1..] == [0, 98];
    assert [0, 97][1..] == [97] && [0, 98][1..] == [98];
    assert Less([0, 97], [0, 98]) && !Less([0, 98], [0, 97]);
    assert Less(Text(a), Text(b)) && !Less(Text(b), Text(a));
    assert [b, a][0] == b && [b, a][1] == a;
  }
}
