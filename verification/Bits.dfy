/** Exclusive or on naturals, and two's complement. */
module Bits {

  function Xor(a: nat, b: nat): nat {
    if a == 0 && b == 0 then 0 else (a % 2 + b % 2) % 2 + 2 * Xor(a / 2, b / 2)
  }

  lemma {:induction false} XorZero(a: nat)
    ensures Xor(a, 0) == a
  {
    if a > 0 {
      XorZero(a / 2);
    }
  }

  lemma XorStep(a: nat, b: nat)
    ensures Xor(a, b) / 2 == Xor(a / 2, b / 2) && Xor(a, b) % 2 == (a % 2 + b % 2) % 2
  {
  }

  lemma XorUp(a: nat, b: nat, x: nat)
    requires Xor(a / 2, b / 2) == x
    ensures Xor(a, b) == (a % 2 + b % 2) % 2 + 2 * x
  {
  }

  lemma {:induction false} XorTwice(a: nat, b: nat)
    ensures Xor(Xor(a, b), b) == a
    decreases a + b
  {
    hide Xor;
    if a == 0 && b == 0 {
      XorZero(0);
    } else {
      XorTwice(a / 2, b / 2);
      XorStep(a, b);
      XorStep(Xor(a, b), b);
      Parity(a % 2, b % 2);
      SameHalves(Xor(Xor(a, b), b), a);
    }
  }

  lemma Parity(a: nat, b: nat)
    requires a < 2 && b < 2
    ensures ((a + b) % 2 + b) % 2 == a
  {
  }

  lemma SameHalves(x: nat, y: nat)
    requires x / 2 == y / 2 && x % 2 == y % 2
    ensures x == y
  {
  }

  function Pow2(n: nat): nat {
    if n == 0 then 1 else 2 * Pow2(n - 1)
  }

  lemma {:induction false} XorBelow(a: nat, b: nat, n: nat)
    requires a < Pow2(n) && b < Pow2(n)
    ensures Xor(a, b) < Pow2(n)
  {
    if n > 0 {
      XorBelow(a / 2, b / 2, n - 1);
    }
  }

  const INT64_MIN: int := -0x8000_0000_0000_0000
  const INT64_MAX: int := 0x7FFF_FFFF_FFFF_FFFF
  const TWO_64: int := 0x1_0000_0000_0000_0000

  predicate IsInt64(i: int) {
    INT64_MIN <= i <= INT64_MAX
  }

  function Signed(u: nat): (i: int)
    requires u < TWO_64
    ensures IsInt64(i)
  {
    if u <= INT64_MAX then u else u - TWO_64
  }

  function Unsigned(i: int): (u: nat)
    requires IsInt64(i)
    ensures u < TWO_64 && Signed(u) == i
  {
    if i >= 0 then i else i + TWO_64
  }
}
