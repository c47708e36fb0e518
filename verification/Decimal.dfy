/** The decimal text of integers, as `%lld` prints it and strtoll reads it back. */
module Decimal {
  import opened Common

  const MINUS: Byte := 45
  const ZERO: Byte := 48

  predicate IsDigit(b: Byte) {
    ZERO <= b <= 57
  }

  function Digits(n: nat): (s: seq<Byte>)
    ensures |s| >= 1 && forall i :: 0 <= i < |s| ==> IsDigit(s[i])
  {
    var d: Byte := ZERO + n % 10;
    if n < 10 then [d] else Digits(n / 10) + [d]
  }

  function IntText(i: int): (s: seq<Byte>)
    ensures |s| >= 1
  {
    if i < 0 then [MINUS] + Digits(-i) else Digits(i)
  }

  /** The number a digit sequence stands for. */
  function Number(s: seq<Byte>): nat
    requires forall i :: 0 <= i < |s| ==> IsDigit(s[i])
  {
    if s == [] then 0 else (assert IsDigit(Last(s)); Number(DropLast(s)) * 10 + (Last(s) as int - ZERO as int))
  }

  lemma {:induction false} DigitsNumber(n: nat)
    ensures Number(Digits(n)) == n
  {
    if n >= 10 {
      DigitsNumber(n / 10);
      assert DropLast(Digits(n)) == Digits(n / 10);
    }
  }

  /** What strtoll makes of a text that is a number and nothing else. */
  function IntValue(s: seq<Byte>): int
    requires s != []
    requires s[0] == MINUS ==> forall i :: 1 <= i < |s| ==> IsDigit(s[i])
    requires s[0] != MINUS ==> forall i :: 0 <= i < |s| ==> IsDigit(s[i])
  {
    if s[0] == MINUS then 0 - Number(s[1..]) as int else Number(s)
  }

  lemma IntTextValue(i: int)
    ensures var s := IntText(i);
            && (if i < 0 then s[0] == MINUS else IsDigit(s[0]))
            && (forall j :: 1 <= j < |s| ==> IsDigit(s[j]))
            && IntValue(s) == i
  {
    if i < 0 {
      DigitsNumber(-i);
      assert IntText(i)[1..] == Digits(-i);
    } else {
      DigitsNumber(i);
    }
  }

  /** Different integers have different texts. */
  lemma IntTextInjective(i: int, j: int)
    requires IntText(i) == IntText(j)
    ensures i == j
  {
    IntTextValue(i);
    IntTextValue(j);
  }
}
