/**
 Checked int64 arithmetic, formulated three ways: Go wraps and then tests the wrapped
 result, the portable C branch compares with a bound before computing, and gcc and clang
 provide the exact test. All three reject the same operands.
 */
module Arith {
  import opened Bits
  import opened Common

  /** Two's complement wrap-around. */
  function Wrap(x: int): (w: int)
    ensures IsInt64(w)
    ensures (w - x) % TWO_64 == 0
    ensures IsInt64(x) ==> w == x
  {
    var m := x % TWO_64;
    if m <= INT64_MAX then m else m - TWO_64
  }

  /** Division as Go and C round it, towards zero. */
  function TruncDiv(x: int, y: int): int
    requires y != 0
  {
    if x >= 0 then (if y > 0 then x / y else -(x / -y)) else if y > 0 then -(-x / y) else -x / -y
  }

  function TruncMod(x: int, y: int): int
    requires y != 0
  {
    x - TruncDiv(x, y) * y
  }

  /** The exact test of the compilers' builtins. */
  function Checked(exact: int): Option<int> {
    if IsInt64(exact) then Some(exact) else None
  }

  // ---- Go: wrap, then test ----

  function GoAdd(x: int, y: int): Option<int> {
    var s := Wrap(x + y);
    if (y > 0 && s < x) || (y < 0 && s > x) then None else Some(s)
  }

  function GoSub(x: int, y: int): Option<int> {
    var s := Wrap(x - y);
    if (y < 0 && s < x) || (y > 0 && s > x) then None else Some(s)
  }

  function GoMul(x: int, y: int): Option<int> {
    if x == 0 || y == 0 then Some(0)
    else
      var s := Wrap(x * y);
      if (x == -1 && y == INT64_MIN) || (y == -1 && x == INT64_MIN) || Wrap(TruncDiv(s, y)) != x then None else Some(s)
  }

  // ---- C: compare with a bound that cannot itself overflow, then compute ----

  function CAdd(a: int, b: int): Option<int>
    requires IsInt64(a) && IsInt64(b)
  {
    assert b > 0 ==> IsInt64(INT64_MAX - b);
    assert b < 0 ==> IsInt64(INT64_MIN - b);
    if (b > 0 && a > INT64_MAX - b) || (b < 0 && a < INT64_MIN - b) then None else Some(a + b)
  }

  function CSub(a: int, b: int): Option<int>
    requires IsInt64(a) && IsInt64(b)
  {
    assert b < 0 ==> IsInt64(INT64_MAX + b);
    assert b > 0 ==> IsInt64(INT64_MIN + b);
    if (b < 0 && a > INT64_MAX + b) || (b > 0 && a < INT64_MIN + b) then None else Some(a - b)
  }

  function CMul(a: int, b: int): Option<int> {
    if a > 0 then
      if b > 0 then (if a > TruncDiv(INT64_MAX, b) then None else Some(a * b))
      else if b < TruncDiv(INT64_MIN, a) then None else Some(a * b)
    else
      if b > 0 then (if a < TruncDiv(INT64_MIN, b) then None else Some(a * b))
      else if a != 0 && b < TruncDiv(INT64_MAX, a) then None else Some(a * b)
  }

  datatype Quotient = Value(v: int) | DivByZero | Overflow

  /** `/` and `%` of both engines: the two inputs with no quotient are caught first. */
  function Div(x: int, y: int): Quotient {
    if y == 0 then DivByZero else if x == INT64_MIN && y == -1 then Overflow else Value(TruncDiv(x, y))
  }

  function Mod(x: int, y: int): Quotient {
    if y == 0 then DivByZero else if x == INT64_MIN && y == -1 then Value(0) else Value(TruncMod(x, y))
  }

  // ---- The three agree ----

  lemma WrapOut(x: int)
    requires INT64_MIN - TWO_64 / 2 <= x <= INT64_MAX + TWO_64 / 2 && !IsInt64(x)
    ensures Wrap(x) == if x > INT64_MAX then x - TWO_64 else x + TWO_64
  {
  }

  lemma AddAgree(x: int, y: int)
    requires IsInt64(x) && IsInt64(y)
    ensures GoAdd(x, y) == CAdd(x, y) == Checked(x + y)
  {
    if !IsInt64(x + y) {
      WrapOut(x + y);
    }
  }

  lemma SubAgree(x: int, y: int)
    requires IsInt64(x) && IsInt64(y)
    ensures GoSub(x, y) == CSub(x, y) == Checked(x - y)
  {
    if !IsInt64(x - y) {
      WrapOut(x - y);
    }
  }

  /** Comparing with a floor quotient is comparing the product. */
  lemma FloorCompare(p: int, q: int, m: int)
    requires q > 0
    ensures p > m / q <==> p * q > m
  {
    var f := m / q;
    assert m == f * q + m % q && 0 <= m % q < q;
    if p > f {
      assert p * q >= (f + 1) * q == f * q + q;
    } else {
      assert p * q <= f * q;
    }
  }

  lemma CMulChecked(a: int, b: int)
    requires IsInt64(a) && IsInt64(b)
    ensures CMul(a, b) == Checked(a * b)
  {
    if a > 0 && b > 0 {
      FloorCompare(a, b, INT64_MAX);
    } else if a > 0 {
      FloorCompare(-b, a, -INT64_MIN);
      assert -b * a == -(a * b);
      NonNegative(a, -b);
    } else if b > 0 {
      FloorCompare(-a, b, -INT64_MIN);
      assert -a * b == -(a * b);
      NonNegative(-a, b);
    } else if a != 0 {
      FloorCompare(-b, -a, INT64_MAX);
      assert -b * -a == a * b;
      NonNegative(-a, -b);
    }
  }

  lemma NonNegative(p: int, q: int)
    requires p >= 0 && q >= 0
    ensures p * q >= 0
  {
  }

  function Abs(x: int): int {
    if x < 0 then -x else x
  }

  /** Truncated division: the remainder is smaller than the divisor and has the dividend's sign. */
  lemma TruncRemainder(x: int, y: int)
    requires y != 0
    ensures var r := TruncMod(x, y);
            -Abs(y) < r < Abs(y) && (r != 0 ==> (r > 0 <==> x > 0))
  {
    var p, d := Abs(x), Abs(y);
    var k := p / d;
    Euclid(p, d);
    assert TruncDiv(x, y) == if (x >= 0) == (y > 0) then k else -k;
    if y > 0 {
      assert TruncDiv(x, y) * y == if x >= 0 then k * d else -(k * d);
    } else {
      assert TruncDiv(x, y) * y == if x >= 0 then -k * -d else k * -d;
      assert -k * -d == k * d && k * -d == -(k * d);
    }
  }

  lemma Euclid(p: int, d: int)
    requires p >= 0 && d > 0
    ensures p == (p / d) * d + p % d && 0 <= p % d < d && 0 <= p / d
  {
  }

  lemma QuotientSmall(p: int, d: int)
    requires p >= 0 && d > 0
    ensures p / d <= p && (d >= 2 ==> 2 * (p / d) <= p)
  {
    Euclid(p, d);
    SmallFactor(p, d, p / d, p % d);
  }

  lemma SmallFactor(p: int, d: int, k: int, m: int)
    requires p == k * d + m && m >= 0 && k >= 0 && d > 0
    ensures k <= p && (d >= 2 ==> 2 * k <= p)
  {
    MulMono(k, d, 1);
    if d >= 2 {
      MulMono(k, d, 2);
    }
  }

  lemma MulMono(k: int, a: int, b: int)
    requires k >= 0 && a >= b
    ensures k * a >= k * b
  {
  }

  /** Dividing a product by a factor is exact. */
  lemma TruncExact(x: int, y: int)
    requires y != 0
    ensures TruncDiv(x * y, y) == x
  {
    var q := TruncDiv(x * y, y);
    TruncRemainder(x * y, y);
    assert (x - q) * y == TruncMod(x * y, y);
    if x != q {
      Times(x - q, y);
    }
  }

  lemma Times(k: int, y: int)
    requires k != 0
    ensures Abs(k * y) >= Abs(y)
  {
    MulMono(Abs(y), Abs(k), 1);
    AbsProduct(k, y);
  }

  lemma AbsProduct(k: int, y: int)
    ensures Abs(k * y) == Abs(y) * Abs(k)
  {
    if k >= 0 {
      if y < 0 {
        assert k * y == -(k * -y);
        NonNegative(k, -y);
      } else {
        NonNegative(k, y);
      }
    } else if y < 0 {
      assert k * y == -k * -y;
      NonNegative(-k, -y);
    } else {
      assert k * y == -(-k * y);
      NonNegative(-k, y);
    }
  }

  /** A quotient of int64s is an int64 but for the smallest by -1. */
  lemma TruncIsInt64(s: int, y: int)
    requires IsInt64(s) && y != 0 && !(s == INT64_MIN && y == -1)
    ensures IsInt64(TruncDiv(s, y))
  {
    QuotientSmall(Abs(s), Abs(y));
    Euclid(Abs(s), Abs(y));
    assert TruncDiv(s, y) == Abs(s) / Abs(y) || TruncDiv(s, y) == -(Abs(s) / Abs(y));
  }

  lemma GoMulChecked(x: int, y: int)
    requires IsInt64(x) && IsInt64(y)
    ensures GoMul(x, y) == Checked(x * y)
  {
    if x != 0 && y != 0 {
      var s := Wrap(x * y);
      if IsInt64(x * y) {
        TruncExact(x, y);
        assert !(x == -1 && y == INT64_MIN) && !(y == -1 && x == INT64_MIN);
      } else if !(y == -1 && s == INT64_MIN) {
        TruncIsInt64(s, y);
        if TruncDiv(s, y) == x {
          // the wrapped product would be within |y| of the product, but differs by a multiple of 2^64
          TruncRemainder(s, y);
          FarApart(s, x * y);
          assert false;
        }
      } else {
        assert x * y == -x;
      }
    }
  }

  lemma FarApart(w: int, e: int)
    requires (w - e) % TWO_64 == 0 && w != e
    ensures Abs(w - e) >= TWO_64
  {
  }

  lemma MulAgree(x: int, y: int)
    requires IsInt64(x) && IsInt64(y)
    ensures GoMul(x, y) == CMul(x, y) == Checked(x * y)
  {
    GoMulChecked(x, y);
    CMulChecked(x, y);
  }

  /** Every int64 quotient exists but two kinds, and quotient and remainder recompose the dividend. */
  lemma DivMod(x: int, y: int)
    requires IsInt64(x) && IsInt64(y)
    ensures Div(x, y).Value? <==> y != 0 && IsInt64(TruncDiv(x, y))
    ensures Mod(x, y).Value? <==> y != 0
    ensures Div(x, y).DivByZero? <==> y == 0
    ensures Div(x, y).Overflow? <==> x == INT64_MIN && y == -1
    ensures Mod(x, y) != Overflow
    ensures Div(x, y).Value? ==> IsInt64(Div(x, y).v) && Div(x, y).v * y + Mod(x, y).v == x
    ensures y != 0 ==>
              var r := Mod(x, y).v;
              IsInt64(r) && -Abs(y) < r < Abs(y) && (r != 0 ==> (r > 0 <==> x > 0)) && TruncDiv(x, y) * y + r == x
  {
    if y != 0 {
      TruncRemainder(x, y);
      if !(x == INT64_MIN && y == -1) {
        TruncIsInt64(x, y);
      }
    }
  }
}
