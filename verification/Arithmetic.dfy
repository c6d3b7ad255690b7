/** 64-bit division built from a 64-by-32-bit divide instruction. */
module Arithmetic {

  const W32 := 0x1_0000_0000
  const W64 := 0x1_0000_0000_0000_0000
  const INT64_MIN := -0x8000_0000_0000_0000

  type U32 = x: int | 0 <= x < W32
  type U64 = x: int | 0 <= x < W64
  type I64 = x: int | INT64_MIN <= x < -INT64_MIN
  type I32 = x: int | -0x8000_0000 <= x < 0x8000_0000

  /** Conversions of the C program, in two's complement. */
  function ToU64(x: int): U64 { x % W64 }

  function ToI64(x: int): I64 {
    var u := x % W64;
    if u < W64 / 2 then u else u - W64
  }

  function ToU32(x: int): U32 { x % W32 }

  function ToI32(x: int): I32 {
    var u := x % W32;
    if u < W32 / 2 then u else u - W32
  }

  function Pow2(n: nat): (r: nat)
    ensures r > 0
  {
    if n == 0 then 1 else 2 * Pow2(n - 1)
  }

  lemma {:induction false} PowAdd(a: nat, b: nat)
    ensures Pow2(a + b) == Pow2(a) * Pow2(b)
  {
    if a > 0 {
      PowAdd(a - 1, b);
      assert 2 * (Pow2(a - 1) * Pow2(b)) == (2 * Pow2(a - 1)) * Pow2(b);
    }
  }

  lemma Powers()
    ensures Pow2(0) == 1 && Pow2(1) == 2 && Pow2(2) == 4 && Pow2(4) == 16 && Pow2(8) == 256 && Pow2(16) == 65536
    ensures Pow2(31) == 0x8000_0000 && Pow2(32) == W32
  {
    PowAdd(1, 1);
    PowAdd(2, 2);
    PowAdd(4, 4);
    PowAdd(8, 8);
    PowAdd(16, 16);
  }

  /** The DIVL instruction.  It traps when the quotient does not fit, so its callers must
      show that it does. */
  method Divl(n: U64, d: U32) returns (q: U32)
    requires d != 0 && Quotient(n, d) < W32
    ensures q == Quotient(n, d)
  {
    q := n / d;
  }

  function Quotient(n: nat, d: nat): nat
    requires d > 0
  {
    n / d
  }

  function Remainder(n: nat, d: nat): nat
    requires d > 0
  {
    n % d
  }

  // ---------- leading zeros ----------

  /** x shifted by n more bits. */
  lemma Shifted(x0: nat, n: nat, x: nat, k: nat)
    requires x == x0 * Pow2(n)
    ensures x * Pow2(k) == x0 * Pow2(n + k)
  {
    PowAdd(n, k);
    assert (x0 * Pow2(n)) * Pow2(k) == x0 * (Pow2(n) * Pow2(k));
  }

  /** n is the shift that brings the highest set bit of x to the top. */
  method Nlz(x0: U32) returns (n: nat)
    requires x0 != 0
    ensures n <= 31 && 0x8000_0000 <= x0 * Pow2(n) < W32
  {
    hide Pow2;
    Powers();
    var x: U32 := x0;
    n := 0;
    if x <= 0x0000_FFFF {
      Shifted(x0, n, x, 16);
      n := n + 16;
      x := x * 65536;
    }
    assert n <= 16 && x == x0 * Pow2(n) && 0x0000_FFFF < x;
    if x <= 0x00FF_FFFF {
      Shifted(x0, n, x, 8);
      n := n + 8;
      x := x * 256;
    }
    assert n <= 24 && x == x0 * Pow2(n) && 0x00FF_FFFF < x;
    if x <= 0x0FFF_FFFF {
      Shifted(x0, n, x, 4);
      n := n + 4;
      x := x * 16;
    }
    assert n <= 28 && x == x0 * Pow2(n) && 0x0FFF_FFFF < x;
    if x <= 0x3FFF_FFFF {
      Shifted(x0, n, x, 2);
      n := n + 2;
      x := x * 4;
    }
    assert n <= 30 && x == x0 * Pow2(n) && 0x3FFF_FFFF < x;
    if x <= 0x7FFF_FFFF {
      Shifted(x0, n, x, 1);
      n := n + 1;
    }
  }

  // ---------- the estimate of the wide branch ----------

  lemma MulLe(a: int, b: int, c: int)
    requires a <= b && c >= 0
    ensures a * c <= b * c
  {
  }

  lemma MulLt(a: int, b: int, c: int)
    requires a < b && c > 0
    ensures a * c < b * c
  {
  }

  lemma Bounds(n: nat, d: nat)
    requires d > 0
    ensures n / d >= 0 && n / d * d <= n < n / d * d + d
  {
  }

  lemma QuotientBounds(n: nat, d: nat)
    requires d > 0
    ensures Quotient(n, d) * d <= n < Quotient(n, d) * d + d
    ensures Remainder(n, d) == n - Quotient(n, d) * d
  {
  }

  /** The quotient is the number q with q * d <= n < (q + 1) * d. */
  lemma QuotientIs(n: nat, d: nat, q: int)
    requires d > 0
    ensures q == n / d <==> q * d <= n < q * d + d
  {
    Bounds(n, d);
    Only(n, d, q, n / d);
  }

  lemma Only(n: nat, d: nat, q: int, t: int)
    requires d > 0 && t * d <= n < t * d + d
    ensures q == t <==> q * d <= n < q * d + d
  {
    assert (q + 1) * d == q * d + d && (t + 1) * d == t * d + d;
    if q < t {
      MulLe(q + 1, t, d);
    } else if q > t {
      MulLe(t + 1, q, d);
    }
  }

  /** Dividing twice is dividing by the product. */
  lemma DivTwice(n: nat, b: nat, c: nat)
    requires b > 0 && c > 0
    ensures b * c > 0 && n / b / c == n / (b * c)
  {
    var x, q := n / b, n / b / c;
    Bounds(n, b);
    Bounds(x, c);
    Nested(n, b, c, x, q);
    QuotientIs(n, b * c, q);
  }

  lemma Nested(n: nat, b: nat, c: nat, x: nat, q: nat)
    requires b > 0 && c > 0 && x * b <= n < x * b + b && q * c <= x < q * c + c
    ensures b * c > 0 && q * (b * c) <= n < q * (b * c) + b * c
  {
    MulLe(q * c, x, b);
    MulLe(x + 1, q * c + c, b);
    Reorder(q, b, c);
    assert (x + 1) * b == x * b + b;
    assert (q * c + c) * b == q * c * b + c * b;
  }

  lemma Reorder(q: int, b: int, c: int)
    ensures q * c * b == q * (b * c)
  {
  }

  /** The truncated divisor v * k is close enough to d: what it misses, times n, is less than
      the product of both. */
  lemma ErrorIsSmall(n: nat, d: nat, v: nat, k: nat)
    requires n < W64 && 0x8000_0000 <= v && (k == 2 || k >= 4)
    requires v * k <= d < v * k + k
    ensures n * (d - v * k) < d * (v * k)
  {
    var t, e := v * k, d - v * k;
    MulLe(0x8000_0000, v, k);
    var low := 0x8000_0000 * k;
    MulLe(low, t, low);
    MulLe(low, t, t);
    MulLe(t, d, t);
    assert low * low <= d * t;
    assert low * low == 0x4000_0000_0000_0000 * (k * k);
    if k == 2 {
      MulLe(e, 1, n);
    } else {
      MulLe(n, W64, e);
      MulLt(e, k, W64);
      MulLe(4, k, k);
    }
  }

  /** A divisor t at most d and close to it gives the quotient or one more. */
  lemma EstimateBound(n: nat, d: nat, t: nat)
    requires 0 < t <= d && n * (d - t) < d * t
    ensures n / d <= n / t <= n / d + 1
  {
    Bounds(n, d);
    Bounds(n, t);
    NotLess(n, d, t, n / d, n / t);
    NotTwoMore(n, d, t, n / d, n / t);
  }

  lemma NotLess(n: nat, d: nat, t: nat, q: nat, e: nat)
    requires 0 < t <= d && q * d <= n < e * t + t
    ensures q <= e
  {
    MulLe(t, d, q);
    assert (e + 1) * t == e * t + t;
    if e < q {
      MulLe(e + 1, q, t);
    }
  }

  lemma NotTwoMore(n: nat, d: nat, t: nat, q: nat, e: nat)
    requires 0 < t <= d && n * (d - t) < d * t && n < q * d + d && e * t <= n
    ensures e <= q + 1
  {
    MulLt(n, q * d + d, t);
    MulLe(e * t, n, d);
    Spread(n, d, t, q, e);
    Cancel(e, q + 2, d * t);
  }

  lemma Spread(n: int, d: int, t: int, q: int, e: int)
    ensures n * (d - t) == n * d - n * t
    ensures (q * d + d) * t == (q + 2) * (d * t) - d * t
    ensures e * t * d == e * (d * t)
  {
  }

  lemma Cancel(a: int, b: int, c: int)
    requires c > 0 && a * c < b * c
    ensures a < b
  {
  }

  /** What the shift by s does to the divisor. */
  lemma Normalize(d: nat, s: nat, p: nat, k: nat, v: nat)
    requires p > 0 && k > 0 && p * k == W32 && v == d * p / W32
    ensures v * k <= d < v * k + k
  {
  }

  lemma NormalizedTop(d: nat, p: nat, k: nat, d1: nat)
    requires p > 0 && k > 0 && p * k == W32 && d1 == d / W32 && 0x8000_0000 <= d1 * p < W32
    ensures d * p < W64 && 0x8000_0000 <= d * p / W32 < W32
  {
  }

  /** The estimate that the wide branch computes. */
  lemma Estimate(n: nat, d: nat, s: nat, v: nat)
    requires W32 <= d < W64 && n < W64 && s <= 31
    requires 0x8000_0000 <= d / W32 * Pow2(s) < W32 && v == d * Pow2(s) / W32
    ensures 0x8000_0000 <= v < W32 && d * Pow2(s) < W64
    ensures Quotient(n / 2, v) < W32
    ensures Quotient(n, d) <= Quotient(Quotient(n / 2, v), Pow2(31 - s)) <= Quotient(n, d) + 1
  {
    Powers();
    PowAdd(s, 32 - s);
    PowAdd(1, 31 - s);
    if s < 31 {
      PowAdd(2, 30 - s);
    }
    var p, k := Pow2(s), Pow2(32 - s);
    NormalizedTop(d, p, k, d / W32);
    Normalize(d, s, p, k, v);
    NoTrap(n / 2, v);
    Rescaled(n, d, v, k, Pow2(31 - s));
  }

  lemma Rescaled(n: nat, d: nat, v: nat, k: nat, m: nat)
    requires n < W64 && 0x8000_0000 <= v && (k == 2 || k >= 4) && m > 0 && k == 2 * m
    requires v * k <= d < v * k + k
    ensures d > 0 && n / d <= n / 2 / v / m <= n / d + 1
  {
    DivTwice(n, 2, v);
    DivTwice(n, 2 * v, m);
    assert 2 * v * m == v * k;
    ErrorIsSmall(n, d, v, k);
    EstimateBound(n, d, v * k);
  }

  lemma NoTrap(u: nat, v: nat)
    requires u < W64 / 2 && 0x8000_0000 <= v
    ensures u / v < W32
  {
  }

  // ---------- unsigned division ----------

  /** The narrow branch: the high half first, then the rest with its remainder. */
  lemma NarrowSum(n: nat, d: nat, n1: nat, n0: nat)
    requires 0 < d < W32 && n1 == n / W32 && n0 == n % W32
    ensures W32 * (n1 % d) + n0 < W64 && (W32 * (n1 % d) + n0) / d < W32
    ensures (W32 * (n1 % d) + n0) / d + W32 * (n1 / d) == n / d
  {
    var r, t := n1 % d, n1 / d;
    assert n1 == t * d + r;
    var rest := W32 * r + n0;
    var q := rest / d;
    Bounds(rest, d);
    MulLe(r, d - 1, W32);
    if q >= W32 {
      MulLe(W32, q, d);
    }
    assert (q + W32 * t) * d == q * d + W32 * (t * d);
    QuotientIs(n, d, q + W32 * t);
  }

  /** The estimate from the highest 32 bits of the divisor: the quotient or one more. */
  method EstimateQuotient(n: U64, d: U64) returns (q: U32)
    requires W32 <= d
    ensures Quotient(n, d) <= q <= Quotient(n, d) + 1
  {
    var d1: U32 := d / W32;
    var s := Nlz(d1);
    var v := d * Pow2(s) / W32;
    Estimate(n, d, s, v);
    var top := Divl(n / 2, v);
    LargeQuotient(top, Pow2(31 - s));
    hide Quotient, Pow2;
    q := Quotient(top, Pow2(31 - s));
  }

  lemma LargeQuotient(x: nat, m: nat)
    requires m > 0
    ensures Quotient(x, m) <= x
  {
    Large(x, m);
  }

  method NarrowQuotient(n: U64, d: U32) returns (r: U64)
    requires d != 0
    ensures r == Quotient(n, d)
  {
    var n1, n0 := n / W32, n % W32;
    NarrowSum(n, d, n1, n0);
    Large(n, d);
    var low := Divl(W32 * (n1 % d) + n0, d);
    r := low + W32 * (n1 / d);
  }

  /** For all n and all d but zero: the quotient, and no divide instruction traps. */
  method Udiv64(n: U64, d: U64) returns (r: U64)
    requires d != 0
    ensures r == Quotient(n, d)
  {
    if d / W32 == 0 {
      r := NarrowQuotient(n, d);
    } else if n < d {
      QuotientIs(n, d, 0);
      r := 0;
    } else {
      var q := EstimateQuotient(n, d);
      QuotientBounds(n, d);
      hide Quotient, ToU64;
      Correct(n, d, q, Quotient(n, d));
      r := if ToU64(n - ToU64((q - 1) * d)) < d then q - 1 else q;
    }
  }

  /** The comparison tells which of the two it is. */
  lemma Correct(n: U64, d: U64, q: int, t: nat)
    requires 0 < d <= n && t * d <= n < t * d + d && t <= q <= t + 1
    ensures q >= 1 && ToU64(n - ToU64((q - 1) * d)) == n - (q - 1) * d
    ensures t == if n - (q - 1) * d < d then q - 1 else q
  {
    assert t >= 1;
    MulLe(0, q - 1, d);
    MulLe(q - 1, t, d);
    assert q * d == (q - 1) * d + d;
  }

  /** The remainder, if and only if it fits in 32 bits. */
  method Umod64(n: U64, d: U64) returns (r: U32)
    requires d != 0
    ensures r == Remainder(n, d) % W32
    ensures r == Remainder(n, d) <==> Remainder(n, d) < W32
  {
    var q := Udiv64(n, d);
    LowHalf(n, d, q);
    hide Quotient, Remainder, ToU32, ToU64;
    r := ToU32(ToU64(n - ToU64(d * q)));
  }

  lemma LowHalf(n: U64, d: U64, q: U64)
    requires d != 0 && q == Quotient(n, d)
    ensures ToU32(ToU64(n - ToU64(d * q))) == Remainder(n, d) % W32
  {
    QuotientBounds(n, d);
    assert d * q == q * d;
    var m := d * q;
    hide Quotient, Remainder;
    assert 0 <= m <= n && ToU64(m) == m;
  }

  lemma RemainderBounds(n: nat, d: nat)
    requires d > 0
    ensures Remainder(n, d) < d && (n < d ==> Remainder(n, d) == n)
  {
  }

  /** The divisors for which umod64 is exact whatever is divided: those up to 2^32, and no
      other.  Dividing 2^32 by 2^32 + 1, it answers zero. */
  lemma UnsignedExactFor(d: U64)
    requires d != 0
    ensures (forall n: U64 {:trigger Remainder(n, d)} :: Remainder(n, d) % W32 == Remainder(n, d)) <==> d <= W32
    ensures Remainder(W32, W32 + 1) % W32 == 0 && Remainder(W32, W32 + 1) == W32
  {
    if d <= W32 {
      forall n: U64
        ensures Remainder(n, d) % W32 == Remainder(n, d)
      {
        RemainderBounds(n, d);
      }
    } else {
      RemainderBounds(d - 1, d);
      assert Remainder(d - 1, d) % W32 != Remainder(d - 1, d);
    }
  }

  // ---------- signed division ----------

  function Abs(x: int): nat { if x < 0 then -x else x }

  /** Division that truncates toward zero: C, section 6.5.5 of ISO/IEC 9899:1999. */
  function Truncated(n: int, d: int): int
    requires d != 0
  {
    var q: int := Quotient(Abs(n), Abs(d));
    if (n < 0) == (d < 0) then q else -q
  }

  /** What makes it the truncated quotient: the algebraic quotient with any fractional part
      discarded, so that q * d plus the remainder is n and the remainder is smaller than d
      and has the sign of n. */
  lemma TruncatedIs(n: int, d: int, q: int)
    requires d != 0
    ensures q == Truncated(n, d) <==> Abs(n - q * d) < Abs(d) && (n >= 0 ==> n - q * d >= 0) && (n < 0 ==> n - q * d <= 0)
  {
    var t := if (n < 0) == (d < 0) then q else -q;
    SignedProduct(n, d, q, t);
    QuotientIs(Abs(n), Abs(d), t);
    SignCases(n, d, q * d, t * Abs(d));
    hide Abs;
  }

  lemma SignCases(n: int, d: int, x: int, y: int)
    requires d != 0 && y == if n < 0 then -x else x
    ensures y <= Abs(n) < y + Abs(d) <==> Abs(n - x) < Abs(d) && (n >= 0 ==> n - x >= 0) && (n < 0 ==> n - x <= 0)
  {
  }

  lemma SignedProduct(n: int, d: int, q: int, t: int)
    requires d != 0 && t == if (n < 0) == (d < 0) then q else -q
    ensures t * Abs(d) == if n < 0 then -(q * d) else q * d
  {
  }

  /** Truncates toward zero, except that the one quotient that does not fit wraps around. */
  method Sdiv64(n: I64, d: I64) returns (r: I64)
    requires d != 0
    ensures r == ToI64(Truncated(n, d))
    ensures r == Truncated(n, d) <==> !(n == INT64_MIN && d == -1)
  {
    var nAbs, dAbs := AbsU64(n), AbsU64(d);
    var qAbs := Udiv64(nAbs, dAbs);
    Largest(n, d);
    WrapSigned(qAbs);
    hide ToI64, Abs, Quotient;
    var signed: int := ToI64(qAbs);
    r := if (n < 0) == (d < 0) then signed else ToI64(-signed);
  }

  function AbsU64(x: I64): (r: U64)
    ensures r == Abs(x)
  {
    if x >= 0 then x else ToU64(-(x as int))
  }

  lemma WrapSigned(q: nat)
    requires q <= 0x8000_0000_0000_0000
    ensures ToI64(-(ToI64(q) as int)) == ToI64(-(q as int))
    ensures ToI64(q) == q <==> q < 0x8000_0000_0000_0000
    ensures ToI64(-(q as int)) == -(q as int)
  {
  }

  lemma Largest(n: I64, d: I64)
    requires d != 0
    ensures Quotient(Abs(n), Abs(d)) <= 0x8000_0000_0000_0000
    ensures Quotient(Abs(n), Abs(d)) == 0x8000_0000_0000_0000 <==> n == INT64_MIN && (d == 1 || d == -1)
  {
  }

  lemma Large(n: nat, d: nat)
    requires d > 0
    ensures n / d <= n && (d > 1 ==> n / d <= n / 2) && n / 1 == n
  {
    Bounds(n, d);
    MulLe(1, d, n / d);
    if d > 1 {
      MulLe(2, d, n / d);
    }
  }

  lemma WrapI64(x: int) returns (c: int)
    ensures ToI64(x) == x + c * W64
  {
    c := (ToI64(x) - x) / W64;
  }

  lemma SameI32(x: int, c: int)
    ensures ToI32(x + c * W64) == ToI32(x)
  {
  }

  /** A wrapped quotient leaves the low half of the remainder as it is. */
  lemma RemainderLow(n: int, d: int, t: int)
    ensures ToI32(ToI64(n - ToI64(d * ToI64(t)))) == ToI32(n - t * d)
  {
    var a := WrapI64(t);
    var b := WrapI64(d * ToI64(t));
    var c := WrapI64(n - ToI64(d * ToI64(t)));
    assert d * ToI64(t) == t * d + d * a * W64;
    assert ToI64(n - ToI64(d * ToI64(t))) == n - t * d + (c - b - d * a) * W64;
    SameI32(n - t * d, c - b - d * a);
  }

  function SignedRemainder(n: int, d: int): int
    requires d != 0
  {
    n - Truncated(n, d) * d
  }

  function LowWord(n: I64, d: I64, q: I64): I32 {
    ToI32(ToI64(n - ToI64(d * q)))
  }

  lemma I32Fits(x: int)
    ensures ToI32(x) == x <==> -0x8000_0000 <= x < 0x8000_0000
  {
  }

  lemma LowWordIs(n: I64, d: I64, q: I64)
    ensures LowWord(n, d, q) == ToI32(ToI64(n - ToI64(d * q)))
  {
  }

  /** The remainder of truncated division, if and only if it fits in a signed 32-bit word. */
  method Smod64(n: I64, d: I64) returns (r: I32)
    requires d != 0
    ensures r == ToI32(SignedRemainder(n, d))
    ensures r == SignedRemainder(n, d) <==> -0x8000_0000 <= SignedRemainder(n, d) < 0x8000_0000
  {
    var q := Sdiv64(n, d);
    RemainderLow(n, d, Truncated(n, d));
    assert SignedRemainder(n, d) == n - Truncated(n, d) * d;
    LowWordIs(n, d, q);
    I32Fits(SignedRemainder(n, d));
    hide Truncated, ToI64, ToI32, Abs, LowWord, SignedRemainder;
    r := LowWord(n, d, q);
  }

  lemma SignedRemainderBounds(n: int, d: int)
    requires d != 0
    ensures Abs(SignedRemainder(n, d)) < Abs(d)
    ensures 0 <= n < Abs(d) ==> SignedRemainder(n, d) == n
  {
    TruncatedIs(n, d, Truncated(n, d));
    if 0 <= n < Abs(d) {
      TruncatedIs(n, d, 0);
    }
    hide Truncated;
  }

  /** The divisors for which smod64 is exact whatever is divided: those of magnitude up to
      2^31, and no other.  Dividing 2^31 by 2^31 + 1, it answers -2^31. */
  lemma SignedExactFor(d: I64)
    requires d != 0
    ensures (forall n: I64 {:trigger SignedRemainder(n, d)} :: ToI32(SignedRemainder(n, d)) == SignedRemainder(n, d)) <==>
      Abs(d) <= 0x8000_0000
    ensures SignedRemainder(0x8000_0000, 0x8000_0001) == 0x8000_0000 && ToI32(0x8000_0000) == -0x8000_0000
  {
    hide SignedRemainder;
    SignedRemainderBounds(0x8000_0000, 0x8000_0001);
    if Abs(d) <= 0x8000_0000 {
      forall n: I64
        ensures ToI32(SignedRemainder(n, d)) == SignedRemainder(n, d)
      {
        SignedRemainderBounds(n, d);
        I32Fits(SignedRemainder(n, d));
      }
    } else {
      SignedRemainderBounds(Abs(d) - 1, d);
      I32Fits(SignedRemainder(Abs(d) - 1, d));
    }
  }
}
