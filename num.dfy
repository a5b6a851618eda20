/**
  Exact rational arithmetic (src/core/num.c).

  A rational is a numerator/denominator pair. The components are unbounded
  integers; the int64 truncation of the 128-bit cross products is not modelled,
  so every result below is the one the source computes whenever the cross
  products fit in int64.
 */
module Num {

  import Lex

  datatype Rat = Rat(num: int, den: int)

  function Abs(x: int): (r: nat)
    ensures r == x || r == -x
  {
    if x < 0 then -x else x
  }

  /** C's `/` on a positive divisor: truncates toward zero. */
  function TruncDiv(x: int, d: int): (q: int)
    requires d > 0
    ensures x >= 0 ==> q == x / d
    ensures x < 0 ==> q == -((-x) / d)
  {
    if x >= 0 then x / d else -((-x) / d)
  }

  // ---------------------------------------------------------------------------
  // Greatest common divisor
  // ---------------------------------------------------------------------------

  /** Euclid's algorithm on non-negative integers: the specification of `i64_gcd`. */
  function Gcd(a: nat, b: nat): nat
    decreases b
  {
    if b == 0 then a else Gcd(b, a % b)
  }

  /** `d` is a positive divisor of `x`. */
  predicate Divides(d: int, x: int) {
    d > 0 && x % d == 0
  }

  lemma MulSign(d: int, q: int)
    ensures d > 0 && q <= 0 ==> d * q <= 0
    ensures d > 0 && q >= 1 ==> d * q >= d
  {
  }

  lemma ModOfMultiple(d: int, k: int)
    requires d > 0
    ensures (d * k) % d == 0
  {
    var x := d * k;
    var q, m := x / d, x % d;
    assert x == d * q + m && 0 <= m < d;
    assert m == d * (k - q);
    MulSign(d, k - q);
  }

  lemma DividesMul(d: int, x: int)
    requires Divides(d, x)
    ensures x == d * (x / d)
  {
  }

  lemma DividesLinear(d: int, x: int, y: int, q: int)
    requires Divides(d, x) && Divides(d, y)
    ensures Divides(d, q * x + y)
  {
    var kx, ky := x / d, y / d;
    DividesMul(d, x);
    DividesMul(d, y);
    assert q * x + y == d * (q * kx + ky);
    ModOfMultiple(d, q * kx + ky);
  }

  lemma DividesFromLinear(d: int, x: int, y: int, q: int)
    requires Divides(d, x) && Divides(d, q * x + y)
    ensures Divides(d, y)
  {
    DividesLinear(d, x, q * x + y, -q);
    assert -q * x + (q * x + y) == y;
  }

  lemma MultipleIsAtLeast(x: int, d: int)
    requires x > 0 && d > 0 && x % d == 0
    ensures d <= x
  {
    DividesMul(d, x);
    MulSign(d, x / d);
  }

  /** The gcd divides both arguments and is zero only when both are. */
  lemma {:induction false} GcdDivides(a: nat, b: nat)
    ensures Gcd(a, b) == 0 <==> a == 0 && b == 0
    ensures Gcd(a, b) > 0 ==> Divides(Gcd(a, b), a) && Divides(Gcd(a, b), b)
    decreases b
  {
    if b != 0 {
      GcdDivides(b, a % b);
      var g := Gcd(b, a % b);
      assert g > 0 by {
        assert !(b == 0);
      }
      assert a == (a / b) * b + a % b;
      DividesLinear(g, b, a % b, a / b);
    }
  }

  /** Every common divisor divides the gcd. */
  lemma {:induction false} GcdGreatest(a: nat, b: nat, d: int)
    requires Divides(d, a) && Divides(d, b)
    ensures Gcd(a, b) % d == 0
    decreases b
  {
    if b != 0 {
      assert a == (a / b) * b + a % b;
      DividesFromLinear(d, b, a % b, a / b);
      GcdGreatest(b, a % b, d);
    }
  }

  lemma GcdZeroLeft(b: nat)
    ensures Gcd(0, b) == b
  {
    if b != 0 {
      assert 0 % b == 0;
      assert Gcd(0, b) == Gcd(b, 0);
    }
  }

  lemma GcdOneRight(a: nat)
    ensures Gcd(a, 1) == 1
  {
    assert a % 1 == 0;
    assert Gcd(a, 1) == Gcd(1, 0);
  }

  /** `i64_gcd`: Euclid's loop on the absolute values. */
  method I64Gcd(a: int, b: int) returns (g: nat)
    ensures g == Gcd(Abs(a), Abs(b))
  {
    var x: nat := Abs(a);
    var y: nat := Abs(b);
    while y != 0
      invariant Gcd(x, y) == Gcd(Abs(a), Abs(b))
      decreases y
    {
      var t := x % y;
      x := y;
      y := t;
    }
    g := if x != 0 then x else 0;
  }

  /** What the source promises of `i64_gcd`: a common divisor of a and b, a multiple of every other one, 0 only for 0 and 0. */
  lemma I64GcdIsGcd(a: int, b: int)
    ensures Gcd(Abs(a), Abs(b)) == 0 <==> a == 0 && b == 0
    ensures Gcd(Abs(a), Abs(b)) > 0 ==>
      Divides(Gcd(Abs(a), Abs(b)), a) && Divides(Gcd(Abs(a), Abs(b)), b)
    ensures forall d :: Divides(d, a) && Divides(d, b) ==> Gcd(Abs(a), Abs(b)) % d == 0
  {
    GcdDivides(Abs(a), Abs(b));
    var g := Gcd(Abs(a), Abs(b));
    if g > 0 {
      AbsDividesBack(g, a);
      AbsDividesBack(g, b);
    }
    forall d | Divides(d, a) && Divides(d, b)
      ensures g % d == 0
    {
      AbsDivides(d, a);
      AbsDivides(d, b);
      GcdGreatest(Abs(a), Abs(b), d);
    }
  }

  lemma AbsDivides(d: int, x: int)
    requires Divides(d, x)
    ensures Divides(d, Abs(x))
  {
    if x < 0 {
      DividesLinear(d, x, 0, -1);
      assert -1 * x + 0 == Abs(x);
    }
  }

  lemma AbsDividesBack(d: int, x: int)
    requires Divides(d, Abs(x))
    ensures Divides(d, x)
  {
    if x < 0 {
      DividesLinear(d, Abs(x), 0, -1);
      assert -1 * Abs(x) + 0 == x;
    }
  }

  // ---------------------------------------------------------------------------
  // Values and normal form
  // ---------------------------------------------------------------------------

  /** The rational number a pair denotes. */
  function Value(r: Rat): real
    requires r.den != 0
  {
    r.num as real / r.den as real
  }

  /** The normal form the source promises for escaping rationals: positive denominator, coprime parts. */
  predicate Reduced(r: Rat) {
    r.den > 0 && Gcd(Abs(r.num), r.den) == 1
  }

  /** `rat_from_i64`: n/1. */
  function RatFromI64(n: int): (r: Rat)
    ensures Reduced(r) && Value(r) == n as real
  {
    GcdOneRight(Abs(n));
    Rat(n, 1)
  }

  /** `rat_is_zero`: tests the numerator only. */
  function RatIsZero(r: Rat): (z: bool)
    ensures r.den != 0 ==> (z <==> Value(r) == 0.0)
  {
    r.num == 0
  }

  /** `rat_norm`. Only a positive denominator is reduced by the gcd; a negative one is only negated. */
  function RatNorm(a: Rat): (r: Rat)
    ensures a.den == 0 ==> r == a
    ensures (r.num == 0) == (a.num == 0)
    ensures a.den != 0 ==> r.den > 0
    ensures a.den != 0 && a.num == 0 ==> r == Rat(0, 1)
    ensures a.den > 0 ==> Reduced(r)
    ensures a.den < 0 && a.num != 0 ==> r.num == -a.num && r.den == -a.den
  {
    if a.den == 0 then a
    else if a.num == 0 then
      GcdOneRight(0);
      Rat(0, 1)
    else if a.den < 0 then
      SameValueNegated(a);
      Rat(-a.num, -a.den)
    else
      var g := Gcd(Abs(a.num), a.den);
      ReduceByGcd(a.num, a.den);
      Rat(TruncDiv(a.num, g), TruncDiv(a.den, g))
  }

  /** Normalising keeps the value. */
  lemma RatNormValue(a: Rat)
    requires a.den != 0
    ensures Value(RatNorm(a)) == Value(a)
  {
    if a.num != 0 {
      if a.den < 0 {
        SameValueNegated(a);
      } else {
        ReduceByGcd(a.num, a.den);
      }
    }
  }

  lemma SameValueNegated(a: Rat)
    requires a.den != 0
    ensures Value(Rat(-a.num, -a.den)) == Value(a)
  {
  }

  /** Dividing both parts by their gcd gives a coprime pair of the same value. */
  lemma ReduceByGcd(n: int, d: int)
    requires n != 0 && d > 0
    ensures Gcd(Abs(n), d) > 0
    ensures var g := Gcd(Abs(n), d);
      var r := Rat(TruncDiv(n, g), TruncDiv(d, g));
      Reduced(r) && Value(r) == Value(Rat(n, d)) && r.num != 0
  {
    GcdCofactors(n, d);
    var g := Gcd(Abs(n), d);
    var n', d' := TruncDiv(n, g), TruncDiv(d, g);
    CoprimeCofactors(n, d, g, n', d');
    SameValueScaled(n', d', g);
  }

  /** The gcd really divides both parts: n = g*n' and d = g*d' with d' > 0. */
  lemma GcdCofactors(n: int, d: int)
    requires n != 0 && d > 0
    ensures Gcd(Abs(n), d) > 0
    ensures var g := Gcd(Abs(n), d);
      n == g * TruncDiv(n, g) && d == g * TruncDiv(d, g) && TruncDiv(d, g) > 0
      && TruncDiv(n, g) != 0
  {
    GcdDivides(Abs(n), d);
    var g := Gcd(Abs(n), d);
    AbsDividesBack(g, n);
    DividesMul(g, d);
    if n < 0 {
      DividesMul(g, -n);
      assert -n == g * ((-n) / g);
    } else {
      DividesMul(g, n);
    }
    MulSign(g, d / g);
    MulSign(g, TruncDiv(n, g));
  }

  /** The cofactors of the gcd are coprime. */
  lemma CoprimeCofactors(n: int, d: int, g: int, n': int, d': int)
    requires d > 0 && g > 0 && d' > 0 && n' != 0
    requires g == Gcd(Abs(n), d) && n == g * n' && d == g * d'
    ensures Gcd(Abs(n'), d') == 1
  {
    var h := Gcd(Abs(n'), d');
    GcdDivides(Abs(n'), d');
    AbsDividesBack(h, n');
    var hg := h * g;
    MulSign(h, g);
    ScaledDivisor(h, g, n', n);
    ScaledDivisor(h, g, d', d);
    AbsDivides(hg, n);
    GcdGreatest(Abs(n), d, hg);
    MultipleIsAtLeast(g, hg);
    UnitFactor(h, g);
  }

  lemma UnitFactor(h: int, g: int)
    ensures h > 0 && g > 0 && h * g <= g ==> h == 1
  {
    MulSign(g, h - 1);
    assert h * g == g * (h - 1) + g;
  }

  /** If h divides x' then h*g divides g*x'. */
  lemma ScaledDivisor(h: int, g: int, x': int, x: int)
    requires Divides(h, x') && g > 0 && x == g * x'
    ensures Divides(h * g, x)
  {
    var k := x' / h;
    DividesMul(h, x');
    MulSign(h, g);
    assert x == (h * g) * k by {
      assert x == g * (h * k);
    }
    ModOfMultiple(h * g, k);
  }

  lemma SameValueScaled(n: int, d: int, g: int)
    requires d > 0 && g > 0
    ensures Value(Rat(g * n, g * d)) == Value(Rat(n, d))
  {
    var gr, nr, dr := g as real, n as real, d as real;
    assert (g * n) as real == gr * nr;
    assert (g * d) as real == gr * dr;
    assert (gr * nr) / (gr * dr) == nr / dr;
  }

  /** Applying `rat_norm` a second time reaches the fully reduced form for every nonzero denominator. */
  lemma NormTwiceIsReduced(a: Rat)
    requires a.den != 0
    ensures Reduced(RatNorm(RatNorm(a)))
    ensures Value(RatNorm(RatNorm(a))) == Value(a)
  {
    RatNormValue(a);
    RatNormValue(RatNorm(a));
  }

  /** A reduced rational is a fixed point of `rat_norm`. */
  lemma NormOfReduced(r: Rat)
    requires Reduced(r)
    ensures RatNorm(r) == r
  {
    if r.num == 0 {
      GcdZeroLeft(r.den);
    } else {
      assert Gcd(Abs(r.num), r.den) == 1;
      assert TruncDiv(r.num, 1) == r.num;
    }
  }

  /** The negative-denominator case is not reduced: 2/-4 becomes -2/4, which is not in lowest terms. */
  lemma NormNegativeDenominator()
    ensures RatNorm(Rat(2, -4)) == Rat(-2, 4)
    ensures !Reduced(RatNorm(Rat(2, -4)))
  {
    assert Gcd(2, 4) == 2 by {
      assert 2 % 4 == 2;
      assert 4 % 2 == 0;
      assert Gcd(2, 4) == Gcd(4, 2) == Gcd(2, 0);
    }
  }

  // ---------------------------------------------------------------------------
  // Field operations
  // ---------------------------------------------------------------------------

  /** `rat_add`: the cross-multiplied sum, normalised (its value is stated by `RatAddValue`). */
  function RatAdd(a: Rat, b: Rat): (r: Rat)
    ensures a.den != 0 && b.den != 0 ==> r.den > 0
    ensures a.den > 0 && b.den > 0 ==> Reduced(r)
  {
    var raw := Rat(a.num * b.den + b.num * a.den, a.den * b.den);
    NonzeroProduct(a.den, b.den);
    PositiveProduct(a.den, b.den);
    RatNorm(raw)
  }

  /** The sum's value is the sum of the values. */
  lemma RatAddValue(a: Rat, b: Rat)
    requires a.den != 0 && b.den != 0
    ensures Value(RatAdd(a, b)) == Value(a) + Value(b)
  {
    SumValue(a, b);
    RatNormValue(Rat(a.num * b.den + b.num * a.den, a.den * b.den));
  }

  lemma PositiveProduct(x: int, y: int)
    ensures x > 0 && y > 0 ==> x * y > 0
  {
  }

  lemma NonzeroProduct(x: int, y: int)
    ensures x != 0 && y != 0 ==> x * y != 0
  {
  }

  lemma SumValue(a: Rat, b: Rat)
    ensures a.den != 0 && b.den != 0 ==>
      (a.den * b.den != 0 &&
       Value(Rat(a.num * b.den + b.num * a.den, a.den * b.den)) == Value(a) + Value(b))
  {
    if a.den == 0 || b.den == 0 { return; }
    NonzeroProduct(a.den, b.den);
    var an, ad, bn, bd := a.num as real, a.den as real, b.num as real, b.den as real;
    assert (a.num * b.den + b.num * a.den) as real == an * bd + bn * ad;
    assert (a.den * b.den) as real == ad * bd;
    assert (an * bd + bn * ad) / (ad * bd) == an / ad + bn / bd;
  }

  lemma ProductValue(a: Rat, b: Rat)
    ensures a.den != 0 && b.den != 0 ==>
      (a.den * b.den != 0 && Value(Rat(a.num * b.num, a.den * b.den)) == Value(a) * Value(b))
  {
    if a.den == 0 || b.den == 0 { return; }
    NonzeroProduct(a.den, b.den);
    var an, ad, bn, bd := a.num as real, a.den as real, b.num as real, b.den as real;
    assert (a.num * b.num) as real == an * bn;
    assert (a.den * b.den) as real == ad * bd;
    assert (an * bn) / (ad * bd) == (an / ad) * (bn / bd);
  }

  /** `rat_sub`: negate the subtrahend's numerator, then add. */
  function RatSub(a: Rat, b: Rat): (r: Rat)
    ensures a.den != 0 && b.den != 0 ==> r.den > 0
    ensures a.den > 0 && b.den > 0 ==> Reduced(r)
  {
    RatAdd(a, Rat(-b.num, b.den))
  }

  /** The difference's value is the difference of the values. */
  lemma RatSubValue(a: Rat, b: Rat)
    requires a.den != 0 && b.den != 0
    ensures Value(RatSub(a, b)) == Value(a) - Value(b)
  {
    RatAddValue(a, Rat(-b.num, b.den));
    assert Value(Rat(-b.num, b.den)) == -Value(b);
  }

  /** `rat_mul`: the product of the parts, normalised (its value is stated by `RatMulValue`). */
  function RatMul(a: Rat, b: Rat): (r: Rat)
    ensures a.num != 0 && b.num != 0 ==> r.num != 0
    ensures a.den != 0 && b.den != 0 ==> r.den > 0
    ensures a.den > 0 && b.den > 0 ==> Reduced(r)
  {
    ProductValue(a, b);
    PositiveProduct(a.den, b.den);
    NonzeroProduct(a.num, b.num);
    RatNorm(Rat(a.num * b.num, a.den * b.den))
  }

  /** The product's value is the product of the values. */
  lemma RatMulValue(a: Rat, b: Rat)
    requires a.den != 0 && b.den != 0
    ensures Value(RatMul(a, b)) == Value(a) * Value(b)
  {
    ProductValue(a, b);
    RatNormValue(Rat(a.num * b.num, a.den * b.den));
  }

  /** `rat_div`: fails with 0/1 exactly when the divisor's numerator is zero. */
  function RatDiv(a: Rat, b: Rat): (res: (Rat, bool))
    ensures !res.1 <==> b.num == 0
    ensures !res.1 ==> res.0 == Rat(0, 1)
    ensures res.1 && a.den != 0 && b.den != 0 ==> res.0.den > 0
  {
    if b.num == 0 then (RatFromI64(0), false)
    else
      NonzeroProduct(a.den, b.num);
      (RatNorm(Rat(a.num * b.den, a.den * b.num)), true)
  }

  /** A successful quotient's value is the quotient of the values. */
  lemma RatDivValue(a: Rat, b: Rat)
    requires a.den != 0 && b.den != 0 && b.num != 0
    ensures Value(RatDiv(a, b).0) == Value(a) / Value(b)
  {
    QuotientValue(a, b);
    RatNormValue(Rat(a.num * b.den, a.den * b.num));
  }

  lemma QuotientValue(a: Rat, b: Rat)
    requires b.num != 0
    ensures a.den != 0 && b.den != 0 ==>
      (a.den * b.num != 0 && Value(Rat(a.num * b.den, a.den * b.num)) == Value(a) / Value(b))
  {
    if a.den == 0 || b.den == 0 { return; }
    NonzeroProduct(a.den, b.num);
    var an, ad, bn, bd := a.num as real, a.den as real, b.num as real, b.den as real;
    assert (a.num * b.den) as real == an * bd;
    assert (a.den * b.num) as real == ad * bn;
    assert bn != 0.0;
    assert (an * bd) / (ad * bn) == (an / ad) / (bn / bd);
  }

  // ---------------------------------------------------------------------------
  // Integer powers
  // ---------------------------------------------------------------------------

  /** x raised to a natural power. */
  function RealPow(x: real, n: nat): real {
    if n == 0 then 1.0 else x * RealPow(x, n - 1)
  }

  lemma {:induction false} RealPowAdd(x: real, m: nat, n: nat)
    ensures RealPow(x, m + n) == RealPow(x, m) * RealPow(x, n)
  {
    if m != 0 {
      RealPowAdd(x, m - 1, n);
    }
  }

  lemma {:induction false} RealPowSquare(x: real, n: nat)
    ensures RealPow(x * x, n) == RealPow(x, 2 * n)
  {
    if n != 0 {
      RealPowSquare(x, n - 1);
      RealPowAdd(x, 2, 2 * (n - 1));
    }
  }

  lemma {:induction false} RealPowNonzero(x: real, n: nat)
    requires x != 0.0
    ensures RealPow(x, n) != 0.0
  {
    if n != 0 {
      RealPowNonzero(x, n - 1);
    }
  }

  /** The square-and-multiply invariant: res * base^p is the target. */
  predicate Tracks(res: real, base: real, p: nat, target: real) {
    res * RealPow(base, p) == target
  }

  /** One step of square-and-multiply keeps res * base^p at the target: res' is res, times base when p is odd, and sq is base squared. */
  lemma SquareStep(res: real, base: real, res': real, sq: real, p: nat, target: real)
    requires p > 0 && sq == base * base
    requires res' == if p % 2 == 1 then res * base else res
    requires Tracks(res, base, p, target)
    ensures Tracks(res', sq, p / 2, target)
  {
    RealPowSquare(base, p / 2);
    if p % 2 == 1 {
      RealPowAdd(base, 1, 2 * (p / 2));
      assert 1 + 2 * (p / 2) == p;
    } else {
      assert 2 * (p / 2) == p;
    }
  }

  /** The loop of `rat_pow_i64` as a function: multiply res by base when p is odd, square base, halve p, until p is 0. */
  function PowLoop(res: Rat, base: Rat, p: nat): Rat
    decreases p
  {
    if p == 0 then res
    else PowLoop(if p % 2 == 1 then RatMul(res, base) else res, RatMul(base, base), p / 2)
  }

  /** One turn of the loop function, for a positive exponent. */
  lemma PowLoopUnfold(res: Rat, base: Rat, p: nat)
    requires p != 0
    ensures PowLoop(res, base, p) == PowLoop(if p % 2 == 1 then RatMul(res, base) else res, RatMul(base, base), p / 2)
  {
  }

  /**
    `rat_pow_i64`: 1 for e = 0 (even for a zero base), failure for a zero
    base with e < 0, else square-and-multiply on the normalised base and |e|,
    then one division when e < 0.
   */
  function RatPow(a: Rat, e: int): (Rat, bool) {
    var an := RatNorm(a);
    if e == 0 then (RatFromI64(1), true)
    else if an.num == 0 && e < 0 then (RatFromI64(0), false)
    else
      var r := PowLoop(RatFromI64(1), an, Abs(e));
      if e < 0 then RatDiv(RatFromI64(1), r) else (r, true)
  }

  /** Square-and-multiply from nonzero rationals stays nonzero. */
  lemma {:induction false} PowLoopNonzero(res: Rat, base: Rat, p: nat)
    requires res.num != 0 && base.num != 0
    ensures PowLoop(res, base, p).num != 0
    decreases p
  {
    if p != 0 {
      PowLoopUnfold(res, base, p);
      PowLoopNonzero(if p % 2 == 1 then RatMul(res, base) else res, RatMul(base, base), p / 2);
    }
  }

  /** `rat_pow_i64` reports failure exactly for a base normalising to 0 under a negative exponent, and then yields 0/1. */
  lemma RatPowFails(a: Rat, e: int)
    ensures !RatPow(a, e).1 <==> e < 0 && RatNorm(a).num == 0
    ensures !RatPow(a, e).1 ==> RatPow(a, e).0 == Rat(0, 1)
  {
    var an := RatNorm(a);
    if e != 0 && an.num != 0 {
      PowLoopNonzero(RatFromI64(1), an, Abs(e));
    }
  }

  /** r is a^n in lowest terms. */
  predicate IsPower(r: Rat, a: Rat, n: nat) {
    a.den != 0 && Reduced(r) && Value(r) == RealPow(Value(a), n)
  }

  /** r is 1 / a^n in lowest terms. */
  predicate IsInversePower(r: Rat, a: Rat, n: nat) {
    a.den != 0 && Reduced(r) && Value(r) * RealPow(Value(a), n) == 1.0
  }

  /** `rat_pow_i64`: square-and-multiply on |e|, then one division when e < 0. */
  method RatPowI64(a: Rat, e: int) returns (r: Rat, ok: bool)
    ensures (r, ok) == RatPow(a, e)
    ensures e == 0 ==> ok && r == Rat(1, 1)
    ensures !ok <==> e < 0 && RatNorm(a).num == 0
    ensures !ok ==> r == Rat(0, 1)
    ensures ok && e > 0 && a.den != 0 ==> IsPower(r, a, e)
    ensures ok && e < 0 && a.den != 0 ==> IsInversePower(r, a, -e)
  {
    if e == 0 {
      return RatFromI64(1), true;
    }
    if RatNorm(a).num == 0 && e < 0 {
      return RatFromI64(0), false;
    }
    if e > 0 {
      r := PositivePower(a, e);
    } else {
      r := NegativePower(a, e);
    }
    ok := true;
  }

  /** `rat_pow_i64` for e > 0: square-and-multiply on the normalised base. */
  method PositivePower(a: Rat, e: int) returns (r: Rat)
    requires e > 0
    ensures r == PowLoop(RatFromI64(1), RatNorm(a), e)
    ensures a.den != 0 ==> IsPower(r, a, e)
  {
    r := SquareAndMultiply(RatNorm(a), e);
    if a.den != 0 {
      RatNormValue(a);
    }
  }

  /** `rat_pow_i64` for e < 0 and a nonzero base: square-and-multiply on -e, then `rat_div(1, r)`. */
  method NegativePower(a: Rat, e: int) returns (r: Rat)
    requires e < 0 && RatNorm(a).num != 0
    ensures (r, true) == RatDiv(RatFromI64(1), PowLoop(RatFromI64(1), RatNorm(a), -e))
    ensures a.den != 0 ==> IsInversePower(r, a, -e)
  {
    var an := RatNorm(a);
    var s := SquareAndMultiply(an, -e);
    var ok;
    r, ok := Invert(a, an, s, -e);
  }

  /** The final `rat_div(1, r)` of `rat_pow_i64` for a negative exponent. */
  method Invert(a: Rat, an: Rat, r: Rat, p: nat) returns (q: Rat, ok: bool)
    requires an == RatNorm(a) && an.num != 0
    requires an.num != 0 ==> r.num != 0
    requires an.den > 0 ==> Reduced(r) && Value(r) == RealPow(Value(an), p)
    ensures (q, ok) == RatDiv(RatFromI64(1), r) && ok
    ensures a.den != 0 ==> IsInversePower(q, a, p)
  {
    InvertPower(a, an, r, p);
    var d := RatDiv(RatFromI64(1), r);
    q, ok := d.0, d.1;
  }

  /** The loop of `rat_pow_i64`: res * base^p stays equal to the wanted power while p is halved. */
  method SquareAndMultiply(b: Rat, p0: nat) returns (r: Rat)
    ensures r == PowLoop(RatFromI64(1), b, p0)
    ensures b.num != 0 ==> r.num != 0
    ensures b.den > 0 ==> Reduced(r) && Value(r) == RealPow(Value(b), p0)
  {
    var p := p0;
    var base := b;
    r := RatFromI64(1);
    ghost var vb := if b.den > 0 then Value(b) else 0.0;
    ghost var vr := 1.0;
    ghost var target := RealPow(vb, p0);
    while p != 0
      invariant b.num != 0 ==> r.num != 0 && base.num != 0
      invariant b.den > 0 ==> Reduced(r) && base.den > 0 && vr == Value(r) && vb == Value(base)
      invariant Tracks(vr, vb, p, target)
      invariant PowLoop(r, base, p) == PowLoop(RatFromI64(1), b, p0)
      decreases p
    {
      PowLoopUnfold(r, base, p);
      r, base, p, vr, vb := SquareAndMultiplyStep(b, r, base, p, vr, vb, target);
    }
  }

  /** One iteration of the loop of `rat_pow_i64`: multiply res by base when p is odd, square base, halve p. */
  method SquareAndMultiplyStep(b: Rat, r: Rat, base: Rat, p: nat, ghost vr: real, ghost vb: real, ghost target: real)
    returns (r': Rat, base': Rat, p': nat, ghost vr': real, ghost vb': real)
    requires p != 0
    requires b.num != 0 ==> r.num != 0 && base.num != 0
    requires b.den > 0 ==> Reduced(r) && base.den > 0 && vr == Value(r) && vb == Value(base)
    requires Tracks(vr, vb, p, target)
    ensures p' == p / 2
    ensures r' == (if p % 2 == 1 then RatMul(r, base) else r) && base' == RatMul(base, base)
    ensures b.num != 0 ==> r'.num != 0 && base'.num != 0
    ensures b.den > 0 ==> Reduced(r') && base'.den > 0 && vr' == Value(r') && vb' == Value(base')
    ensures Tracks(vr', vb', p', target)
  {
    vr' := if p % 2 == 1 then vr * vb else vr;
    vb' := vb * vb;
    SquareStep(vr, vb, vr', vb', p, target);
    r' := r;
    if p % 2 == 1 {
      r' := Multiply(r, base, vr, vb);
    }
    base' := Multiply(base, base, vb, vb);
    p' := p / 2;
  }

  /** A call of `rat_mul` inside the loop, described by what the loop needs of it. */
  method Multiply(a: Rat, b: Rat, ghost va: real, ghost vb: real) returns (r: Rat)
    ensures r == RatMul(a, b)
    ensures a.num != 0 && b.num != 0 ==> r.num != 0
    ensures a.den > 0 && b.den > 0 && va == Value(a) && vb == Value(b) ==>
      Reduced(r) && Value(r) == va * vb
  {
    r := RatMul(a, b);
    if a.den > 0 && b.den > 0 && va == Value(a) && vb == Value(b) {
      ProductOfValues(a, b, va, vb);
    }
  }

  /** `RatMulValue` for values known by name (given as quotients, which keeps the proof cheap). */
  lemma ProductOfValues(a: Rat, b: Rat, va: real, vb: real)
    requires a.den > 0 && b.den > 0
    requires va == a.num as real / a.den as real && vb == b.num as real / b.den as real
    ensures Value(RatMul(a, b)) == va * vb
  {
    RatMulValue(a, b);
  }

  /** Before the final division: the power is nonzero and reduced, so its inverse is reduced. */
  lemma InvertPower(a: Rat, an: Rat, r: Rat, p: nat)
    requires an == RatNorm(a) && an.num != 0
    requires an.num != 0 ==> r.num != 0
    requires an.den > 0 ==> Reduced(r) && Value(r) == RealPow(Value(an), p)
    ensures r.num != 0
    ensures a.den != 0 ==>
      Reduced(RatDiv(RatFromI64(1), r).0) && Value(RatDiv(RatFromI64(1), r).0) * RealPow(Value(a), p) == 1.0
  {
    if a.den != 0 {
      RatNormValue(a);
      RealPowNonzero(Value(a), p);
      InverseOfReduced(r);
      RatDivValue(RatFromI64(1), r);
      var v := Value(r);
      assert v == RealPow(Value(a), p);
      assert Value(RatDiv(RatFromI64(1), r).0) == 1.0 / v;
    }
  }

  lemma GcdComm(a: nat, b: nat)
    ensures Gcd(a, b) == Gcd(b, a)
  {
    GcdDivides(a, b);
    GcdDivides(b, a);
    var g1, g2 := Gcd(a, b), Gcd(b, a);
    if g1 > 0 && g2 > 0 {
      GcdGreatest(b, a, g1);
      GcdGreatest(a, b, g2);
      MultipleIsAtLeast(g2, g1);
      MultipleIsAtLeast(g1, g2);
    }
  }

  /** Inverting a nonzero reduced rational through `rat_div` gives a reduced rational. */
  lemma InverseOfReduced(r: Rat)
    requires Reduced(r) && r.num != 0
    ensures Reduced(RatDiv(RatFromI64(1), r).0)
  {
    var q := RatDiv(RatFromI64(1), r).0;
    var raw := Rat(1 * r.den, 1 * r.num);
    assert q == RatNorm(raw);
    if r.num < 0 {
      assert q == Rat(-r.den, -r.num);
      GcdComm(Abs(r.num), r.den);
      assert Abs(-r.den) == r.den;
      assert Abs(r.num) == -r.num;
    }
  }

  // ---------------------------------------------------------------------------
  // Rendering
  // ---------------------------------------------------------------------------

  /** The digits of a natural number in decimal, most significant first. */
  function NatToStr(n: nat): (s: string)
    decreases n
  {
    if n < 10 then [DigitChar(n)] else NatToStr(n / 10) + [DigitChar(n % 10)]
  }

  function DigitChar(d: nat): (c: char)
    requires d < 10
    ensures '0' <= c <= '9' && (c as int) - ('0' as int) == d
  {
    ('0' as int + d) as char
  }

  /** `%lld`: an optional minus sign followed by the digits of the magnitude. */
  function IntToStr(n: int): string {
    if n < 0 then "-" + NatToStr(-n) else NatToStr(n)
  }

  /** `rat_to_str`: normalise, then "num" when the denominator is 1 and "num/den" otherwise. */
  function RatToStr(r: Rat): string {
    var n := RatNorm(r);
    if n.den == 1 then IntToStr(n.num) else IntToStr(n.num) + "/" + IntToStr(n.den)
  }

  /** Reading the rendering back gives the normalised rational, so the text denotes the number. */
  lemma RatToStrReadsBack(r: Rat)
    ensures ReadRat(RatToStr(r)) == RatNorm(r)
  {
    var n := RatNorm(r);
    var a := IntToStr(n.num);
    IntToStrReadsBack(n.num);
    IntToStrReadsBack(n.den);
    if n.den == 1 {
      SlashPosOfPlain(a);
      assert a[..|a|] == a;
    } else {
      SlashPosAfter(a, IntToStr(n.den));
    }
  }

  /** The rendering of a rational with a nonzero denominator reads back with the same value. */
  lemma RatToStrValue(r: Rat)
    requires r.den != 0
    ensures ReadRat(RatToStr(r)).den != 0 && Value(ReadRat(RatToStr(r))) == Value(r)
  {
    RatToStrReadsBack(r);
    RatNormValue(r);
  }

  // ---------------------------------------------------------------------------
  // Reading a rendering back
  // ---------------------------------------------------------------------------

  /** The position of the first '/' in s, or |s| when there is none. */
  function SlashPos(s: string): (k: nat)
    ensures k <= |s| && (k < |s| ==> s[k] == '/')
    ensures forall i :: 0 <= i < k ==> s[i] != '/'
  {
    if |s| == 0 || s[0] == '/' then 0 else 1 + SlashPos(s[1..])
  }

  /** An integer in `%lld` form: an optional minus sign, then digits read as the lexer reads a number. */
  function ReadInt(s: string): int {
    if |s| > 0 && s[0] == '-' then -(Lex.DecimalValue(s[1..]) as int) else Lex.DecimalValue(s)
  }

  /** A rational in `rat_to_str` form: the integer before the first '/' over the one after it, or over 1. */
  function ReadRat(s: string): Rat {
    var k := SlashPos(s);
    Rat(ReadInt(s[..k]), if k < |s| then ReadInt(s[k + 1..]) else 1)
  }

  /** The lexer's decimal reading of the digits of n is n. */
  lemma {:induction false} NatToStrValue(n: nat)
    ensures Lex.DecimalValue(NatToStr(n)) == n
    decreases n
  {
    var s := NatToStr(n);
    if n < 10 {
      assert s[..0] == [];
    } else {
      NatToStrValue(n / 10);
      assert s[..|s| - 1] == NatToStr(n / 10);
    }
  }

  /** `%lld` text reads back as the integer, and holds no '/'. */
  lemma IntToStrReadsBack(n: int)
    ensures ReadInt(IntToStr(n)) == n
    ensures forall i :: 0 <= i < |IntToStr(n)| ==> IntToStr(n)[i] != '/'
  {
    NatToStrDigits(Abs(n));
    NatToStrValue(Abs(n));
    if n < 0 {
      assert IntToStr(n)[1..] == NatToStr(-n);
    } else {
      assert NatToStr(n)[0] != '-';
    }
  }

  lemma SlashPosOfPlain(a: string)
    requires forall i :: 0 <= i < |a| ==> a[i] != '/'
    ensures SlashPos(a) == |a|
  {
  }

  lemma SlashPosAfter(a: string, b: string)
    requires forall i :: 0 <= i < |a| ==> a[i] != '/'
    ensures var s := a + "/" + b;
      SlashPos(s) == |a| && s[..|a|] == a && s[|a| + 1..] == b
  {
    var s := a + "/" + b;
    assert s[|a|] == '/';
    assert forall i :: 0 <= i < |a| ==> s[i] == a[i];
    assert s[..|a|] == a;
    assert s[|a| + 1..] == b;
  }

  lemma {:induction false} NatToStrDigits(n: nat)
    ensures |NatToStr(n)| > 0
    ensures forall i :: 0 <= i < |NatToStr(n)| ==> '0' <= NatToStr(n)[i] <= '9'
    decreases n
  {
    if n >= 10 {
      NatToStrDigits(n / 10);
    }
  }

  /** A fraction bar appears in the rendering exactly when the normalised denominator is not 1. */
  lemma RatToStrHasSlash(r: Rat)
    ensures '/' in RatToStr(r) <==> RatNorm(r).den != 1
  {
    var n := RatNorm(r);
    NatToStrDigits(Abs(n.num));
    NatToStrDigits(Abs(n.den));
    var s := RatToStr(r);
    if n.den != 1 {
      assert s[|IntToStr(n.num)|] == '/';
    } else {
      assert forall i :: 0 <= i < |IntToStr(n.num)| ==> IntToStr(n.num)[i] != '/';
    }
  }
}
