/** Exact rationals in lowest terms, as in shared/ratio.c. */
module Ratios {
  import opened Basics

  datatype Rat = Rat(num: int, denom: int) {
    predicate Valid() { denom > 0 }

    /** The rational number this stands for. */
    ghost function Value(): real
      requires denom != 0
    {
      num as real / denom as real
    }

    /** Lowest terms. */
    ghost predicate Normal() {
      denom > 0 && Gcd(Abs(num), denom) == 1
    }
  }

  function Abs(x: int): nat { if x < 0 then -x else x }

  // ----- Greatest common divisor -----

  function Gcd(x: nat, y: nat): (g: nat)
    ensures g == 0 <==> x == 0 && y == 0
    decreases y
  {
    if y == 0 then x else Gcd(y, x % y)
  }

  function Multiple(d: int, k: int): int { d * k }

  ghost predicate Divides(d: int, n: int) {
    exists k :: Multiple(d, k) == n
  }

  lemma DividesSum(d: int, m: int, n: int, q: int)
    requires Divides(d, m) && Divides(d, n)
    ensures Divides(d, m + q * n)
  {
    var i :| Multiple(d, i) == m;
    var j :| Multiple(d, j) == n;
    assert d * (i + q * j) == d * i + q * (d * j);
    assert Multiple(d, i + q * j) == m + q * n;
  }

  lemma {:induction false} GcdDivides(x: nat, y: nat)
    ensures Divides(Gcd(x, y), x) && Divides(Gcd(x, y), y)
    decreases y
  {
    var g := Gcd(x, y);
    if y == 0 {
      assert Multiple(g, 1) == x && Multiple(g, 0) == y;
    } else {
      GcdDivides(y, x % y);
      DividesSum(g, x % y, y, x / y);
    }
  }

  lemma {:induction false} Bezout(x: nat, y: nat) returns (u: int, v: int)
    ensures u * x + v * y == Gcd(x, y)
    decreases y
  {
    if y == 0 {
      u, v := 1, 0;
    } else {
      var u', v' := Bezout(y, x % y);
      u, v := v', u' - v' * (x / y);
      Rearrange(x, y, x / y, x % y, u', v');
    }
  }

  lemma Rearrange(x: int, y: int, q: int, r: int, u: int, v: int)
    requires x == y * q + r
    ensures v * x + (u - v * q) * y == u * y + v * r
  {
    assert v * x == v * (y * q) + v * r;
    assert (u - v * q) * y == u * y - (v * q) * y;
    assert (v * q) * y == v * (y * q);
  }

  /** Everything that divides both numbers divides their gcd. */
  lemma GcdIsGreatest(x: nat, y: nat, d: int)
    requires Divides(d, x) && Divides(d, y)
    ensures Divides(d, Gcd(x, y))
  {
    var u, v := Bezout(x, y);
    var i :| Multiple(d, i) == x;
    var j :| Multiple(d, j) == y;
    assert d * (u * i + v * j) == u * (d * i) + v * (d * j);
    assert Multiple(d, u * i + v * j) == Gcd(x, y);
  }

  /** The loop of shared/ratio.c. */
  method ComputeGcd(x: int, y: int) returns (g: nat)
    ensures g == Gcd(Abs(x), Abs(y))
    ensures Divides(g, x) && Divides(g, y)
    ensures forall d :: Divides(d, x) && Divides(d, y) ==> Divides(d, g)
  {
    var a: nat, b: nat := Abs(x), Abs(y);
    while b != 0
      invariant Gcd(a, b) == Gcd(Abs(x), Abs(y))
      decreases b
    {
      a, b := b, a % b;
    }
    g := a;
    GcdDivides(Abs(x), Abs(y));
    DividesAbs(g, x);
    DividesAbs(g, y);
    forall d | Divides(d, x) && Divides(d, y) ensures Divides(d, g) {
      DividesAbs(d, x);
      DividesAbs(d, y);
      GcdIsGreatest(Abs(x), Abs(y), d);
    }
  }

  lemma DividesAbs(d: int, n: int)
    ensures Divides(d, n) <==> Divides(d, Abs(n))
  {
    if Divides(d, n) {
      var k :| Multiple(d, k) == n;
      assert Multiple(d, -k) == -n;
    }
    if Divides(d, Abs(n)) {
      var k :| Multiple(d, k) == Abs(n);
      assert Multiple(d, -k) == -(Abs(n) as int);
    }
  }

  // ----- Normal form -----

  /** Sign in the numerator, both parts divided by their gcd. */
  function Normalized(num: int, denom: int): Rat
    requires denom != 0
  {
    if denom < 0 then Reduced(-num, -denom) else Reduced(num, denom)
  }

  function Reduced(n: int, d: int): Rat
    requires d > 0
  {
    var g := Gcd(Abs(n), d);
    Rat(TruncDiv(n, g), TruncDiv(d, g))
  }

  /** C's division: the quotient is rounded towards zero. */
  function TruncDiv(a: int, b: int): int
    requires b > 0
  {
    if a >= 0 then a / b else -((-a) / b)
  }

  /** C's remainder, which has the sign of the dividend. */
  function TruncMod(a: int, b: int): int
    requires b > 0
  {
    a - b * TruncDiv(a, b)
  }

  lemma TruncDivExact(g: int, k: int)
    requires g > 0
    ensures TruncDiv(Multiple(g, k), g) == k
  {
    if k >= 0 { DivExact(g, k); } else { DivExact(g, -k); assert -(g * k) == g * (-k); }
  }

  lemma DivExact(g: int, k: nat)
    requires g > 0
    ensures g * k >= 0 && (g * k) / g == k
  {
    var x := g * k;
    var q := x / g;
    assert x == g * q + x % g;
    assert g * (k - q) == x % g;
    if k - q > 0 { AtLeast(g, k - q); }
    if q - k > 0 { AtLeast(g, q - k); }
  }

  lemma AtLeast(g: int, k: int)
    requires g > 0 && k > 0
    ensures g * k >= g && g * k >= k
  {
  }

  lemma LowestTerms(n: int, d: int, i: int, j: int)
    requires d > 0 && Multiple(Gcd(Abs(n), d), i) == n && Multiple(Gcd(Abs(n), d), j) == d
    ensures j > 0 && Gcd(Abs(i), j) == 1
  {
    var g := Gcd(Abs(n), d);
    if j <= 0 { Negative(g, j); }
    var h := Gcd(Abs(i), j);
    GcdDivides(Abs(i), j);
    DividesAbs(h, i);
    Nested(g, h, i, n);
    Nested(g, h, j, d);
    DividesAbs(g * h, n);
    GcdIsGreatest(Abs(n), d, g * h);
    var k :| Multiple(g * h, k) == g;
    UnitFactors(g, h, k);
  }

  lemma Negative(g: int, j: int)
    requires g > 0 && j <= 0
    ensures Multiple(g, j) <= 0
  {
    if j < 0 { AtLeast(g, -j); assert g * j == -(g * (-j)); }
  }

  lemma Nested(g: int, h: int, i: int, n: int)
    requires Multiple(g, i) == n && Divides(h, i)
    ensures Divides(g * h, n)
  {
    var p :| Multiple(h, p) == i;
    assert (g * h) * p == g * (h * p);
    assert Multiple(g * h, p) == n;
  }

  lemma UnitFactors(g: int, h: int, k: int)
    requires g > 0 && h >= 0 && Multiple(g * h, k) == g
    ensures h == 1 && k == 1
  {
    var p := h * k;
    assert g * p == g by { assert (g * h) * k == g * (h * k); }
    TruncDivExact(g, p);
    TruncDivExact(g, 1);
    assert p == 1;
    assert h > 0;
    if k <= 0 { Negative(h, k); }
    AtLeast(h, k);
  }

  lemma Cofactor(d: int, n: int) returns (k: int)
    requires Divides(d, n)
    ensures Multiple(d, k) == n
  {
    k :| Multiple(d, k) == n;
  }

  lemma Cross(g: int, i: int, j: int)
    ensures Multiple(g, i) * j == i * Multiple(g, j)
  {
  }

  lemma ReducedIsNormal(n: int, d: int)
    requires d > 0
    ensures Reduced(n, d).Normal() && n * Reduced(n, d).denom == Reduced(n, d).num * d
  {
    var g := Gcd(Abs(n), d);
    GcdDivides(Abs(n), d);
    DividesAbs(g, n);
    var i := Cofactor(g, n);
    var j := Cofactor(g, d);
    TruncDivExact(g, i);
    TruncDivExact(g, j);
    assert Reduced(n, d) == Rat(i, j);
    LowestTerms(n, d, i, j);
    Cross(g, i, j);
  }

  /** The normal form is the same number in lowest terms with a positive denominator. */
  lemma NormalizedIsNormal(num: int, denom: int)
    requires denom != 0
    ensures Normalized(num, denom).Normal() && num * Normalized(num, denom).denom == Normalized(num, denom).num * denom
  {
    if denom < 0 {
      ReducedIsNormal(-num, -denom);
      NegateBoth(num, denom, Normalized(num, denom));
    } else {
      ReducedIsNormal(num, denom);
    }
  }

  lemma NegateBoth(n: int, d: int, r: Rat)
    requires (-n) * r.denom == r.num * (-d)
    ensures n * r.denom == r.num * d
  {
  }

  /** A number has only one normal form. */
  lemma NormalFormIsUnique(x: Rat, y: Rat)
    requires x.Normal() && y.Normal() && x.num * y.denom == y.num * x.denom
    ensures x == y
  {
    DenominatorDivides(x, y);
    DenominatorDivides(y, x);
    var i: int :| Multiple(x.denom, i) == y.denom;
    var j: int :| Multiple(y.denom, j) == x.denom;
    assert Multiple(x.denom * i, j) == x.denom;
    assert i > 0 by { if i <= 0 { Negative(x.denom, i); } }
    UnitFactors(x.denom, i, j);
  }

  lemma DenominatorDivides(x: Rat, y: Rat)
    requires x.Normal() && y.denom > 0 && x.num * y.denom == y.num * x.denom
    ensures Divides(x.denom, y.denom)
  {
    var a, b, c, d := x.num, x.denom, y.num, y.denom;
    var u, v := Bezout(Abs(a), b);
    var w := if a < 0 then -u else u;
    assert u * Abs(a) == w * a;
    Combine(a, b, c, d, w, v);
    assert Multiple(b, w * c + v * d) == d;
  }

  lemma Combine(a: int, b: int, c: int, d: int, w: int, v: int)
    requires w * a + v * b == 1 && a * d == c * b
    ensures b * (w * c + v * d) == d
  {
    var p, q, r := w * a, v * b, w * (c * b);
    assert (p + q) * d == p * d + q * d;
    assert p * d == w * (a * d) == r;
    assert b * (w * c) == r && b * (v * d) == q * d;
    assert b * (w * c + v * d) == b * (w * c) + b * (v * d);
  }

  // ----- Arithmetic and order -----

  function Create(num: int, denom: int): Rat
    requires denom != 0
  {
    Normalized(num, denom)
  }

  function Add(x: Rat, y: Rat): Rat
    requires x.Valid() && y.Valid()
  {
    Den(x, y);
    Create(x.num * y.denom + x.denom * y.num, x.denom * y.denom)
  }

  function Subtract(x: Rat, y: Rat): Rat
    requires x.Valid() && y.Valid()
  {
    Den(x, y);
    Create(x.num * y.denom - x.denom * y.num, x.denom * y.denom)
  }

  function Multiply(x: Rat, y: Rat): Rat
    requires x.Valid() && y.Valid()
  {
    Den(x, y);
    Create(x.num * y.num, x.denom * y.denom)
  }

  function Divide(x: Rat, y: Rat): Rat
    requires x.Valid() && y.Valid() && y.num != 0
  {
    NonZero(x.denom, y.num);
    Create(x.num * y.denom, x.denom * y.num)
  }

  predicate Equal(x: Rat, y: Rat) { x.num * y.denom == x.denom * y.num }

  predicate LessThan(x: Rat, y: Rat) { x.num * y.denom < x.denom * y.num }

  predicate GreaterThan(x: Rat, y: Rat) { x.num * y.denom > x.denom * y.num }

  lemma Den(x: Rat, y: Rat)
    requires x.Valid() && y.Valid()
    ensures x.denom * y.denom > 0
  {
  }

  lemma NonZero(a: int, b: int)
    requires a != 0 && b != 0
    ensures a * b != 0
  {
  }

  lemma Quotient(n: int, d: int, n': int, d': int)
    requires d != 0 && d' != 0 && n * d' == n' * d
    ensures n as real / d as real == n' as real / d' as real
  {
    var a, b, a', b' := n as real, d as real, n' as real, d' as real;
    assert a * b' == a' * b by { assert (n * d') as real == a * b'; assert (n' * d) as real == a' * b; }
    assert a / b == (a * b') / (b * b') == (a' * b) / (b * b') == a' / b';
  }

  lemma CreateValue(num: int, denom: int)
    requires denom != 0
    ensures Create(num, denom).Normal() && Create(num, denom).Value() == num as real / denom as real
  {
    NormalizedIsNormal(num, denom);
    var r := Normalized(num, denom);
    Quotient(r.num, r.denom, num, denom);
  }

  /** Addition and subtraction give the exact result in normal form. */
  lemma SumIsExact(x: Rat, y: Rat)
    requires x.Valid() && y.Valid()
    ensures Add(x, y).Normal() && Add(x, y).Value() == x.Value() + y.Value()
    ensures Subtract(x, y).Normal() && Subtract(x, y).Value() == x.Value() - y.Value()
  {
    Den(x, y);
    Fractions(x.num, x.denom, y.num, y.denom);
    CreateValue(x.num * y.denom + x.denom * y.num, x.denom * y.denom);
    CreateValue(x.num * y.denom - x.denom * y.num, x.denom * y.denom);
  }

  /** Multiplication and division give the exact result in normal form. */
  lemma ProductIsExact(x: Rat, y: Rat)
    requires x.Valid() && y.Valid()
    ensures Multiply(x, y).Normal() && Multiply(x, y).Value() == x.Value() * y.Value()
    ensures y.num != 0 ==> Divide(x, y).Normal() && Divide(x, y).Value() == x.Value() / y.Value()
  {
    Den(x, y);
    Fractions(x.num, x.denom, y.num, y.denom);
    CreateValue(x.num * y.num, x.denom * y.denom);
    if y.num != 0 {
      NonZero(x.denom, y.num);
      CreateValue(x.num * y.denom, x.denom * y.num);
    }
  }

  lemma Fractions(a: int, b: int, c: int, d: int)
    requires b != 0 && d != 0 && b * d != 0
    ensures (a * d + b * c) as real / (b * d) as real == a as real / b as real + c as real / d as real
    ensures (a * d - b * c) as real / (b * d) as real == a as real / b as real - c as real / d as real
    ensures (a * c) as real / (b * d) as real == (a as real / b as real) * (c as real / d as real)
    ensures c != 0 ==> b * c != 0
    ensures c != 0 ==> (a * d) as real / (b * c) as real == (a as real / b as real) / (c as real / d as real)
  {
    ProductAsReal(a, d);
    ProductAsReal(b, c);
    ProductAsReal(b, d);
    ProductAsReal(a, c);
    RealFractions(a as real, b as real, c as real, d as real);
    if c != 0 { NonZero(b, c); }
  }

  lemma ProductAsReal(a: int, b: int)
    ensures (a * b) as real == a as real * b as real
  {
  }

  lemma RealFractions(a: real, b: real, c: real, d: real)
    requires b != 0.0 && d != 0.0 && b * d != 0.0
    ensures (a * d + b * c) / (b * d) == a / b + c / d
    ensures (a * d - b * c) / (b * d) == a / b - c / d
    ensures (a * c) / (b * d) == (a / b) * (c / d)
    ensures c != 0.0 ==> b * c != 0.0 && (a * d) / (b * c) == (a / b) / (c / d)
  {
    var p, q := a / b, c / d;
    assert a == p * b && c == q * d;
    assert a * d == p * (b * d) && b * c == q * (b * d);
    assert a * c == (p * q) * (b * d);
    if c != 0.0 {
      assert q != 0.0;
      assert a * d == (p / q) * (b * c) by { assert p == (p / q) * q; }
    }
  }

  /** The three comparisons decide the order of the exact values. */
  lemma ComparisonIsExact(x: Rat, y: Rat)
    requires x.Valid() && y.Valid()
    ensures LessThan(x, y) <==> x.Value() < y.Value()
    ensures Equal(x, y) <==> x.Value() == y.Value()
    ensures GreaterThan(x, y) <==> x.Value() > y.Value()
  {
    var a, b, c, d := x.num as real, x.denom as real, y.num as real, y.denom as real;
    assert (x.num * y.denom) as real == a * d && (x.denom * y.num) as real == b * c;
    var p, q := a / b, c / d;
    assert a * d == p * (b * d) && b * c == q * (b * d);
    assert b * d > 0.0;
    if p < q { assert p * (b * d) < q * (b * d); }
    if p > q { assert p * (b * d) > q * (b * d); }
  }

  predicate Int16(x: int) { -32767 <= x <= 32767 }

  /** Operands of 16 bits never overflow the 32-bit intermediate results. */
  lemma SmallOperandsFit(x: Rat, y: Rat)
    requires Int16(x.num) && Int16(x.denom) && Int16(y.num) && Int16(y.denom)
    ensures Int32(x.num * y.denom) && Int32(x.denom * y.num) && Int32(x.denom * y.denom) && Int32(x.num * y.num)
    ensures Int32(x.num * y.denom + x.denom * y.num) && Int32(x.num * y.denom - x.denom * y.num)
  {
    ProductBound(x.num, y.denom);
    ProductBound(x.denom, y.num);
    ProductBound(x.denom, y.denom);
    ProductBound(x.num, y.num);
  }

  lemma ProductBound(a: int, b: int)
    requires Int16(a) && Int16(b)
    ensures -32767 * 32767 <= a * b <= 32767 * 32767
  {
    var m := Abs(a) * Abs(b);
    assert m <= 32767 * Abs(b) <= 32767 * 32767;
    assert a * b == m || a * b == -m;
  }

  // ----- The mutable object -----

  class Ratio {
    var num: int
    var denom: int

    ghost function Now(): Rat
      reads this
    {
      Rat(num, denom)
    }

    constructor (num: int, denom: int)
      requires denom != 0
      ensures Now() == Create(num, denom)
    {
      this.num := num;
      this.denom := denom;
      new;
      NormalizeMutable();
    }

    method NormalizeMutable()
      requires denom != 0
      modifies this
      ensures Now() == Normalized(old(num), old(denom))
      ensures Now().Normal() && old(num) * denom == num * old(denom)
    {
      NormalizedIsNormal(num, denom);
      if denom < 0 {
        num := -num;
        denom := -denom;
      }
      var n := ComputeGcd(num, denom);
      if n > 1 {
        num := TruncDiv(num, n);
        denom := TruncDiv(denom, n);
      } else {
        assert TruncDiv(num, 1) == num;
      }
    }
  }
}
