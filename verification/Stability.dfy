/** When a peaking filter of src/dsp/Biquad.h is stable, and what stability means for its output. */
module Stability {
  import opened Biquads

  /** The conditions on the denominator z^2 + a1 z + a2. */
  predicate Stable(c: Coeffs) {
    -1.0 < c.a2 < 1.0 && -(1.0 + c.a2) < c.a1 < 1.0 + c.a2
  }

  /** A complex number. */
  datatype Pole = Pole(re: real, im: real)

  function Norm(x: real, y: real): real {
    x * x + y * y
  }

  predicate Inside(z: Pole) {
    Norm(z.re, z.im) < 1.0
  }

  /** z^2 + a1 z + a2 = (z - p)(z - q). */
  predicate Factors(c: Coeffs, p: Pole, q: Pole) {
    && p.re + q.re == -c.a1 && p.im + q.im == 0.0
    && p.re * q.re - p.im * q.im == c.a2 && p.re * q.im + p.im * q.re == 0.0
  }

  /** The conditions say that both poles lie inside the unit circle. */
  lemma StableIffPolesInside(c: Coeffs, p: Pole, q: Pole)
    requires Factors(c, p, q)
    ensures Stable(c) <==> Inside(p) && Inside(q)
  {
    if p.im == 0.0 {
      assert p == Pole(p.re, 0.0) && q == Pole(q.re, 0.0);
      assert c.a2 == p.re * q.re;
      StableIffReal(c, p.re, q.re);
    } else {
      assert q.im == -p.im;
      SamePart(p.re, q.re, p.im);
      assert q == Pole(p.re, -p.im);
      assert p.im * q.im == -(p.im * p.im);
      StableIffConjugate(c, p.re, p.im);
    }
  }

  lemma StableIffReal(c: Coeffs, x: real, y: real)
    requires c.a1 == -(x + y) && c.a2 == x * y
    ensures Stable(c) <==> Inside(Pole(x, 0.0)) && Inside(Pole(y, 0.0))
  {
    RealPoles(x, y, c.a2);
    UnitSquare(x, Norm(x, 0.0));
    UnitSquare(y, Norm(y, 0.0));
  }

  lemma StableIffConjugate(c: Coeffs, x: real, y: real)
    requires y != 0.0 && c.a1 == -2.0 * x && c.a2 == x * x + y * y
    ensures Stable(c) <==> Inside(Pole(x, y)) && Inside(Pole(x, -y))
  {
    ConjugatePoles(x, y, c.a2);
    assert Norm(x, y) == c.a2 && Norm(x, -y) == c.a2;
  }

  lemma SamePart(x: real, y: real, z: real)
    requires z != 0.0 && x * -z + z * y == 0.0
    ensures x == y
  {
    assert (y - x) * z == 0.0;
  }

  lemma RealPoles(p: real, q: real, a2: real)
    requires a2 == p * q
    ensures -1.0 < a2 < 1.0 && 1.0 + a2 - (p + q) > 0.0 && 1.0 + a2 + (p + q) > 0.0
       <==> -1.0 < p < 1.0 && -1.0 < q < 1.0
  {
    if -1.0 < p < 1.0 && -1.0 < q < 1.0 {
      BothSmall(p, q, a2);
    } else if 1.0 + a2 - (p + q) > 0.0 && 1.0 + a2 + (p + q) > 0.0 {
      OneLarge(p, q, a2);
    }
  }

  lemma UnitSquare(x: real, s: real)
    requires s == x * x
    ensures s < 1.0 <==> -1.0 < x < 1.0
  {
    if -1.0 < x < 1.0 {
      ProductPositive(1.0 - x, 1.0 + x, (1.0 - x) * (1.0 + x));
      assert (1.0 - x) * (1.0 + x) == 1.0 - s;
    } else if x >= 1.0 {
      assert (x - 1.0) * (x + 1.0) == s - 1.0;
    } else {
      assert (-x - 1.0) * (1.0 - x) == s - 1.0;
    }
  }

  lemma BothSmall(p: real, q: real, a2: real)
    requires a2 == p * q && -1.0 < p < 1.0 && -1.0 < q < 1.0
    ensures -1.0 < a2 < 1.0 && 1.0 + a2 - (p + q) > 0.0 && 1.0 + a2 + (p + q) > 0.0
  {
    var x, y, z, w := (1.0 - p) * (1.0 + q), (1.0 + p) * (1.0 - q), (1.0 - p) * (1.0 - q), (1.0 + p) * (1.0 + q);
    ProductPositive(1.0 - p, 1.0 + q, x);
    ProductPositive(1.0 + p, 1.0 - q, y);
    ProductPositive(1.0 - p, 1.0 - q, z);
    ProductPositive(1.0 + p, 1.0 + q, w);
    assert x == 1.0 + q - p - a2 && y == 1.0 - q + p - a2;
    assert z == 1.0 + a2 - (p + q) && w == 1.0 + a2 + (p + q);
  }

  lemma OneLarge(p: real, q: real, a2: real)
    requires a2 == p * q && !(-1.0 < p < 1.0 && -1.0 < q < 1.0)
    requires 1.0 + a2 - (p + q) > 0.0 && 1.0 + a2 + (p + q) > 0.0
    ensures a2 > 1.0
  {
    var z, w := (1.0 - p) * (1.0 - q), (1.0 + p) * (1.0 + q);
    assert z == 1.0 + a2 - (p + q) && w == 1.0 + a2 + (p + q);
    SameSign(1.0 - p, 1.0 - q, z);
    SameSign(1.0 + p, 1.0 + q, w);
  }

  lemma SameSign(x: real, y: real, z: real)
    requires z == x * y && z > 0.0
    ensures (x > 0.0 && y > 0.0) || (x < 0.0 && y < 0.0)
  {
    if x > 0.0 && y < 0.0 {
      ProductPositive(x, -y, -z);
    } else if x < 0.0 && y > 0.0 {
      ProductPositive(-x, y, -z);
    }
  }

  lemma ConjugatePoles(re: real, im: real, a2: real)
    requires im != 0.0 && a2 == re * re + im * im
    ensures -1.0 < a2 && 1.0 + a2 - 2.0 * re > 0.0 && 1.0 + a2 + 2.0 * re > 0.0
  {
    var s := im * im;
    SquarePositive(im, s);
    SquareNonNegative(re);
    SquareNonNegative(1.0 - re);
    SquareNonNegative(1.0 + re);
    assert (1.0 - re) * (1.0 - re) == 1.0 - 2.0 * re + re * re;
    assert (1.0 + re) * (1.0 + re) == 1.0 + 2.0 * re + re * re;
  }

  /** And there always are two such poles; r is the square root of the discriminant's magnitude. */
  lemma PolesExist(c: Coeffs, r: real) returns (p: Pole, q: Pole)
    requires r * r == if c.a1 * c.a1 >= 4.0 * c.a2 then c.a1 * c.a1 - 4.0 * c.a2 else 4.0 * c.a2 - c.a1 * c.a1
    ensures Factors(c, p, q)
  {
    var h, k := -c.a1 / 2.0, r / 2.0;
    assert h * h == c.a1 * c.a1 / 4.0 && k * k == r * r / 4.0;
    if c.a1 * c.a1 >= 4.0 * c.a2 {
      p, q := Pole(h - k, 0.0), Pole(h + k, 0.0);
      assert (h - k) * (h + k) == h * h - k * k;
    } else {
      p, q := Pole(h, -k), Pole(h, k);
      assert -k * k == -(k * k);
      assert h * k + -k * h == 0.0;
    }
  }

  /** A band is stable if and only if the sine of its centre angle is positive. */
  lemma StableIff(m: Maths, fc: real, gainDb: real, fs: real)
    requires m.Lawful() && fs > 0.0 && gainDb >= -10.0
    ensures Stable(PeakingEq(m, fc, gainDb, fs)) <==> m.sin(Angle(m, fc, fs)) > 0.0
  {
    DivisorPositive(m, fc, gainDb, fs);
    var sin, cos := m.sin(Angle(m, fc, fs)), m.cos(Angle(m, fc, fs));
    assert m.OnCircle(Angle(m, fc, fs));
    CosineInside(sin, cos);
    StableFromIff(Alpha(m, fc, fs), m.pow10(gainDb / 40.0), cos);
  }

  lemma CosineInside(sin: real, cos: real)
    requires sin * sin + cos * cos == 1.0
    ensures sin != 0.0 ==> -1.0 < cos < 1.0
  {
    if sin != 0.0 {
      var s, c := sin * sin, cos * cos;
      SquarePositive(sin, s);
      SmallSquare(cos, c);
    }
  }

  lemma SmallSquare(x: real, s: real)
    requires s == x * x && s < 1.0
    ensures -1.0 < x < 1.0
  {
  }

  lemma StableFromIff(alpha: real, a: real, cos: real)
    requires a > 0.0 && 1.0 + alpha / a > 0.0
    ensures Stable(PeakingFrom(alpha, a, cos)) <==> alpha > 0.0 && -1.0 < cos < 1.0
  {
    var q := alpha / a;
    Quotient(alpha, a);
    var c := Normalized(1.0 + alpha * a, -2.0 * cos, 1.0 - alpha * a, 1.0 + q, 1.0 - q);
    SignOfProduct(q, a);
    StableScaled(c, cos, q, 1.0 + q);
  }

  lemma SignOfProduct(q: real, a: real)
    requires a > 0.0
    ensures q * a > 0.0 <==> q > 0.0
  {
  }

  lemma StableScaled(c: Coeffs, cos: real, q: real, d: real)
    requires d == 1.0 + q && d > 0.0 && c.a1 * d == -2.0 * cos && c.a2 * d == 1.0 - q
    ensures Stable(c) <==> q > 0.0 && -1.0 < cos < 1.0
  {
    SignOfProduct(1.0 - c.a2, d);
    SignOfProduct(1.0 + c.a2, d);
    assert (1.0 - c.a2) * d == 2.0 * q;
    assert (1.0 + c.a2) * d == 2.0;
    SignOfProduct(1.0 + c.a2 - c.a1, d);
    SignOfProduct(1.0 + c.a2 + c.a1, d);
    assert (1.0 + c.a2 - c.a1) * d == 2.0 + 2.0 * cos;
    assert (1.0 + c.a2 + c.a1) * d == 2.0 - 2.0 * cos;
  }

  /** The energy left in the last two outputs of a filter that hears nothing more. */
  function Ringing(c: Coeffs, y1: real, y2: real): real {
    (1.0 + c.a2) * (y1 * y1 + y2 * y2) + 2.0 * c.a1 * (y1 * y2)
  }

  /** One silent sample changes it by a square, with the sign of 1 - a2. */
  lemma RingingStep(c: Coeffs, y1: real, y2: real)
    ensures var y := Difference(c, 0.0, 0.0, 0.0, y1, y2);
            Ringing(c, y, y1) == Ringing(c, y1, y2) - (1.0 - c.a2) * ((y - y2) * (y - y2))
  {
    var y := Difference(c, 0.0, 0.0, 0.0, y1, y2);
    EnergyStep(c.a1, c.a2, y1, y2, c.a1 * y1, c.a2 * y2, y);
  }

  lemma EnergyStep(a1: real, a2: real, y1: real, y2: real, p: real, r: real, y: real)
    requires p == a1 * y1 && r == a2 * y2 && y == -p - r
    ensures (1.0 + a2) * (y * y + y1 * y1) + 2.0 * a1 * (y * y1)
         == (1.0 + a2) * (y1 * y1 + y2 * y2) + 2.0 * a1 * (y1 * y2) - (1.0 - a2) * ((y - y2) * (y - y2))
  {
    assert a1 * (y * y1) == p * y && a1 * (y1 * y2) == p * y2;
    assert a2 * (y * y2) == r * y && a2 * (y2 * y2) == r * y2;
    assert p * y == -(y * y) - r * y;
    assert p * y2 == -(y * y2) - r * y2;
    assert (y - y2) * (y - y2) == y * y - 2.0 * (y * y2) + y2 * y2;
  }

  lemma SquareNonNegative(x: real)
    ensures x * x >= 0.0
  {
  }

  /** In a stable filter it is positive until both outputs are zero. */
  lemma RingingNonNegative(c: Coeffs, y1: real, y2: real)
    requires Stable(c)
    ensures Ringing(c, y1, y2) >= 0.0
    ensures Ringing(c, y1, y2) == 0.0 ==> y1 == 0.0 && y2 == 0.0
  {
    RingingPositive(1.0 + c.a2, c.a1, y1, y2);
  }

  /** And it never grows. */
  lemma RingingFalls(c: Coeffs, y1: real, y2: real)
    requires Stable(c)
    ensures Ringing(c, Difference(c, 0.0, 0.0, 0.0, y1, y2), y1) <= Ringing(c, y1, y2)
  {
    var y := Difference(c, 0.0, 0.0, 0.0, y1, y2);
    RingingStep(c, y1, y2);
    LossNonNegative(1.0 - c.a2, y - y2);
  }

  lemma LossNonNegative(f: real, u: real)
    requires f >= 0.0
    ensures f * (u * u) >= 0.0
  {
    SquareNonNegative(u);
    ProductNonNegative(f, u * u);
  }

  lemma ProductNonNegative(x: real, y: real)
    requires x >= 0.0 && y >= 0.0
    ensures x * y >= 0.0
    ensures x > 0.0 && y > 0.0 ==> x * y > 0.0
  {
  }

  lemma RingingPositive(s: real, a1: real, y1: real, y2: real)
    requires -s < a1 < s
    ensures var v := s * (y1 * y1 + y2 * y2) + 2.0 * a1 * (y1 * y2);
            v >= 0.0 && (v == 0.0 ==> y1 == 0.0 && y2 == 0.0)
  {
    SplitSquares(s, a1, y1, y2);
    var v := s * (y1 * y1 + y2 * y2) + 2.0 * a1 * (y1 * y2);
    PositiveForm(s + a1, s - a1, y1 + y2, y1 - y2, 2.0 * v);
  }

  lemma WeightedSquare(f: real, u: real, x: real)
    requires f > 0.0 && x == f * (u * u)
    ensures x >= 0.0 && (u != 0.0 ==> x > 0.0)
  {
    var s := u * u;
    if u != 0.0 {
      SquarePositive(u, s);
      ProductPositive(f, s, x);
    }
  }

  lemma PositiveForm(f: real, g: real, u: real, w: real, v: real)
    requires f > 0.0 && g > 0.0 && v == f * (u * u) + g * (w * w)
    ensures v >= 0.0 && (v == 0.0 ==> u == 0.0 && w == 0.0)
  {
    var x, y := f * (u * u), g * (w * w);
    WeightedSquare(f, u, x);
    WeightedSquare(g, w, y);
    assert v == x + y;
  }

  lemma SplitSquares(s: real, a1: real, y1: real, y2: real)
    ensures 2.0 * (s * (y1 * y1 + y2 * y2) + 2.0 * a1 * (y1 * y2))
         == (s + a1) * ((y1 + y2) * (y1 + y2)) + (s - a1) * ((y1 - y2) * (y1 - y2))
  {
  }

  /** The outputs of a filter that hears nothing more, from its last two. */
  function Rung(c: Coeffs, y1: real, y2: real, n: nat): (real, real) {
    if n == 0 then (y1, y2)
    else
      var (p, q) := Rung(c, y1, y2, n - 1);
      (Difference(c, 0.0, 0.0, 0.0, p, q), p)
  }

  /** So once the input stops, a stable filter's ringing never grows again. */
  lemma {:induction false} StableNeverGrows(c: Coeffs, y1: real, y2: real, n: nat)
    requires Stable(c)
    ensures var (p, q) := Rung(c, y1, y2, n);
            0.0 <= Ringing(c, p, q) <= Ringing(c, y1, y2)
  {
    RingingNonNegative(c, y1, y2);
    if n > 0 {
      StableNeverGrows(c, y1, y2, n - 1);
      var (p, q) := Rung(c, y1, y2, n - 1);
      RingingFalls(c, p, q);
      RingingNonNegative(c, Difference(c, 0.0, 0.0, 0.0, p, q), p);
    }
  }
}
