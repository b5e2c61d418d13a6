/** What a band of src/dsp/Biquad.h goes on sending after its input has ended: exactly which bands
    stay within a bound, whatever they were given. */
module Responses {
  import opened Streams
  import opened Biquads
  import opened Stability

  /** Output n of a filter at rest that hears xs and then silence. */
  function Output(c: Coeffs, xs: seq<real>, n: int): real
    decreases n + 1
  {
    if n < 0 then 0.0
    else Difference(c, At(xs, n), At(xs, n - 1), At(xs, n - 2), Output(c, xs, n - 1), Output(c, xs, n - 2))
  }

  function Silence(k: nat): (s: seq<real>)
    ensures |s| == k && forall i :: 0 <= i < k ==> s[i] == 0.0
  {
    seq(k, _ => 0.0)
  }

  lemma {:induction false} OutputAgrees(c: Coeffs, xs: seq<real>, zs: seq<real>, n: int)
    requires forall k :: k <= n ==> At(xs, k) == At(zs, k)
    ensures Output(c, xs, n) == Output(c, zs, n)
    decreases n + 1
  {
    if n >= 0 {
      OutputAgrees(c, xs, zs, n - 1);
      OutputAgrees(c, xs, zs, n - 2);
    }
  }

  lemma {:induction false} RecurrenceAt(c: Coeffs, zs: seq<real>, n: int)
    requires n < |zs|
    ensures At(Recurrence(DifferenceRule(c), zs), n) == Output(c, zs, n)
    decreases |zs|
  {
    if n >= 0 {
      var last := |zs| - 1;
      var init := zs[..last];
      if n < last {
        RecurrenceAt(c, init, n);
        OutputAgrees(c, init, zs, n);
      } else {
        RecurrenceAt(c, init, n - 1);
        RecurrenceAt(c, init, n - 2);
        OutputAgrees(c, init, zs, n - 1);
        OutputAgrees(c, init, zs, n - 2);
      }
    }
  }

  /** This is what the code's filter sends. */
  lemma OutputIsRun(c: Coeffs, xs: seq<real>, k: nat, n: nat)
    requires n < |xs| + k
    ensures Run(Filter(c), REST, xs + Silence(k))[n] == Output(c, xs, n)
  {
    var zs := xs + Silence(k);
    FilterIsDifference(c, zs);
    RecurrenceAt(c, zs, n);
    OutputAgrees(c, xs, zs, n);
  }

  /** Once the input has left the filter, each two outputs decide the next. */
  lemma {:induction false} OutputRings(c: Coeffs, xs: seq<real>, k: nat)
    ensures Rung(c, Output(c, xs, |xs| + 1), Output(c, xs, |xs|), k)
         == (Output(c, xs, |xs| + 1 + k), Output(c, xs, |xs| + k))
  {
    if k > 0 {
      OutputRings(c, xs, k - 1);
    }
  }

  ghost predicate AlwaysWithin(c: Coeffs, xs: seq<real>, bound: real) {
    forall n: nat :: -bound <= Output(c, xs, n) <= bound
  }

  ghost predicate HasBound(c: Coeffs, xs: seq<real>) {
    exists bound :: AlwaysWithin(c, xs, bound)
  }

  /** Whatever the filter is given, its output stays within some bound. */
  ghost predicate Tame(c: Coeffs) {
    forall xs :: HasBound(c, xs)
  }

  // ------------------------------------------------------------- bounded

  /** A bound for finitely many outputs. */
  lemma {:induction false} FiniteBound(c: Coeffs, xs: seq<real>, n: nat) returns (bound: real)
    ensures bound >= 0.0 && forall k :: 0 <= k < n ==> -bound <= Output(c, xs, k) <= bound
  {
    if n == 0 {
      bound := 0.0;
    } else {
      bound := FiniteBound(c, xs, n - 1);
      var y := Output(c, xs, n - 1);
      bound := if y > bound then y else if -y > bound then -y else bound;
    }
  }

  /** The energy bounds each of the two outputs. */
  lemma EnergyBounds(s: real, a1: real, y1: real, y2: real, k: real, v: real)
    requires 0.0 < k <= s + a1 && k <= s - a1
    requires v == s * (y1 * y1 + y2 * y2) + 2.0 * a1 * (y1 * y2)
    ensures k * (y1 * y1) <= v
  {
    var u, w := (y1 + y2) * (y1 + y2), (y1 - y2) * (y1 - y2);
    SplitSquares(s, a1, y1, y2);
    SquareNonNegative(y1 + y2);
    SquareNonNegative(y1 - y2);
    SquareNonNegative(y2);
    Less(k, s + a1, u);
    Less(k, s - a1, w);
    assert u + w == 2.0 * (y1 * y1) + 2.0 * (y2 * y2);
    assert k * u + k * w == 2.0 * (k * (y1 * y1)) + 2.0 * (k * (y2 * y2));
    ProductNonNegative(k, y2 * y2);
  }

  lemma Less(k: real, f: real, u: real)
    requires k <= f && u >= 0.0
    ensures k * u <= f * u
  {
  }

  lemma SquareBound(y: real, k: real, v: real, bound: real)
    requires k > 0.0 && k * (y * y) <= v && bound == 1.0 + v / k
    ensures -bound <= y <= bound
  {
    var s := y * y;
    Quotient(v, k);
    QuotientAtLeast(s, v / k, k);
    UnitOrSquare(y, s);
  }

  lemma QuotientAtLeast(s: real, q: real, k: real)
    requires k > 0.0 && k * s <= q * k
    ensures s <= q
  {
    if s > q {
      ProductPositive(k, s - q, k * (s - q));
    }
  }

  lemma UnitOrSquare(y: real, s: real)
    requires s == y * y
    ensures -(1.0 + s) <= y <= 1.0 + s
  {
    SquareNonNegative(y);
    SquareNonNegative(y - 1.0);
    SquareNonNegative(y + 1.0);
    assert (y - 1.0) * (y - 1.0) == s - 2.0 * y + 1.0;
    assert (y + 1.0) * (y + 1.0) == s + 2.0 * y + 1.0;
  }

  lemma RungWithin(c: Coeffs, y1: real, y2: real, n: nat, k: real)
    requires Stable(c) && 0.0 < k <= 1.0 + c.a2 + c.a1 && k <= 1.0 + c.a2 - c.a1
    ensures var bound := 1.0 + Ringing(c, y1, y2) / k; -bound <= Rung(c, y1, y2, n).0 <= bound
  {
    var (p, q) := Rung(c, y1, y2, n);
    StableNeverGrows(c, y1, y2, n);
    EnergyWithin(c, p, q, k, Ringing(c, y1, y2));
  }

  lemma EnergyWithin(c: Coeffs, p: real, q: real, k: real, v: real)
    requires 0.0 < k <= 1.0 + c.a2 + c.a1 && k <= 1.0 + c.a2 - c.a1 && Ringing(c, p, q) <= v
    ensures var bound := 1.0 + v / k; -bound <= p <= bound
  {
    assert k * (p * p) <= v by {
      EnergyBounds(1.0 + c.a2, c.a1, p, q, k, Ringing(c, p, q));
    }
    SquareBound(p, k, v, 1.0 + v / k);
  }

  lemma StableIsTame(c: Coeffs)
    requires Stable(c)
    ensures Tame(c)
  {
    var k := if c.a1 >= 0.0 then 1.0 + c.a2 - c.a1 else 1.0 + c.a2 + c.a1;
    forall xs: seq<real>
      ensures HasBound(c, xs)
    {
      var m := |xs|;
      var y1, y2 := Output(c, xs, m + 1), Output(c, xs, m);
      var first := FiniteBound(c, xs, m + 1);
      var later := 1.0 + Ringing(c, y1, y2) / k;
      var bound := if first > later then first else later;
      forall n: nat
        ensures -bound <= Output(c, xs, n) <= bound
      {
        if n > m {
          OutputRings(c, xs, n - m - 1);
          RungWithin(c, y1, y2, n - m - 1, k);
        }
      }
      assert AlwaysWithin(c, xs, bound);
    }
  }

  /** A neutral filter sends what it hears. */
  lemma {:induction false} NeutralOutput(c: Coeffs, xs: seq<real>, n: int)
    requires Neutral(c)
    ensures Output(c, xs, n) == At(xs, n)
    decreases n + 1
  {
    if n >= 0 {
      NeutralOutput(c, xs, n - 1);
      NeutralOutput(c, xs, n - 2);
      Cancels(c.b1, c.a1, At(xs, n - 1), Output(c, xs, n - 1));
      Cancels(c.b2, c.a2, At(xs, n - 2), Output(c, xs, n - 2));
    }
  }

  lemma NeutralIsTame(c: Coeffs)
    requires Neutral(c)
    ensures Tame(c)
  {
    forall xs: seq<real>
      ensures HasBound(c, xs)
    {
      var bound := FiniteBound(c, xs, |xs|);
      forall n: nat
        ensures -bound <= Output(c, xs, n) <= bound
      {
        NeutralOutput(c, xs, n);
      }
      assert AlwaysWithin(c, xs, bound);
    }
  }

  // ------------------------------------------------------------- growing

  /** The product a silent filter multiplies by a2 with every sample. */
  function Casoratian(c: Coeffs, y1: real, y2: real): real {
    y1 * y1 + c.a1 * (y1 * y2) + c.a2 * (y2 * y2)
  }

  lemma CasoratianStep(c: Coeffs, y1: real, y2: real)
    ensures Casoratian(c, Difference(c, 0.0, 0.0, 0.0, y1, y2), y1) == c.a2 * Casoratian(c, y1, y2)
  {
    var y := Difference(c, 0.0, 0.0, 0.0, y1, y2);
    ProductStep(c.a1, c.a2, y1, y2, c.a1 * y1, c.a2 * y2, y);
  }

  lemma ProductStep(a1: real, a2: real, y1: real, y2: real, p: real, r: real, y: real)
    requires p == a1 * y1 && r == a2 * y2 && y == -p - r
    ensures y * y + a1 * (y * y1) + a2 * (y1 * y1) == a2 * (y1 * y1 + a1 * (y1 * y2) + a2 * (y2 * y2))
  {
    assert a1 * (y * y1) == p * y;
    assert y * y + p * y == y * (y + p) == -(y * r);
    assert a1 * (y1 * y2) == p * y2 && a2 * (y2 * y2) == r * y2;
    assert p * y2 + r * y2 == -(y * y2);
    assert a2 * (y * y2) == y * r;
  }

  /** A product multiplied by a2 above one grows at least by the same amount each time. */
  lemma {:induction false} GrowsBy(f: nat -> real, a2: real, e: real, n: nat)
    requires a2 > 1.0 && e > 0.0 && e == (a2 - 1.0) * f(0) && forall k: nat :: f(k + 1) == a2 * f(k)
    ensures f(n) >= f(0) + n as real * e
  {
    if n > 0 {
      GrowsBy(f, a2, e, n - 1);
      assert f(n - 1 + 1) == a2 * f(n - 1);
      OneMore(f(n - 1), f(0), a2, e, n - 1);
    }
  }

  function CasoratianAt(c: Coeffs, y1: real, y2: real, n: nat): real {
    Casoratian(c, Rung(c, y1, y2, n).0, Rung(c, y1, y2, n).1)
  }

  lemma CasoratianNext(c: Coeffs, y1: real, y2: real, n: nat)
    ensures CasoratianAt(c, y1, y2, n + 1) == c.a2 * CasoratianAt(c, y1, y2, n)
  {
    var (p, q) := Rung(c, y1, y2, n);
    CasoratianStep(c, p, q);
  }

  lemma OneMore(d: real, d0: real, a2: real, e: real, n: nat)
    requires a2 > 1.0 && e == (a2 - 1.0) * d0 && e > 0.0 && d >= d0 + n as real * e
    ensures a2 * d >= d0 + (n + 1) as real * e
  {
    assert n as real * e >= 0.0;
    Less(d0, d, a2 - 1.0);
    assert a2 * d == d + d * (a2 - 1.0);
    assert (n + 1) as real * e == n as real * e + e;
  }

  lemma ProductWithin(p: real, q: real, b: real)
    requires -b <= p <= b && -b <= q <= b
    ensures -(b * b) <= p * q <= b * b
  {
    ProductNonNegative(b - p, b + q);
    ProductNonNegative(b + p, b - q);
    ProductNonNegative(b - p, b - q);
    ProductNonNegative(b + p, b + q);
    assert (b - p) * (b + q) + (b + p) * (b - q) == 2.0 * (b * b) - 2.0 * (p * q);
    assert (b - p) * (b - q) + (b + p) * (b + q) == 2.0 * (b * b) + 2.0 * (p * q);
  }

  /** Outputs within a bound bound the product. */
  lemma CasoratianWithin(c: Coeffs, p: real, q: real, b: real, m: real)
    requires c.a2 > 0.0 && -b <= p <= b && -b <= q <= b
    requires m == (1.0 + (if c.a1 >= 0.0 then c.a1 else -c.a1) + c.a2) * (b * b)
    ensures Casoratian(c, p, q) <= m
  {
    ProductWithin(p, p, b);
    ProductWithin(p, q, b);
    ProductWithin(q, q, b);
    SumWithin(c.a1, c.a2, p * p, p * q, q * q, b * b, if c.a1 >= 0.0 then c.a1 else -c.a1);
  }

  lemma SumWithin(a1: real, a2: real, x: real, y: real, z: real, b: real, h: real)
    requires a2 > 0.0 && x <= b && -b <= y <= b && z <= b && h == if a1 >= 0.0 then a1 else -a1
    ensures x + a1 * y + a2 * z <= (1.0 + h + a2) * b
  {
    Scaled(a1, y, b, h);
    Less(z, b, a2);
    assert (1.0 + h + a2) * b == b + h * b + a2 * b;
  }

  lemma Scaled(a1: real, y: real, b: real, h: real)
    requires -b <= y <= b && h == if a1 >= 0.0 then a1 else -a1
    ensures a1 * y <= h * b
  {
    if a1 >= 0.0 {
      Less(y, b, a1);
    } else {
      Less(-y, b, h);
      assert a1 * y == -y * h;
    }
  }

  /** So some output leaves any bound. */
  lemma Unbounded(c: Coeffs, xs: seq<real>, bound: real)
    requires c.a2 > 1.0 && Casoratian(c, Output(c, xs, |xs| + 1), Output(c, xs, |xs|)) > 0.0
    ensures !AlwaysWithin(c, xs, bound)
  {
    if AlwaysWithin(c, xs, bound) {
      var m := (1.0 + (if c.a1 >= 0.0 then c.a1 else -c.a1) + c.a2) * (bound * bound);
      var n := PassesAt(c, Output(c, xs, |xs| + 1), Output(c, xs, |xs|), m);
      OutputRings(c, xs, n);
      CasoratianWithin(c, Output(c, xs, |xs| + 1 + n), Output(c, xs, |xs| + n), bound, m);
      assert false;
    }
  }

  /** The product passes any m. */
  lemma PassesAt(c: Coeffs, y1: real, y2: real, m: real) returns (n: nat)
    requires c.a2 > 1.0 && Casoratian(c, y1, y2) > 0.0
    ensures CasoratianAt(c, y1, y2, n) > m
  {
    var f := (k: nat) => CasoratianAt(c, y1, y2, k);
    forall k: nat
      ensures f(k + 1) == c.a2 * f(k)
    {
      CasoratianNext(c, y1, y2, k);
    }
    n := GrowsPast(f, c.a2, m);
  }

  lemma GrowsPast(f: nat -> real, a2: real, m: real) returns (n: nat)
    requires a2 > 1.0 && f(0) > 0.0 && forall k: nat :: f(k + 1) == a2 * f(k)
    ensures f(n) > m
  {
    var e := (a2 - 1.0) * f(0);
    ProductPositive(a2 - 1.0, f(0), e);
    n := EnoughSteps(m, e);
    GrowsBy(f, a2, e, n);
  }

  lemma EnoughSteps(m: real, e: real) returns (n: nat)
    requires e > 0.0
    ensures n as real * e >= m
  {
    var q := m / e;
    Quotient(m, e);
    n := if q <= 0.0 then 0 else q.Floor + 1;
    Less(q, n as real, e);
  }

  // ------------------------------------------------------------- the bands

  /** The coefficients in terms of p = alpha A, q = alpha / A and d = 1 + q. */
  predicate Band(c: Coeffs, cos: real, p: real, q: real, d: real) {
    && d == 1.0 + q && d > 0.0 && c.b0 * d == 1.0 + p && c.b1 * d == -2.0 * cos && c.b2 * d == 1.0 - p
    && c.a1 * d == -2.0 * cos && c.a2 * d == 1.0 - q
  }

  /** What the second output owes to the input directly. */
  function Direct(c: Coeffs): real {
    c.b2 - c.a2 * c.b0
  }

  predicate EchoIs(c: Coeffs, cos: real, v: real) {
    c.b1 - c.a1 * c.b0 == -cos * v
  }

  predicate SineIs(c: Coeffs, cos: real, s: real) {
    1.0 + c.a1 * cos + c.a2 * (cos * cos) == s
  }

  lemma BandEcho(c: Coeffs, cos: real, p: real, q: real, d: real)
    requires Band(c, cos, p, q, d)
    ensures EchoIs(c, cos, Direct(c))
  {
    DirectTerms(c.b0, c.b2, c.a2, p, q, d);
    MiddleTerm(c.b0, c.b1, c.b2, c.a1, c.a2, cos, p, q, d);
  }

  lemma BandDirect(c: Coeffs, cos: real, p: real, q: real, d: real)
    requires Band(c, cos, p, q, d) && p != q
    ensures Direct(c) != 0.0
  {
    DirectTerms(c.b0, c.b2, c.a2, p, q, d);
  }

  lemma BandSine(c: Coeffs, cos: real, s: real, p: real, q: real, d: real)
    requires Band(c, cos, p, q, d) && s + cos * cos == 1.0
    ensures SineIs(c, cos, s)
  {
    SineTerm(c.a1, c.a2, cos, s, q, d);
  }

  /** After one sample of one, the product starts from the square of that times the sine's square s. */
  lemma StartCasoratian(c: Coeffs, cos: real, v: real, s: real)
    requires EchoIs(c, cos, v) && SineIs(c, cos, s) && v == Direct(c)
    ensures Casoratian(c, Output(c, [1.0], 2), Output(c, [1.0], 1)) == v * v * s
  {
    var y1, y2 := FirstOutputs(c);
    StartFrom(c, y1, y2, cos, v, s);
  }

  lemma StartFrom(c: Coeffs, y1: real, y2: real, cos: real, v: real, s: real)
    requires y1 == -cos * v && y2 == v - c.a1 * y1 && SineIs(c, cos, s)
    ensures Casoratian(c, y2, y1) == v * v * s
  {
    StartProduct(c.a1, c.a2, y1, y2, v, cos, s);
  }

  lemma FirstOutputs(c: Coeffs) returns (y1: real, y2: real)
    ensures y1 == c.b1 - c.a1 * c.b0 && y2 == Direct(c) - c.a1 * y1
    ensures Output(c, [1.0], 1) == y1 && Output(c, [1.0], 2) == y2
  {
    var y0 := Output(c, [1.0], 0);
    y1 := Output(c, [1.0], 1);
    y2 := Output(c, [1.0], 2);
    assert y0 == Difference(c, 1.0, 0.0, 0.0, 0.0, 0.0);
    assert y1 == Difference(c, 0.0, 1.0, 0.0, y0, 0.0);
    assert y2 == Difference(c, 0.0, 0.0, 1.0, y1, y0);
  }

  lemma DirectTerms(b0: real, b2: real, a2: real, p: real, q: real, d: real)
    requires d == 1.0 + q && d > 0.0 && b0 * d == 1.0 + p && b2 * d == 1.0 - p && a2 * d == 1.0 - q
    ensures (b2 - a2 * b0) * (d * d) == 2.0 * (q - p)
    ensures p != q ==> b2 - a2 * b0 != 0.0
  {
    var v := b2 - a2 * b0;
    assert v * (d * d) == (b2 * d) * d - (a2 * d) * (b0 * d);
    assert (1.0 - p) * (1.0 + q) - (1.0 - q) * (1.0 + p) == 2.0 * (q - p);
    if v == 0.0 {
      assert v * (d * d) == 0.0;
    }
  }

  /** The first echo is -cos times the second's direct part. */
  lemma MiddleTerm(b0: real, b1: real, b2: real, a1: real, a2: real, cos: real, p: real, q: real, d: real)
    requires d == 1.0 + q && d > 0.0 && b0 * d == 1.0 + p && b1 * d == -2.0 * cos && a1 * d == -2.0 * cos
    requires (b2 - a2 * b0) * (d * d) == 2.0 * (q - p)
    ensures b1 - a1 * b0 == -cos * (b2 - a2 * b0)
  {
    var u, v, dd := b1 - a1 * b0, b2 - a2 * b0, d * d;
    assert u * dd == (b1 * d) * d - (a1 * d) * (b0 * d);
    assert (-2.0 * cos) * (1.0 + q) - (-2.0 * cos) * (1.0 + p) == -cos * (2.0 * (q - p));
    assert (-cos * v) * dd == -cos * (v * dd);
    ProductPositive(d, d, dd);
    CancelFactor(u, -cos * v, dd);
  }

  lemma SineTerm(a1: real, a2: real, cos: real, s: real, q: real, d: real)
    requires d == 1.0 + q && d > 0.0 && a1 * d == -2.0 * cos && a2 * d == 1.0 - q && s + cos * cos == 1.0
    ensures 1.0 + a1 * cos + a2 * (cos * cos) == s
  {
    var k := cos * cos;
    Expand(1.0, a1, a2, cos, k, d);
    assert (-2.0 * cos) * cos == -2.0 * k;
    assert d + -2.0 * k + (1.0 - q) * k == d * (1.0 - k);
    CancelFactor(1.0 + a1 * cos + a2 * k, s, d);
  }

  lemma StartProduct(a1: real, a2: real, y1: real, y2: real, v: real, cos: real, s: real)
    requires y1 == -cos * v && y2 == v - a1 * y1 && 1.0 + a1 * cos + a2 * (cos * cos) == s
    ensures y2 * y2 + a1 * (y2 * y1) + a2 * (y1 * y1) == v * v * s
  {
    assert a1 * (y2 * y1) == y2 * (a1 * y1);
    assert y2 * y2 + y2 * (a1 * y1) == y2 * v;
    var w := a1 * cos;
    assert a1 * y1 == -(w * v);
    assert y2 * v == v * v + w * (v * v);
    assert y1 * y1 == (cos * cos) * (v * v);
    assert v * v * s == (v * v) * (1.0 + w + a2 * (cos * cos));
    assert a2 * ((cos * cos) * (v * v)) == (v * v) * (a2 * (cos * cos));
  }

  /** A filter with a2 above one that rings at all, given a single sample, leaves any bound. */
  lemma GrowsFromStart(c: Coeffs, cos: real, v: real, s: real)
    requires c.a2 > 1.0 && v != 0.0 && s > 0.0 && EchoIs(c, cos, v) && SineIs(c, cos, s) && v == Direct(c)
    ensures !HasBound(c, [1.0])
  {
    StartCasoratian(c, cos, v, s);
    SquareTimes(v, s, v * v * s);
    forall bound
      ensures !AlwaysWithin(c, [1.0], bound)
    {
      Unbounded(c, [1.0], bound);
    }
  }

  /** Such is a band with a negative sine and a gain other than one. */
  lemma NegativeSineGrows(alpha: real, a: real, cos: real, s: real)
    requires a > 0.0 && a != 1.0 && alpha < 0.0 && 1.0 + alpha / a > 0.0 && s > 0.0 && s + cos * cos == 1.0
    ensures !HasBound(PeakingFrom(alpha, a, cos), [1.0])
  {
    var c, p, q := PeakingFrom(alpha, a, cos), alpha * a, alpha / a;
    assert Band(c, cos, p, q, 1.0 + q);
    BelowZero(alpha, a, p, q);
    BandGrows(c, cos, s, p, q, 1.0 + q);
  }

  lemma BandGrows(c: Coeffs, cos: real, s: real, p: real, q: real, d: real)
    requires Band(c, cos, p, q, d) && q < 0.0 && p != q && s > 0.0 && s + cos * cos == 1.0
    ensures !HasBound(c, [1.0])
  {
    BandAboveOne(c, cos, p, q, d);
    BandEcho(c, cos, p, q, d);
    BandSine(c, cos, s, p, q, d);
    BandDirect(c, cos, p, q, d);
    GrowsFromStart(c, cos, Direct(c), s);
  }

  lemma BelowZero(alpha: real, a: real, p: real, q: real)
    requires a > 0.0 && a != 1.0 && alpha < 0.0 && p == alpha * a && q == alpha / a
    ensures q < 0.0 && p != q
  {
    Ratio(alpha, a, q);
    NegativeRatio(alpha, a, q);
    GainSeparates(p, q, a);
  }

  lemma SquareTimes(v: real, s: real, z: real)
    requires v != 0.0 && s > 0.0 && z == v * v * s
    ensures z > 0.0
  {
    var w := v * v;
    SquarePositive(v, w);
    ProductPositive(w, s, z);
  }

  lemma NegativeRatio(alpha: real, a: real, q: real)
    requires a > 0.0 && alpha < 0.0 && q == alpha / a
    ensures q < 0.0
  {
    Quotient(alpha, a);
    if q >= 0.0 {
      ProductNonNegative(q, a);
    }
  }

  lemma GainSeparates(p: real, q: real, a: real)
    requires q < 0.0 && a > 0.0 && a != 1.0 && q * (a * a) == p
    ensures p != q
  {
    assert q * (a * a) - q == q * (a - 1.0) * (a + 1.0);
    NonZeroProduct(q, a - 1.0);
    NonZeroProduct(q * (a - 1.0), a + 1.0);
  }

  lemma NonZeroProduct(x: real, y: real)
    requires x != 0.0 && y != 0.0
    ensures x * y != 0.0
  {
  }

  lemma BandAboveOne(c: Coeffs, cos: real, p: real, q: real, d: real)
    requires Band(c, cos, p, q, d) && q < 0.0
    ensures c.a2 > 1.0
  {
    assert (c.a2 - 1.0) * d == -2.0 * q;
    SignOfProduct(c.a2 - 1.0, d);
  }

  /** A zero sine leaves nothing of the band, whatever its gain. */
  lemma ZeroSineIsNeutral(a: real, cos: real)
    requires a > 0.0 && 1.0 + 0.0 / a > 0.0
    ensures Neutral(PeakingFrom(0.0, a, cos))
  {
    assert 0.0 / a == 0.0 && 0.0 * a == 0.0;
  }

  /** A band stays within a bound on every input if and only if the sine of its centre angle is not
      negative or its gain is 0 dB. */
  lemma TameIff(m: Maths, fc: real, gainDb: real, fs: real)
    requires m.Lawful() && fs > 0.0 && gainDb >= -10.0
    ensures Tame(PeakingEq(m, fc, gainDb, fs)) <==> m.sin(Angle(m, fc, fs)) >= 0.0 || gainDb == 0.0
  {
    DivisorPositive(m, fc, gainDb, fs);
    var sin, cos := m.sin(Angle(m, fc, fs)), m.cos(Angle(m, fc, fs));
    var a, alpha := m.pow10(gainDb / 40.0), Alpha(m, fc, fs);
    assert m.OnCircle(Angle(m, fc, fs));
    if sin > 0.0 {
      StableIff(m, fc, gainDb, fs);
      StableIsTame(PeakingEq(m, fc, gainDb, fs));
    } else if gainDb == 0.0 {
      ZeroGainIsNeutral(m, fc, fs);
      NeutralIsTame(PeakingEq(m, fc, gainDb, fs));
    } else if sin == 0.0 {
      assert alpha == 0.0;
      ZeroSineIsNeutral(a, cos);
      NeutralIsTame(PeakingEq(m, fc, gainDb, fs));
    } else {
      assert alpha < 0.0 && a != 1.0;
      SquarePositive(sin, sin * sin);
      NegativeSineGrows(alpha, a, cos, sin * sin);
    }
  }

  /** In frequencies: up to half the sample rate every gain is safe; between half and the whole only
      0 dB is. */
  lemma TameBelowHalfIff(m: Maths, fc: real, gainDb: real, fs: real)
    requires m.Lawful() && gainDb >= -10.0 && 0.0 < fc < fs
    ensures Tame(PeakingEq(m, fc, gainDb, fs)) <==> fc <= fs / 2.0 || gainDb == 0.0
  {
    TameIff(m, fc, gainDb, fs);
    AngleAgainstPi(m.pi, fc, fs, Angle(m, fc, fs));
    assert m.Signed(Angle(m, fc, fs));
  }

  /** So the top band of an equalizer at 32 kHz: any gain but 0 dB, and a single sample never dies away. */
  lemma TopBandAt32kHz(m: Maths, gainDb: real)
    requires m.Lawful() && gainDb >= -10.0 && gainDb != 0.0
    ensures !Tame(PeakingEq(m, 20000.0, gainDb, 32000.0))
  {
    TameBelowHalfIff(m, 20000.0, gainDb, 32000.0);
  }

  lemma AngleAgainstPi(pi: real, fc: real, fs: real, w: real)
    requires pi > 0.0 && 0.0 < fc < fs && w == 2.0 * pi * fc / fs
    ensures 0.0 < w < 2.0 * pi
    ensures w < pi <==> fc < fs / 2.0
    ensures w == pi <==> fc == fs / 2.0
  {
    Quotient(2.0 * pi * fc, fs);
    var h := 2.0 * fc - fs;
    assert (w - pi) * fs == pi * h;
    assert (2.0 * pi - w) * fs == 2.0 * (pi * (fs - fc));
    assert w * fs == 2.0 * (pi * fc);
    ProductPositive(pi, fc, pi * fc);
    ProductPositive(pi, fs - fc, pi * (fs - fc));
    SignOfProduct(w, fs);
    SignOfProduct(2.0 * pi - w, fs);
    SignOfProduct(h, pi);
    SignOfProduct(-h, pi);
    SignOfProduct(w - pi, fs);
    SignOfProduct(pi - w, fs);
    assert (pi - w) * fs == -h * pi;
  }
}
