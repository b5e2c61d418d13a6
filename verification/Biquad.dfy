/** Sample-by-sample machines over streams of reals. */
module Streams {

  /** One sample out, and the state for the next. */
  datatype Out<S> = Out(y: real, s: S)

  /** The state before sample k of a stream. */
  function StateAt<S>(f: (S, real) -> Out<S>, s: S, xs: seq<real>, k: nat): S
    requires k <= |xs|
  {
    if k == 0 then s else f(StateAt(f, s, xs, k - 1), xs[k - 1]).s
  }

  function OutAt<S>(f: (S, real) -> Out<S>, s: S, xs: seq<real>, k: nat): real
    requires k < |xs|
  {
    f(StateAt(f, s, xs, k), xs[k]).y
  }

  /** A whole stream through a machine. */
  function Run<S>(f: (S, real) -> Out<S>, s: S, xs: seq<real>): (ys: seq<real>)
    ensures |ys| == |xs|
  {
    if xs == [] then []
    else
      var n := |xs| - 1;
      Run(f, s, xs[..n]) + [f(StateAt(f, s, xs[..n], n), xs[n]).y]
  }

  lemma {:induction false} StateConcat<S>(f: (S, real) -> Out<S>, s: S, xs: seq<real>, ys: seq<real>, k: nat)
    requires k <= |xs| + |ys|
    ensures k <= |xs| ==> StateAt(f, s, xs + ys, k) == StateAt(f, s, xs, k)
    ensures k >= |xs| ==>
              StateAt(f, s, xs + ys, k) == StateAt(f, StateAt(f, s, xs, |xs|), ys, k - |xs|)
  {
    if k > 0 {
      StateConcat(f, s, xs, ys, k - 1);
    }
  }

  lemma RunSnoc<S>(f: (S, real) -> Out<S>, s: S, xs: seq<real>, x: real)
    ensures Run(f, s, xs + [x]) == Run(f, s, xs) + [f(StateAt(f, s, xs, |xs|), x).y]
    ensures StateAt(f, s, xs + [x], |xs| + 1) == f(StateAt(f, s, xs, |xs|), x).s
  {
    assert (xs + [x])[..|xs|] == xs;
    StateConcat(f, s, xs, [x], |xs|);
  }

  /** Sample k of the output. */
  lemma {:induction false} RunAt<S>(f: (S, real) -> Out<S>, s: S, xs: seq<real>, k: nat)
    requires k < |xs|
    ensures Run(f, s, xs)[k] == OutAt(f, s, xs, k)
  {
    var n := |xs| - 1;
    var init := xs[..n];
    assert xs == init + [xs[n]];
    StateConcat(f, s, init, [xs[n]], k);
    if k < n {
      RunAt(f, s, init, k);
    }
  }

  /** A stream may be cut anywhere: the second block goes on from the state the first one left. */
  lemma {:induction false} RunConcat<S>(f: (S, real) -> Out<S>, s: S, xs: seq<real>, ys: seq<real>)
    ensures Run(f, s, xs + ys) == Run(f, s, xs) + Run(f, StateAt(f, s, xs, |xs|), ys)
    decreases |ys|
  {
    if ys == [] {
      assert xs + ys == xs;
    } else {
      var n := |ys| - 1;
      var init, y := ys[..n], ys[n];
      RunConcat(f, s, xs, init);
      assert xs + ys == (xs + init) + [y] && ys == init + [y];
      RunSnoc(f, s, xs + init, y);
      RunSnoc(f, StateAt(f, s, xs, |xs|), init, y);
      StateConcat(f, s, xs, init, |xs| + n);
    }
  }

  /** A machine that passes every sample from a state and stays in it is the identity. */
  lemma {:induction false} RunIdentity<S>(f: (S, real) -> Out<S>, s: S, xs: seq<real>)
    requires forall x :: f(s, x) == Out(x, s)
    ensures StateAt(f, s, xs, |xs|) == s && Run(f, s, xs) == xs
  {
    if xs != [] {
      var n := |xs| - 1;
      RunIdentity(f, s, xs[..n]);
      assert xs == xs[..n] + [xs[n]];
      RunSnoc(f, s, xs[..n], xs[n]);
    }
  }

  // ------------------------------------------------------------- recurrences of order two

  /** A sample of a stream that was silent before it began. */
  function At(xs: seq<real>, k: int): real {
    if 0 <= k < |xs| then xs[k] else 0.0
  }

  /** The stream y[n] = next(x[n], x[n-1], x[n-2], y[n-1], y[n-2]). */
  function Recurrence(next: (real, real, real, real, real) -> real, xs: seq<real>): (ys: seq<real>)
    ensures |ys| == |xs|
  {
    if xs == [] then []
    else
      var n := |xs| - 1;
      var ys := Recurrence(next, xs[..n]);
      ys + [next(xs[n], At(xs, n - 1), At(xs, n - 2), At(ys, n - 1), At(ys, n - 2))]
  }

  /** `knows` relates a machine's state to the last two inputs and outputs, closely enough for the
      machine to follow the recurrence. */
  ghost predicate Follows<S(!new)>(f: (S, real) -> Out<S>, next: (real, real, real, real, real) -> real,
                                   knows: (S, real, real, real, real) -> bool)
  {
    forall s, x, x1, x2, y1, y2 {:trigger knows(s, x1, x2, y1, y2), f(s, x)} :: knows(s, x1, x2, y1, y2) ==>
      && f(s, x).y == next(x, x1, x2, y1, y2)
      && knows(f(s, x).s, x, x1, f(s, x).y, y1)
  }

  /** Such a machine computes the recurrence. */
  lemma {:induction false} RunIsRecurrence<S(!new)>(
    f: (S, real) -> Out<S>, next: (real, real, real, real, real) -> real,
    knows: (S, real, real, real, real) -> bool, s: S, xs: seq<real>)
    requires Follows(f, next, knows) && knows(s, 0.0, 0.0, 0.0, 0.0)
    ensures Run(f, s, xs) == Recurrence(next, xs)
    ensures var n, ys := |xs|, Recurrence(next, xs);
            knows(StateAt(f, s, xs, n), At(xs, n - 1), At(xs, n - 2), At(ys, n - 1), At(ys, n - 2))
  {
    if xs != [] {
      var n := |xs| - 1;
      var init, x := xs[..n], xs[n];
      assert xs == init + [x];
      RunIsRecurrence(f, next, knows, s, init);
      RunSnoc(f, s, init, x);
      var t, ys := StateAt(f, s, init, n), Recurrence(next, init);
      assert At(init, n - 1) == At(xs, n - 1) && At(init, n - 2) == At(xs, n - 2);
      assert knows(t, At(xs, n - 1), At(xs, n - 2), At(ys, n - 1), At(ys, n - 2));
      assert f(t, x).y == next(x, At(xs, n - 1), At(xs, n - 2), At(ys, n - 1), At(ys, n - 2));
      assert StateAt(f, s, xs, n + 1) == f(t, x).s;
    }
  }
}

/** The second-order filter of src/dsp/Biquad.h over the reals: the two-register transposed form the
    code runs, against the difference equation it stands for. */
module Biquads {
  import opened Streams

  datatype Coeffs = Coeffs(b0: real, b1: real, b2: real, a1: real, a2: real)

  datatype State = State(z1: real, z2: real)

  const REST := State(0.0, 0.0)

  function ProcessSample(c: Coeffs, s: State, x: real): Out<State> {
    var y := c.b0 * x + s.z1;
    Out(y, State(c.b1 * x - c.a1 * y + s.z2, c.b2 * x - c.a2 * y))
  }

  function Filter(c: Coeffs): (State, real) -> Out<State> {
    (s: State, x: real) => ProcessSample(c, s, x)
  }

  /** y[n] = b0 x[n] + b1 x[n-1] + b2 x[n-2] - a1 y[n-1] - a2 y[n-2]. */
  function Difference(c: Coeffs, x: real, x1: real, x2: real, y1: real, y2: real): real {
    c.b0 * x + c.b1 * x1 + c.b2 * x2 - c.a1 * y1 - c.a2 * y2
  }

  function DifferenceRule(c: Coeffs): (real, real, real, real, real) -> real {
    (x: real, x1: real, x2: real, y1: real, y2: real) => Difference(c, x, x1, x2, y1, y2)
  }

  /** What the registers hold: the parts of the next outputs that past samples already decide. */
  predicate Remembers(c: Coeffs, s: State, x1: real, x2: real, y1: real, y2: real) {
    && s.z2 == c.b2 * x1 - c.a2 * y1
    && s.z1 == c.b1 * x1 - c.a1 * y1 + c.b2 * x2 - c.a2 * y2
  }

  lemma SampleRemembers(c: Coeffs, s: State, x: real, x1: real, x2: real, y1: real, y2: real)
    requires Remembers(c, s, x1, x2, y1, y2)
    ensures ProcessSample(c, s, x).y == Difference(c, x, x1, x2, y1, y2)
    ensures Remembers(c, ProcessSample(c, s, x).s, x, x1, ProcessSample(c, s, x).y, y1)
  {
  }

  /** The transposed form computes the difference equation, for every coefficients and input. */
  lemma FilterIsDifference(c: Coeffs, xs: seq<real>)
    ensures Run(Filter(c), REST, xs) == Recurrence(DifferenceRule(c), xs)
  {
    var knows := (s: State, x1: real, x2: real, y1: real, y2: real) => Remembers(c, s, x1, x2, y1, y2);
    forall s: State, x: real, x1: real, x2: real, y1: real, y2: real
      {:trigger knows(s, x1, x2, y1, y2), Filter(c)(s, x)} | knows(s, x1, x2, y1, y2)
      ensures Filter(c)(s, x).y == DifferenceRule(c)(x, x1, x2, y1, y2)
      ensures knows(Filter(c)(s, x).s, x, x1, Filter(c)(s, x).y, y1)
    {
      SampleRemembers(c, s, x, x1, x2, y1, y2);
    }
    RunIsRecurrence(Filter(c), DifferenceRule(c), knows, REST, xs);
  }

  // ------------------------------------------------------------- coefficients

  /** The transcendental functions, with the few facts the filters rest on. */
  datatype Maths = Maths(sin: real -> real, cos: real -> real, pow10: real -> real, pi: real)
  {
    ghost predicate Lawful() {
      && (forall x {:trigger sin(x)} :: -1.0 <= sin(x) <= 1.0)
      && (forall x {:trigger pow10(x)} :: x >= -0.25 ==> pow10(x) >= 0.5)
      && pow10(0.0) == 1.0 && (forall x {:trigger pow10(x)} :: pow10(x) == 1.0 ==> x == 0.0)
      && pi > 0.0 && (forall x :: OnCircle(x)) && (forall x :: Doubles(x)) && (forall x :: Signed(x))
    }

    /** The sign of the sine over one turn. */
    predicate Signed(x: real) {
      && (0.0 < x < pi ==> sin(x) > 0.0)
      && (x == pi ==> sin(x) == 0.0)
      && (pi < x < 2.0 * pi ==> sin(x) < 0.0)
    }

    predicate OnCircle(x: real) {
      sin(x) * sin(x) + cos(x) * cos(x) == 1.0
    }

    predicate Doubles(x: real) {
      pow10(x) * pow10(x) == pow10(2.0 * x)
    }
  }

  const BAND_Q := 4.3

  /** The centre frequency as an angle, w0 in the source. */
  function Angle(m: Maths, fc: real, fs: real): real
    requires fs > 0.0
  {
    2.0 * m.pi * fc / fs
  }

  function Alpha(m: Maths, fc: real, fs: real): real
    requires fs > 0.0
  {
    m.sin(Angle(m, fc, fs)) / (2.0 * BAND_Q)
  }

  /** The divisor a0 is positive for every gain the equalizer allows. */
  lemma DivisorPositive(m: Maths, fc: real, gainDb: real, fs: real)
    requires m.Lawful() && fs > 0.0 && gainDb >= -10.0
    ensures m.pow10(gainDb / 40.0) > 0.0
    ensures 1.0 + Alpha(m, fc, fs) / m.pow10(gainDb / 40.0) > 0.0
  {
    var a, alpha := m.pow10(gainDb / 40.0), Alpha(m, fc, fs);
    assert gainDb / 40.0 >= -0.25;
    assert a >= 0.5;
    var s := m.sin(Angle(m, fc, fs));
    assert -1.0 <= s <= 1.0;
    assert 2.0 * BAND_Q == 8.6;
    SmallQuotient(alpha, a);
  }

  lemma SmallQuotient(alpha: real, a: real)
    requires a >= 0.5 && alpha > -0.25
    ensures alpha / a > -1.0
  {
    var q := alpha / a;
    assert q * a == alpha;
    if q <= -1.0 {
      Grows(q, a);
    }
  }

  lemma Grows(q: real, a: real)
    requires q <= -1.0 && a >= 0.5
    ensures q * a <= -0.5
  {
    var d := -1.0 - q;
    assert d * a >= 0.0;
  }

  /** The quotient p / d is the solution of q * d = p. */
  lemma Quotient(p: real, d: real)
    requires d != 0.0
    ensures (p / d) * d == p
  {
  }

  /** Divides by a0; b1 serves for both middle coefficients. */
  function Normalized(b0: real, b1: real, b2: real, a0: real, a2: real): (c: Coeffs)
    requires a0 > 0.0
    ensures c.b0 * a0 == b0 && c.b1 * a0 == b1 && c.b2 * a0 == b2 && c.a1 * a0 == b1 && c.a2 * a0 == a2
  {
    Quotient(b0, a0);
    Quotient(b1, a0);
    Quotient(b2, a0);
    Quotient(a2, a0);
    Coeffs(b0 / a0, b1 / a0, b2 / a0, b1 / a0, a2 / a0)
  }

  /** The coefficients from alpha, A and the cosine of the centre angle. */
  function PeakingFrom(alpha: real, a: real, cosw0: real): Coeffs
    requires a > 0.0 && 1.0 + alpha / a > 0.0
  {
    Normalized(1.0 + alpha * a, -2.0 * cosw0, 1.0 - alpha * a, 1.0 + alpha / a, 1.0 - alpha / a)
  }

  function PeakingEq(m: Maths, fc: real, gainDb: real, fs: real): Coeffs
    requires m.Lawful() && fs > 0.0 && gainDb >= -10.0
  {
    DivisorPositive(m, fc, gainDb, fs);
    PeakingFrom(Alpha(m, fc, fs), m.pow10(gainDb / 40.0), m.cos(Angle(m, fc, fs)))
  }

  /** Numerator and denominator agree. */
  predicate Neutral(c: Coeffs) {
    c.b0 == 1.0 && c.b1 == c.a1 && c.b2 == c.a2
  }

  lemma ZeroGainIsNeutral(m: Maths, fc: real, fs: real)
    requires m.Lawful() && fs > 0.0
    ensures Neutral(PeakingEq(m, fc, 0.0, fs))
  {
    DivisorPositive(m, fc, 0.0, fs);
    assert 0.0 / 40.0 == 0.0;
    NeutralFrom(Alpha(m, fc, fs), m.cos(Angle(m, fc, fs)));
  }

  lemma NeutralFrom(alpha: real, cosw0: real)
    requires 1.0 + alpha / 1.0 > 0.0
    ensures Neutral(PeakingFrom(alpha, 1.0, cosw0))
  {
    assert alpha * 1.0 == alpha / 1.0;
  }

  /** At zero frequency the peaking filter's gain is one whatever its setting: b's and a's sum alike. */
  lemma PeakingKeepsDc(m: Maths, fc: real, gainDb: real, fs: real)
    requires m.Lawful() && fs > 0.0 && gainDb >= -10.0
    ensures var c := PeakingEq(m, fc, gainDb, fs); c.b0 + c.b1 + c.b2 == 1.0 + c.a1 + c.a2
  {
    DivisorPositive(m, fc, gainDb, fs);
    var a, alpha := m.pow10(gainDb / 40.0), Alpha(m, fc, fs);
    SumsAgree(alpha * a, alpha / a, -2.0 * m.cos(Angle(m, fc, fs)));
  }

  lemma SumsAgree(p: real, q: real, r: real)
    requires 1.0 + q > 0.0
    ensures var a0 := 1.0 + q;
            (1.0 + p) / a0 + r / a0 + (1.0 - p) / a0 == 1.0 + r / a0 + (1.0 - q) / a0
  {
    var a0 := 1.0 + q;
    SumOver(1.0 + p, 1.0 - p, a0);
    SumOver(1.0 + q, 1.0 - q, a0);
    assert (1.0 + q) / a0 == 1.0;
  }

  lemma SumOver(x: real, y: real, d: real)
    requires d > 0.0
    ensures x / d + y / d == (x + y) / d
  {
  }

  lemma Cancels(b: real, a: real, x: real, y: real)
    requires a == b && x == y
    ensures b * x - a * y == 0.0
  {
  }

  /** Numerator and denominator of the response at angle w, as real and imaginary parts, given the
      cosine and sine of w; the double angle is written out. */
  function NumRe(c: Coeffs, cos: real): real {
    c.b0 + c.b1 * cos + c.b2 * (2.0 * cos * cos - 1.0)
  }

  function NumIm(c: Coeffs, cos: real, sin: real): real {
    -(c.b1 * sin + c.b2 * (2.0 * cos * sin))
  }

  function DenRe(c: Coeffs, cos: real): real {
    1.0 + c.a1 * cos + c.a2 * (2.0 * cos * cos - 1.0)
  }

  function DenIm(c: Coeffs, cos: real, sin: real): real {
    -(c.a1 * sin + c.a2 * (2.0 * cos * sin))
  }

  lemma CancelFactor(x: real, y: real, d: real)
    requires d > 0.0 && x * d == y * d
    ensures x == y
  {
    assert (x - y) * d == 0.0;
  }

  /** The response at the angle with this cosine and sine is the real number g: numerator equals g
      times denominator in both parts, and the denominator is not zero. */
  predicate GainIs(c: Coeffs, cos: real, sin: real, g: real) {
    && NumRe(c, cos) == g * DenRe(c, cos) && NumIm(c, cos, sin) == g * DenIm(c, cos, sin)
    && DenRe(c, cos) != 0.0
  }

  /** At its centre frequency the peaking filter's gain is the one asked for, 10^(dB / 20). */
  lemma PeakingGainAtCentre(m: Maths, fc: real, gainDb: real, fs: real)
    requires m.Lawful() && fs > 0.0 && gainDb >= -10.0 && m.sin(Angle(m, fc, fs)) != 0.0
    ensures GainIs(PeakingEq(m, fc, gainDb, fs), m.cos(Angle(m, fc, fs)), m.sin(Angle(m, fc, fs)),
                   m.pow10(gainDb / 20.0))
  {
    CentreFacts(m, fc, gainDb, fs);
    CentreFrom(Alpha(m, fc, fs), m.pow10(gainDb / 40.0), m.cos(Angle(m, fc, fs)), m.sin(Angle(m, fc, fs)),
               m.pow10(gainDb / 20.0));
  }

  lemma CentreFacts(m: Maths, fc: real, gainDb: real, fs: real)
    requires m.Lawful() && fs > 0.0 && gainDb >= -10.0
    ensures m.pow10(gainDb / 40.0) > 0.0 && 1.0 + Alpha(m, fc, fs) / m.pow10(gainDb / 40.0) > 0.0
    ensures m.OnCircle(Angle(m, fc, fs))
    ensures m.pow10(gainDb / 40.0) * m.pow10(gainDb / 40.0) == m.pow10(gainDb / 20.0)
  {
    DivisorPositive(m, fc, gainDb, fs);
    assert m.Doubles(gainDb / 40.0);
    assert 2.0 * (gainDb / 40.0) == gainDb / 20.0;
  }

  lemma CentreFrom(alpha: real, a: real, cos: real, sin: real, g: real)
    requires a > 0.0 && 1.0 + alpha / a > 0.0 && a * a == g
    requires sin != 0.0 && alpha == sin / (2.0 * BAND_Q) && sin * sin + cos * cos == 1.0
    ensures GainIs(PeakingFrom(alpha, a, cos), cos, sin, g)
  {
    var q := alpha / a;
    Ratio(alpha, a, q);
    NonZeroRatio(sin, 2.0 * BAND_Q);
    Centre(PeakingFrom(alpha, a, cos), cos, sin, alpha * a, q, g);
  }

  lemma Ratio(alpha: real, a: real, q: real)
    requires a > 0.0 && q == alpha / a
    ensures q * (a * a) == alpha * a
    ensures alpha != 0.0 ==> q != 0.0
  {
    Quotient(alpha, a);
    assert (q * a) * a == alpha * a;
  }

  lemma NonZeroRatio(x: real, y: real)
    requires x != 0.0 && y > 0.0
    ensures x / y != 0.0
  {
    Quotient(x, y);
  }

  /** The response at the centre in terms of p = alpha A, q = alpha / A and g = A squared. */
  lemma Centre(c: Coeffs, cos: real, sin: real, p: real, q: real, g: real)
    requires 1.0 + q > 0.0 && q != 0.0 && q * g == p
    requires c == Normalized(1.0 + p, -2.0 * cos, 1.0 - p, 1.0 + q, 1.0 - q)
    requires sin != 0.0 && sin * sin + cos * cos == 1.0
    ensures GainIs(c, cos, sin, g)
  {
    CentreRe(c, cos, p, q, g, 1.0 + q);
    CentreIm(c, cos, sin, p, q, g, 1.0 + q);
    CentreDen(c, cos, sin, q, 1.0 + q);
  }

  lemma Expand(b0: real, b1: real, b2: real, cos: real, k: real, d: real)
    ensures (b0 + b1 * cos + b2 * k) * d == b0 * d + (b1 * d) * cos + (b2 * d) * k
  {
  }

  lemma TwoTerms(p: real, cos: real, k: real)
    requires k == 2.0 * cos * cos - 1.0
    ensures (1.0 + p) + (-2.0 * cos) * cos + (1.0 - p) * k == p * (1.0 - k)
  {
  }

  lemma CentreRe(c: Coeffs, cos: real, p: real, q: real, g: real, d: real)
    requires d == 1.0 + q && d > 0.0 && q * g == p
    requires c.b0 * d == 1.0 + p && c.b1 * d == -2.0 * cos && c.b2 * d == 1.0 - p
    requires c.a1 * d == -2.0 * cos && c.a2 * d == 1.0 - q
    ensures NumRe(c, cos) == g * DenRe(c, cos)
  {
    var k := 2.0 * cos * cos - 1.0;
    assert NumRe(c, cos) * d == p * (1.0 - k) by {
      Expand(c.b0, c.b1, c.b2, cos, k, d);
      TwoTerms(p, cos, k);
    }
    assert DenRe(c, cos) * d == q * (1.0 - k) by {
      Expand(1.0, c.a1, c.a2, cos, k, d);
      TwoTerms(q, cos, k);
    }
    SameMultiple(NumRe(c, cos), DenRe(c, cos), p, q, g, 1.0 - k, d);
  }

  /** From x d = p h and y d = q h with p = q g, x = g y. */
  lemma SameMultiple(x: real, y: real, p: real, q: real, g: real, h: real, d: real)
    requires d > 0.0 && q * g == p && x * d == p * h && y * d == q * h
    ensures x == g * y
  {
    assert (g * y) * d == g * (y * d);
    assert g * (q * h) == (q * g) * h;
    CancelFactor(x, g * y, d);
  }

  lemma CentreIm(c: Coeffs, cos: real, sin: real, p: real, q: real, g: real, d: real)
    requires d == 1.0 + q && d > 0.0 && q * g == p
    requires c.b1 * d == -2.0 * cos && c.b2 * d == 1.0 - p
    requires c.a1 * d == -2.0 * cos && c.a2 * d == 1.0 - q
    ensures NumIm(c, cos, sin) == g * DenIm(c, cos, sin)
  {
    var k := 2.0 * cos * sin;
    assert NumIm(c, cos, sin) * d == p * k by {
      Expand(0.0, c.b1, c.b2, sin, k, d);
    }
    assert DenIm(c, cos, sin) * d == q * k by {
      Expand(0.0, c.a1, c.a2, sin, k, d);
    }
    SameMultiple(NumIm(c, cos, sin), DenIm(c, cos, sin), p, q, g, k, d);
  }

  lemma CentreDen(c: Coeffs, cos: real, sin: real, q: real, d: real)
    requires d == 1.0 + q && d > 0.0 && q != 0.0 && sin != 0.0 && sin * sin + cos * cos == 1.0
    requires c.a1 * d == -2.0 * cos && c.a2 * d == 1.0 - q
    ensures DenRe(c, cos) != 0.0
  {
    var k := 2.0 * cos * cos - 1.0;
    assert DenRe(c, cos) * d == q * (1.0 - k) by {
      Expand(1.0, c.a1, c.a2, cos, k, d);
      TwoTerms(q, cos, k);
    }
    assert 1.0 - k > 0.0 by {
      var s := sin * sin;
      SquarePositive(sin, s);
      assert 2.0 * cos * cos == 2.0 * (cos * cos);
    }
    NonZeroFactor(DenRe(c, cos), d, q, 1.0 - k);
  }

  lemma NonZeroFactor(x: real, d: real, q: real, h: real)
    requires x * d == q * h && q != 0.0 && h > 0.0
    ensures x != 0.0
  {
    var n := if q > 0.0 then q else -q;
    var z := if q > 0.0 then q * h else -(q * h);
    assert z == n * h;
    ProductPositive(n, h, z);
  }

  lemma ProductPositive(x: real, y: real, z: real)
    requires x > 0.0 && y > 0.0 && z == x * y
    ensures z > 0.0
  {
  }

  lemma SquarePositive(x: real, s: real)
    requires x != 0.0 && s == x * x
    ensures s > 0.0
  {
    var n := if x > 0.0 then x else -x;
    assert s == n * n;
    ProductPositive(n, n, s);
  }

  /** A neutral filter at rest passes every sample and stays at rest. */
  lemma NeutralPasses(c: Coeffs, x: real)
    requires Neutral(c)
    ensures ProcessSample(c, REST, x) == Out(x, REST)
  {
    var y := c.b0 * x + 0.0;
    assert y == x;
    Cancels(c.b1, c.a1, x, y);
    Cancels(c.b2, c.a2, x, y);
    var r := ProcessSample(c, REST, x);
    assert r.y == y && r.s.z1 == 0.0 && r.s.z2 == 0.0;
  }
}
