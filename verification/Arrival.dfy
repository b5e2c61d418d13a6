/** Sums of real-valued functions over integer ranges. */
module RealSums {

  /** Multiplication under a name, so that equal factors are seen to give equal products. */
  function Times(x: real, y: real): real {
    x * y
  }

  ghost function Sum(f: int -> real, a: int, b: int): real
    decreases b - a
  {
    if a >= b then 0.0 else Sum(f, a, b - 1) + f(b - 1)
  }

  lemma {:induction false} SumSame(f: int -> real, g: int -> real, a: int, b: int)
    requires forall i :: a <= i < b ==> f(i) == g(i)
    ensures Sum(f, a, b) == Sum(g, a, b)
    decreases b - a
  {
    if a < b { SumSame(f, g, a, b - 1); }
  }

  lemma {:induction false} SumShift(f: int -> real, a: int, b: int, d: int)
    ensures Sum(i => f(i + d), a, b) == Sum(f, a + d, b + d)
    decreases b - a
  {
    if a < b {
      SumShift(f, a, b - 1, d);
      assert (b - 1) + d == (b + d) - 1;
    }
  }

  lemma {:induction false} SumScaled(f: int -> real, g: int -> real, k: real, n: nat)
    requires forall i :: 0 <= i < n ==> f(i) == Times(k, g(i))
    ensures Sum(f, 0, n) == Times(k, Sum(g, 0, n))
  {
    if n > 0 {
      SumScaled(f, g, k, n - 1);
      Distribute(k, Sum(g, 0, n - 1), g(n - 1));
    } else {
      Distribute(k, 0.0, 0.0);
    }
  }

  lemma Distribute(k: real, x: real, y: real)
    ensures Times(k, x + y) == Times(k, x) + Times(k, y)
    ensures Times(k, 0.0) == 0.0
  {
  }

  lemma {:induction false} SumSplit(f: int -> real, a: int, m: int, b: int)
    requires a <= m <= b
    ensures Sum(f, a, b) == Sum(f, a, m) + Sum(f, m, b)
    decreases b - m
  {
    if m < b { SumSplit(f, a, m, b - 1); }
  }

  lemma {:induction false} SumCombine(f: int -> real, g: int -> real, h: int -> real, p: int -> real, n: nat)
    requires forall i :: 0 <= i < n ==> f(i) == g(i) + h(i) - 2.0 * p(i)
    ensures Sum(f, 0, n) == Sum(g, 0, n) + Sum(h, 0, n) - 2.0 * Sum(p, 0, n)
  {
    if n > 0 { SumCombine(f, g, h, p, n - 1); }
  }

  lemma {:induction false} SumZero(f: int -> real, a: int, b: int)
    requires forall i :: a <= i < b ==> f(i) == 0.0
    ensures Sum(f, a, b) == 0.0
    decreases b - a
  {
    if a < b { SumZero(f, a, b - 1); }
  }

  /** A sum of non-negative terms is at least each of them. */
  lemma {:induction false} SumAtLeast(f: int -> real, a: int, b: int, i: int)
    requires forall j :: a <= j < b ==> f(j) >= 0.0
    ensures Sum(f, a, b) >= 0.0
    ensures a <= i < b ==> Sum(f, a, b) >= f(i)
    decreases b - a
  {
    if a < b { SumAtLeast(f, a, b - 1, i); }
  }

  /** A window never collects more than the whole support [0, m). */
  lemma WindowAtMost(f: int -> real, m: nat, a: int, b: int)
    requires forall i :: f(i) >= 0.0
    requires forall i :: !(0 <= i < m) ==> f(i) == 0.0
    requires a <= b
    ensures Sum(f, a, b) <= Sum(f, 0, m)
  {
    var lo := if a < 0 then a else 0;
    var hi := if b > m then b else m;
    SumSplit(f, lo, a, hi);
    SumSplit(f, a, b, hi);
    SumAtLeast(f, lo, a, 0);
    SumAtLeast(f, b, hi, 0);
    SumSplit(f, lo, 0, hi);
    SumSplit(f, 0, m, hi);
    SumZero(f, lo, 0);
    SumZero(f, m, hi);
  }
}

/** Where a known sound appears in a recording: src/measure/ArrivalDetector.h. Real numbers stand
    for doubles, and the square root is any function that is not negative. */
module Arrival {
  import opened RealSums

  // ------------------------------------------------------------- autocorrelation

  /** The signal, zero outside its samples. */
  function At(s: seq<real>, t: int): real {
    if 0 <= t < |s| then s[t] else 0.0
  }

  ghost function Product(s: seq<real>, d: int): int -> real {
    i => At(s, i + d) * At(s, i)
  }

  ghost function Square(s: seq<real>): int -> real {
    i => At(s, i) * At(s, i)
  }

  ghost function Gap(s: seq<real>, d: int): int -> real {
    i => (At(s, i + d) - At(s, i)) * (At(s, i + d) - At(s, i))
  }

  ghost function Auto(s: seq<real>, d: int): real {
    Sum(Product(s, d), 0, |s|)
  }

  ghost predicate Silent(s: seq<real>) {
    forall i :: 0 <= i < |s| ==> s[i] == 0.0
  }

  lemma SquareExpand(x: real, y: real)
    ensures (x - y) * (x - y) == x * x + y * y - 2.0 * (x * y)
    ensures (x - y) * (x - y) >= 0.0 && x * x >= 0.0
    ensures (x - y) * (x - y) == 0.0 ==> x == y
  {
    NonZeroSquare(x - y, (x - y) * (x - y));
  }

  ghost function ShiftedSquare(s: seq<real>, d: int): int -> real {
    i => Square(s)(i + d)
  }

  lemma GapExpand(s: seq<real>, d: int, n: nat)
    ensures Sum(Gap(s, d), 0, n)
         == Sum(ShiftedSquare(s, d), 0, n) + Sum(Square(s), 0, n) - 2.0 * Sum(Product(s, d), 0, n)
  {
    forall i | 0 <= i < n
      ensures Gap(s, d)(i) == ShiftedSquare(s, d)(i) + Square(s)(i) - 2.0 * Product(s, d)(i)
    {
      SquareExpand(At(s, i + d), At(s, i));
    }
    SumCombine(Gap(s, d), ShiftedSquare(s, d), Square(s), Product(s, d), n);
  }

  lemma GapsNonNegative(s: seq<real>, d: int, i: int)
    ensures Gap(s, d)(i) >= 0.0 && Square(s)(i) >= 0.0
    ensures Gap(s, d)(i) == 0.0 ==> At(s, i + d) == At(s, i)
  {
    SquareExpand(At(s, i + d), At(s, i));
    SquareExpand(At(s, i), 0.0);
  }

  /** A signal equal to its own shift is silent: following the shift leaves the support. */
  lemma {:induction false} ShiftInvariantSilent(s: seq<real>, d: int, i: int)
    requires d != 0 && 0 <= i < |s|
    requires forall j :: 0 <= j < |s| ==> At(s, j + d) == At(s, j)
    ensures s[i] == 0.0
    decreases if d > 0 then |s| - i else i
  {
    assert At(s, i + d) == At(s, i);
    if 0 <= i + d < |s| { ShiftInvariantSilent(s, d, i + d); }
  }

  /** Strict Cauchy-Schwarz: only lag zero reaches the energy of the signal. */
  lemma AutoPeak(s: seq<real>, d: int)
    requires !Silent(s) && d != 0
    ensures Auto(s, d) < Auto(s, 0)
  {
    var n := |s|;
    forall i ensures Gap(s, d)(i) >= 0.0 && Square(s)(i) >= 0.0 { GapsNonNegative(s, d, i); }
    GapExpand(s, d, n);
    SumShift(Square(s), 0, n, d);
    SumSame(ShiftedSquare(s, d), i => Square(s)(i + d), 0, n);
    WindowAtMost(Square(s), n, d, n + d);
    SumSame(Product(s, 0), Square(s), 0, n);
    SumAtLeast(Gap(s, d), 0, n, 0);
    if Sum(Gap(s, d), 0, n) == 0.0 {
      forall j | 0 <= j < n ensures At(s, j + d) == At(s, j) {
        SumAtLeast(Gap(s, d), 0, n, j);
        GapsNonNegative(s, d, j);
      }
      forall i | 0 <= i < n ensures s[i] == 0.0 { ShiftInvariantSilent(s, d, i); }
    }
  }

  lemma AutoPositive(s: seq<real>)
    requires !Silent(s)
    ensures Auto(s, 0) > 0.0
  {
    var i :| 0 <= i < |s| && s[i] != 0.0;
    forall j ensures Square(s)(j) >= 0.0 { GapsNonNegative(s, 0, j); }
    SumSame(Product(s, 0), Square(s), 0, |s|);
    SumAtLeast(Square(s), 0, |s|, i);
    assert Square(s)(i) == s[i] * s[i];
    NonZeroSquare(s[i], Square(s)(i));
  }

  lemma NonZeroSquare(x: real, y: real)
    requires y == x * x
    ensures y >= 0.0 && (y == 0.0 ==> x == 0.0)
  {
    if x > 0.0 {
      PositiveProduct(x, x, y);
    } else if x < 0.0 {
      PositiveProduct(-x, -x, y);
    }
  }

  lemma PositiveProduct(a: real, b: real, c: real)
    requires a > 0.0 && b > 0.0 && c == a * b
    ensures c > 0.0
  {
  }

  // ----------------------------------------------------------------- normalize

  const EPSILON: real := 0.000000000001

  ghost function Signal(x: seq<real>): int -> real {
    t => At(x, t)
  }

  ghost function Mean(x: seq<real>): real
    requires x != []
  {
    Sum(Signal(x), 0, |x|) / (|x| as real)
  }

  ghost function Deviation(x: seq<real>, mean: real): int -> real {
    t => Times(At(x, t) - mean, At(x, t) - mean)
  }

  ghost function Energy(x: seq<real>): real
    requires x != []
  {
    Sum(Deviation(x, Mean(x)), 0, |x|)
  }

  /** The only property of the square root that matters. */
  ghost predicate NonNegativeRoot(sqrt: real -> real) {
    forall v :: v >= 0.0 ==> sqrt(v) >= 0.0
  }

  lemma EnergyNonNegative(x: seq<real>)
    requires x != []
    ensures Energy(x) >= 0.0
  {
    var m := Mean(x);
    forall t ensures Deviation(x, m)(t) >= 0.0 { NonZeroSquare(At(x, t) - m, Times(At(x, t) - m, At(x, t) - m)); }
    SumAtLeast(Deviation(x, Mean(x)), 0, |x|, 0);
  }

  ghost function Scale(x: seq<real>, sqrt: real -> real): (k: real)
    requires x != [] && NonNegativeRoot(sqrt)
    ensures k > 0.0
  {
    EnergyNonNegative(x);
    1.0 / (sqrt(Energy(x)) + EPSILON)
  }

  ghost function Normalized(x: seq<real>, sqrt: real -> real): (r: seq<real>)
    requires NonNegativeRoot(sqrt)
    ensures |r| == |x|
  {
    if x == [] then [] else seq(|x|, t requires 0 <= t < |x| => Times(x[t] - Mean(x), Scale(x, sqrt)))
  }

  /** Lines 36 to 38. */
  method MeanOf(x: seq<real>) returns (mean: real)
    requires x != []
    ensures mean == Mean(x)
  {
    mean := 0.0;
    for i := 0 to |x|
      invariant mean == Sum(Signal(x), 0, i)
    {
      mean := mean + x[i];
    }
    mean := mean / (|x| as real);
  }

  /** Lines 40 to 44. */
  method Center(out: array<real>, mean: real, ghost x: seq<real>) returns (sumsq: real)
    requires out[..] == x
    modifies out
    ensures forall k :: 0 <= k < out.Length ==> out[k] == x[k] - mean
    ensures sumsq == Sum(Deviation(x, mean), 0, |x|)
  {
    sumsq := 0.0;
    for i := 0 to out.Length
      invariant sumsq == Sum(Deviation(x, mean), 0, i)
      invariant forall k :: 0 <= k < |x| ==> out[k] == if k < i then x[k] - mean else x[k]
    {
      out[i] := out[i] - mean;
      sumsq := sumsq + Times(out[i], out[i]);
    }
  }

  /** Lines 45 to 48. */
  method ScaleOf(ghost x: seq<real>, sumsq: real, sqrt: real -> real) returns (scale: real)
    requires x != [] && NonNegativeRoot(sqrt) && sumsq == Energy(x)
    ensures scale == Scale(x, sqrt)
  {
    EnergyNonNegative(x);
    scale := 1.0 / (sqrt(sumsq) + EPSILON);
  }

  /** Line 49. */
  method Rescale(out: array<real>, scale: real)
    modifies out
    ensures forall k :: 0 <= k < out.Length ==> out[k] == Times(old(out[k]), scale)
  {
    for i := 0 to out.Length
      invariant forall k :: 0 <= k < out.Length ==> out[k] == if k < i then Times(old(out[k]), scale) else old(out[k])
    {
      out[i] := Times(out[i], scale);
    }
  }

  /** `normalize`. */
  method Normalize(x: seq<real>, sqrt: real -> real) returns (r: seq<real>)
    requires NonNegativeRoot(sqrt)
    ensures r == Normalized(x, sqrt)
  {
    if x == [] { return []; }
    var out := new real[|x|](k requires 0 <= k < |x| => x[k]);
    assert out[..] == x;
    var mean := MeanOf(x);
    var sumsq := Center(out, mean, x);
    var scale := ScaleOf(x, sumsq, sqrt);
    Rescale(out, scale);
    r := out[..];
    NormalizedIs(x, sqrt, mean, scale, r);
  }

  lemma NormalizedIs(x: seq<real>, sqrt: real -> real, mean: real, scale: real, r: seq<real>)
    requires x != [] && NonNegativeRoot(sqrt) && mean == Mean(x) && scale == Scale(x, sqrt)
    requires |r| == |x| && forall k :: 0 <= k < |x| ==> r[k] == Times(x[k] - mean, scale)
    ensures r == Normalized(x, sqrt)
  {
  }

  // ----------------------------------------------------------------- findArrival

  datatype Arrival = Arrival(lagSamples: int, lagMs: real, peak: real, secondPeak: real, found: bool)

  const NOT_FOUND := Arrival(0, 0.0, 0.0, 0.0, false)

  ghost function Lagged(r: seq<real>, s: seq<real>, lag: int): int -> real {
    i => Times(At(r, lag + i), At(s, i))
  }

  ghost function Corr(r: seq<real>, s: seq<real>, lag: int): real {
    Sum(Lagged(r, s, lag), 0, |s|)
  }

  function Limit(recording: nat, stimulus: nat, maxLag: int): int {
    if maxLag < 0 || maxLag > recording - stimulus then recording - stimulus else maxLag
  }

  /** Lines 83 to 86. */
  method Correlate(r: seq<real>, s: seq<real>, lag: nat) returns (sum: real)
    requires lag + |s| <= |r|
    ensures sum == Corr(r, s, lag)
  {
    sum := 0.0;
    for i := 0 to |s|
      invariant sum == Sum(Lagged(r, s, lag), 0, i)
    {
      sum := sum + Times(r[lag + i], s[i]);
    }
  }

  function Guard(sampleRate: real): int {
    if (sampleRate / 1000.0).Floor < 1 then 1 else (sampleRate / 1000.0).Floor
  }

  predicate Far(lag: int, best: int, guard: int) {
    lag - best > guard || best - lag > guard
  }

  /** `second` is the largest correlation outside the main lobe, or zero. */
  ghost predicate IsSecond(corr: seq<real>, best: int, guard: int, n: nat, second: real)
    requires n <= |corr|
  {
    && second >= 0.0
    && (forall l :: 0 <= l < n && Far(l, best, guard) ==> corr[l] <= second)
    && (second == 0.0 || exists l :: 0 <= l < n && Far(l, best, guard) && corr[l] == second)
  }

  /** What the search returns, for the correlations at lags 0 .. limit. */
  ghost predicate Detects(corr: seq<real>, sampleRate: real, a: Arrival)
    requires sampleRate > 0.0
  {
    && (a.found <==> exists l :: 0 <= l < |corr| && corr[l] > 0.0)
    && (!a.found ==> a == NOT_FOUND)
    && (a.found ==>
         && 0 <= a.lagSamples < |corr| && a.peak == corr[a.lagSamples]
         && (forall l :: 0 <= l < |corr| ==> corr[l] <= a.peak)
         && (forall l :: 0 <= l < a.lagSamples ==> corr[l] < a.peak)
         && a.lagMs == a.lagSamples as real * 1000.0 / sampleRate
         && IsSecond(corr, a.lagSamples, Guard(sampleRate), |corr|, a.secondPeak))
  }

  /** Lines 110 to 115. */
  method SecondPeak(corr: seq<real>, best: int, guard: int) returns (second: real)
    ensures IsSecond(corr, best, guard, |corr|, second)
  {
    second := 0.0;
    for l := 0 to |corr|
      invariant IsSecond(corr, best, guard, l, second)
    {
      if Far(l, best, guard) && corr[l] > second { second := corr[l]; }
    }
  }

  /** Lines 76 to 117, on normalized signals. */
  method Search(r: seq<real>, s: seq<real>, sampleRate: real, limit: nat) returns (a: Arrival, corr: seq<real>)
    requires limit + |s| <= |r| && sampleRate > 0.0
    ensures |corr| == limit + 1 && forall l :: 0 <= l <= limit ==> corr[l] == Corr(r, s, l)
    ensures Detects(corr, sampleRate, a)
  {
    var best, bestLag := -1.0, 0;
    corr := [];
    for lag := 0 to limit + 1
      invariant |corr| == lag && forall l :: 0 <= l < lag ==> corr[l] == Corr(r, s, l)
      invariant forall l :: 0 <= l < lag ==> corr[l] <= best
      invariant best == -1.0 || (0 <= bestLag < lag && corr[bestLag] == best && forall l :: 0 <= l < bestLag ==> corr[l] < best)
    {
      var sum := Correlate(r, s, lag);
      corr := corr + [sum];
      if sum > best { best, bestLag := sum, lag; }
    }
    if best <= 0.0 { return NOT_FOUND, corr; }
    var second := SecondPeak(corr, bestLag, Guard(sampleRate));
    a := Arrival(bestLag, bestLag as real * 1000.0 / sampleRate, best, second, true);
  }

  // ------------------------------------------------------- a clean arrival is found

  /** The recording is a constant offset plus a positive multiple of the stimulus at delay l. */
  ghost predicate IsEcho(recording: seq<real>, stimulus: seq<real>, offset: real, gain: real, l: nat) {
    && gain > 0.0 && l + |stimulus| <= |recording|
    && forall t :: 0 <= t < |recording| ==> recording[t] == offset + Times(gain, At(stimulus, t - l))
  }

  ghost predicate ZeroMean(s: seq<real>) {
    Sum(Signal(s), 0, |s|) == 0.0
  }

  /** n copies of x, added up. */
  ghost function Copies(n: nat, x: real): real {
    if n == 0 then 0.0 else Copies(n - 1, x) + x
  }

  lemma {:induction false} CopiesIsProduct(n: nat, x: real)
    ensures Copies(n, x) == n as real * x
  {
    if n > 0 {
      CopiesIsProduct(n - 1, x);
      assert n as real * x == (n - 1) as real * x + x;
    }
  }

  lemma {:induction false} SumOfEcho(f: int -> real, g: int -> real, offset: real, gain: real, l: nat, n: nat)
    requires forall t :: 0 <= t < n ==> f(t) == offset + Times(gain, g(t - l))
    ensures Sum(f, 0, n) == Copies(n, offset) + Times(gain, Sum(g, 0 - l, n - l))
  {
    if n > 0 {
      SumOfEcho(f, g, offset, gain, l, n - 1);
      assert n - 1 - l == (n - l) - 1;
      Distribute(gain, Sum(g, 0 - l, n - 1 - l), g(n - 1 - l));
    } else {
      Distribute(gain, 0.0, 0.0);
    }
  }

  /** Mean removal takes exactly the offset away. */
  lemma MeanOfEcho(recording: seq<real>, stimulus: seq<real>, offset: real, gain: real, l: nat)
    requires IsEcho(recording, stimulus, offset, gain, l) && ZeroMean(stimulus) && stimulus != []
    ensures Mean(recording) == offset
  {
    var n, f := |recording|, Signal(stimulus);
    assert Sum(f, 0 - l, n - l) == 0.0 by {
      EchoSumsToZero(stimulus, l, n);
    }
    assert Sum(Signal(recording), 0, n) == Copies(n, offset) by {
      SumOfEcho(Signal(recording), f, offset, gain, l, n);
      Distribute(gain, 0.0, 0.0);
    }
    CopiesIsProduct(n, offset);
    Divide(n as real, offset, Sum(Signal(recording), 0, n));
  }

  /** A zero-mean stimulus sums to zero over any stretch that covers it. */
  lemma EchoSumsToZero(stimulus: seq<real>, l: nat, n: nat)
    requires ZeroMean(stimulus) && l + |stimulus| <= n
    ensures Sum(Signal(stimulus), 0 - l, n - l) == 0.0
  {
    var f := Signal(stimulus);
    SumSplit(f, 0 - l, 0, n - l);
    SumSplit(f, 0, |stimulus|, n - l);
    SumZero(f, 0 - l, 0);
    SumZero(f, |stimulus|, n - l);
  }

  lemma Divide(n: real, x: real, y: real)
    requires n > 0.0 && y == n * x
    ensures y / n == x
  {
  }

  lemma Reassociate(g: real, x: real, p: real, y: real, q: real)
    ensures Times(Times(Times(g, x), p), Times(y, q)) == Times(Times(Times(g, p), q), x * y)
  {
  }

  lemma NormalizedEcho(recording: seq<real>, stimulus: seq<real>, offset: real, gain: real, l: nat,
                       sqrt: real -> real, t: nat)
    requires IsEcho(recording, stimulus, offset, gain, l) && ZeroMean(stimulus) && stimulus != []
    requires NonNegativeRoot(sqrt) && t < |recording|
    ensures Normalized(recording, sqrt)[t] == Times(Times(gain, At(stimulus, t - l)), Scale(recording, sqrt))
  {
    MeanOfEcho(recording, stimulus, offset, gain, l);
  }

  lemma NormalizedStimulus(stimulus: seq<real>, sqrt: real -> real, i: nat)
    requires ZeroMean(stimulus) && NonNegativeRoot(sqrt) && i < |stimulus|
    ensures Normalized(stimulus, sqrt)[i] == Times(At(stimulus, i), Scale(stimulus, sqrt))
  {
    Divide(|stimulus| as real, 0.0, 0.0);
  }

  /** r is x at delay l and s is x itself, each times a positive factor. */
  ghost predicate Scaled(r: seq<real>, s: seq<real>, x: seq<real>, l: nat, gain: real, p: real, q: real) {
    && gain > 0.0 && p > 0.0 && q > 0.0
    && |s| == |x| && l + |x| <= |r|
    && (forall t :: 0 <= t < |r| ==> r[t] == Times(Times(gain, At(x, t - l)), p))
    && (forall i :: 0 <= i < |x| ==> s[i] == Times(x[i], q))
  }

  lemma EchoIsScaled(recording: seq<real>, stimulus: seq<real>, offset: real, gain: real, l: nat, sqrt: real -> real)
    requires IsEcho(recording, stimulus, offset, gain, l) && ZeroMean(stimulus) && stimulus != []
    requires NonNegativeRoot(sqrt)
    ensures Scaled(Normalized(recording, sqrt), Normalized(stimulus, sqrt), stimulus, l, gain,
                   Scale(recording, sqrt), Scale(stimulus, sqrt))
  {
    forall t | 0 <= t < |recording|
      ensures Normalized(recording, sqrt)[t] == Times(Times(gain, At(stimulus, t - l)), Scale(recording, sqrt))
    {
      NormalizedEcho(recording, stimulus, offset, gain, l, sqrt, t);
    }
    forall i | 0 <= i < |stimulus|
      ensures Normalized(stimulus, sqrt)[i] == Times(stimulus[i], Scale(stimulus, sqrt))
    {
      NormalizedStimulus(stimulus, sqrt, i);
    }
  }

  lemma LaggedScaled(r: seq<real>, s: seq<real>, x: seq<real>, l: nat, gain: real, p: real, q: real, lag: nat, i: nat)
    requires Scaled(r, s, x, l, gain, p, q) && lag + |x| <= |r| && i < |x|
    ensures Lagged(r, s, lag)(i) == Times(Times(Times(gain, p), q), Product(x, lag - l)(i))
  {
    var u := At(x, i + (lag - l));
    assert (lag + i) - l == i + (lag - l);
    assert At(r, lag + i) == Times(Times(gain, u), p) && At(s, i) == Times(x[i], q);
    Reassociate(gain, u, p, x[i], q);
  }

  /** The correlation of scaled signals is a multiple of the autocorrelation. */
  lemma CorrScaled(r: seq<real>, s: seq<real>, x: seq<real>, l: nat, gain: real, p: real, q: real, lag: nat)
    requires Scaled(r, s, x, l, gain, p, q) && lag + |x| <= |r|
    ensures Corr(r, s, lag) == Times(Times(Times(gain, p), q), Auto(x, lag - l))
  {
    var f, g, k := Lagged(r, s, lag), Product(x, lag - l), Times(Times(gain, p), q);
    forall i | 0 <= i < |x| ensures f(i) == Times(k, g(i)) {
      LaggedScaled(r, s, x, l, gain, p, q, lag, i);
    }
    SumScaled(f, g, k, |x|);
  }

  lemma ScaledOrder(k: real, a: real, b: real, x: real, y: real)
    requires k > 0.0 && x == Times(k, a) && y == Times(k, b)
    ensures b > 0.0 ==> y > 0.0
    ensures a < b ==> x < y
  {
    if b > 0.0 { PositiveProduct(k, b, y); }
    if a < b { PositiveProduct(k, b - a, y - x); }
  }

  /** Every other lag correlates strictly less, whatever the offset and the gain. */
  lemma EchoPeaks(r: seq<real>, s: seq<real>, x: seq<real>, l: nat, gain: real, p: real, q: real, lag: nat)
    requires Scaled(r, s, x, l, gain, p, q) && !Silent(x) && lag + |x| <= |r|
    ensures Corr(r, s, l) > 0.0 && (lag != l ==> Corr(r, s, lag) < Corr(r, s, l))
  {
    var a, a0, c, c0 := Auto(x, lag - l), Auto(x, 0), Corr(r, s, lag), Corr(r, s, l);
    assert a0 > 0.0 && (lag != l ==> a < a0) by {
      AutoPositive(x);
      if lag != l { AutoPeak(x, lag - l); }
    }
    var k := Gain(gain, p, q);
    assert c0 == Times(k, a0) && c == Times(k, a) by {
      CorrScaled(r, s, x, l, gain, p, q, l);
      CorrScaled(r, s, x, l, gain, p, q, lag);
    }
    ScaledOrder(k, a, a0, c, c0);
  }

  lemma Gain(g: real, p: real, q: real) returns (k: real)
    requires g > 0.0 && p > 0.0 && q > 0.0
    ensures k > 0.0 && k == Times(Times(g, p), q)
  {
    k := Times(Times(g, p), q);
    PositiveProduct(g, p, Times(g, p));
    PositiveProduct(Times(g, p), q, k);
  }

  /** The correlations the search looks at. */
  ghost predicate Correlations(recording: seq<real>, stimulus: seq<real>, maxLag: int, sqrt: real -> real, corr: seq<real>)
    requires NonNegativeRoot(sqrt)
  {
    && |corr| == Limit(|recording|, |stimulus|, maxLag) + 1
    && forall l :: 0 <= l < |corr| ==> corr[l] == Corr(Normalized(recording, sqrt), Normalized(stimulus, sqrt), l)
  }

  ghost predicate CleanArrival(recording: seq<real>, stimulus: seq<real>, offset: real, gain: real, l: nat) {
    IsEcho(recording, stimulus, offset, gain, l) && ZeroMean(stimulus) && !Silent(stimulus)
  }

  /** A clean arrival within the search limit is detected at exactly its lag. */
  lemma CleanArrivalFound(recording: seq<real>, stimulus: seq<real>, offset: real, gain: real, l: nat,
                          maxLag: int, sqrt: real -> real, sampleRate: real, corr: seq<real>, a: Arrival)
    requires NonNegativeRoot(sqrt) && sampleRate > 0.0
    requires CleanArrival(recording, stimulus, offset, gain, l) && l <= Limit(|recording|, |stimulus|, maxLag)
    requires Correlations(recording, stimulus, maxLag, sqrt, corr) && Detects(corr, sampleRate, a)
    ensures a.found && a.lagSamples == l
  {
    EchoIsScaled(recording, stimulus, offset, gain, l, sqrt);
    ScaledFound(Normalized(recording, sqrt), Normalized(stimulus, sqrt), stimulus, l, gain,
                Scale(recording, sqrt), Scale(stimulus, sqrt), sampleRate, corr, a);
  }

  lemma ScaledFound(r: seq<real>, s: seq<real>, x: seq<real>, l: nat, gain: real, p: real, q: real,
                    sampleRate: real, corr: seq<real>, a: Arrival)
    requires Scaled(r, s, x, l, gain, p, q) && !Silent(x) && sampleRate > 0.0
    requires l < |corr| && |corr| + |x| <= |r| + 1
    requires forall m :: 0 <= m < |corr| ==> corr[m] == Corr(r, s, m)
    requires Detects(corr, sampleRate, a)
    ensures a.found && a.lagSamples == l
  {
    EchoPeaks(r, s, x, l, gain, p, q, l);
    assert corr[l] > 0.0;
    EchoPeaks(r, s, x, l, gain, p, q, a.lagSamples);
  }

  // ------------------------------------------------------- the peak lies between zero and one

  ghost predicate SquareRoot(sqrt: real -> real) {
    forall v :: v >= 0.0 ==> sqrt(v) >= 0.0 && Times(sqrt(v), sqrt(v)) == v
  }

  lemma {:induction false} CrossBound(f: int -> real, g: int -> real, h: int -> real, n: nat)
    requires forall i :: 0 <= i < n ==> 2.0 * f(i) <= g(i) + h(i) && -2.0 * f(i) <= g(i) + h(i)
    ensures -(Sum(g, 0, n) + Sum(h, 0, n)) <= 2.0 * Sum(f, 0, n) <= Sum(g, 0, n) + Sum(h, 0, n)
  {
    if n > 0 {
      CrossBound(f, g, h, n - 1);
    }
  }

  lemma CrossTerm(x: real, y: real)
    ensures 2.0 * Times(x, y) <= Times(x, x) + Times(y, y)
    ensures -2.0 * Times(x, y) <= Times(x, x) + Times(y, y)
  {
    SquareExpand(x, y);
    SquareExpand(x, -y);
    assert x * -y == -(x * y) && -y * -y == y * y;
  }

  /** Of the whole signal. */
  ghost function Power(s: seq<real>): real {
    Sum(Square(s), 0, |s|)
  }

  lemma TermWithin(r: seq<real>, s: seq<real>, lag: int, i: int)
    ensures 2.0 * Lagged(r, s, lag)(i) <= ShiftedSquare(r, lag)(i) + Square(s)(i)
    ensures -2.0 * Lagged(r, s, lag)(i) <= ShiftedSquare(r, lag)(i) + Square(s)(i)
  {
    var x, y := At(r, i + lag), At(s, i);
    assert Lagged(r, s, lag)(i) == Times(x, y) by {
      assert lag + i == i + lag;
    }
    SquareAt(r, i + lag, x);
    SquareAt(s, i, y);
    CrossTerm(x, y);
  }

  lemma SquareAt(s: seq<real>, i: int, x: real)
    requires x == At(s, i)
    ensures Square(s)(i) == Times(x, x)
  {
  }

  lemma WindowPower(r: seq<real>, lag: int, n: nat)
    ensures Sum(ShiftedSquare(r, lag), 0, n) <= Power(r)
  {
    forall i
      ensures Square(r)(i) >= 0.0
    {
      GapsNonNegative(r, 0, i);
    }
    SumShift(Square(r), 0, n, lag);
    SumSame(ShiftedSquare(r, lag), i => Square(r)(i + lag), 0, n);
    WindowAtMost(Square(r), |r|, lag, n + lag);
  }

  /** Two signals of power at most one correlate between -1 and 1 at every lag. */
  lemma CorrWithin(r: seq<real>, s: seq<real>, lag: int)
    requires Power(r) <= 1.0 && Power(s) <= 1.0
    ensures -1.0 <= Corr(r, s, lag) <= 1.0
  {
    var f, g, h := Lagged(r, s, lag), ShiftedSquare(r, lag), Square(s);
    forall i | 0 <= i < |s|
      ensures 2.0 * f(i) <= g(i) + h(i) && -2.0 * f(i) <= g(i) + h(i)
    {
      TermWithin(r, s, lag, i);
    }
    CrossBound(f, g, h, |s|);
    WindowPower(r, lag, |s|);
  }

  /** e / (root + EPSILON)^2 <= 1 when root is the square root of e. */
  lemma ScaledEnergy(e: real, root: real, k: real)
    requires root >= 0.0 && Times(root, root) == e && k > 0.0 && k == 1.0 / (root + EPSILON)
    ensures Times(Times(k, k), e) <= 1.0
  {
    var x := Times(k, root);
    assert Times(k, root + EPSILON) == 1.0;
    assert Times(k, root + EPSILON) == x + Times(k, EPSILON);
    PositiveProduct(k, EPSILON, Times(k, EPSILON));
    assert x >= 0.0;
    UnitProduct(x);
    assert Times(Times(k, k), e) == Times(x, x);
  }

  lemma UnitProduct(x: real)
    requires 0.0 <= x <= 1.0
    ensures Times(x, x) <= 1.0
  {
    if 0.0 < x < 1.0 {
      PositiveProduct(x, 1.0 - x, x * (1.0 - x));
      assert x * (1.0 - x) == x - Times(x, x);
    }
  }

  lemma SquareOfProduct(y: real, k: real)
    ensures Times(y, k) * Times(y, k) == Times(Times(k, k), Times(y, y))
  {
  }

  /** Normalizing leaves a power of at most one. */
  lemma NormalizedPower(x: seq<real>, sqrt: real -> real)
    requires NonNegativeRoot(sqrt) && SquareRoot(sqrt)
    ensures Power(Normalized(x, sqrt)) <= 1.0
  {
    if x != [] {
      var z, k, m := Normalized(x, sqrt), Scale(x, sqrt), Mean(x);
      forall i | 0 <= i < |x|
        ensures Square(z)(i) == Times(Times(k, k), Deviation(x, m)(i))
      {
        SquareOfProduct(x[i] - m, k);
      }
      SumScaled(Square(z), Deviation(x, m), Times(k, k), |x|);
      EnergyNonNegative(x);
      ScaledEnergy(Energy(x), sqrt(Energy(x)), k);
    }
  }

  /** With a true square root, every correlation searched lies in [-1, 1], so the peak lies in (0, 1]. */
  lemma PeakWithin(recording: seq<real>, stimulus: seq<real>, maxLag: int, sqrt: real -> real, sampleRate: real,
                   corr: seq<real>, a: Arrival)
    requires NonNegativeRoot(sqrt) && SquareRoot(sqrt) && sampleRate > 0.0
    requires Correlations(recording, stimulus, maxLag, sqrt, corr) && Detects(corr, sampleRate, a)
    ensures forall l :: 0 <= l < |corr| ==> -1.0 <= corr[l] <= 1.0
    ensures a.found ==> 0.0 < a.peak <= 1.0 && 0.0 <= a.secondPeak <= a.peak
  {
    NormalizedPower(recording, sqrt);
    NormalizedPower(stimulus, sqrt);
    CorrsWithin(Normalized(recording, sqrt), Normalized(stimulus, sqrt), corr);
    if a.found {
      PeaksOrdered(corr, sampleRate, a);
    }
  }

  lemma CorrsWithin(r: seq<real>, s: seq<real>, corr: seq<real>)
    requires Power(r) <= 1.0 && Power(s) <= 1.0
    requires forall l :: 0 <= l < |corr| ==> corr[l] == Corr(r, s, l)
    ensures forall l :: 0 <= l < |corr| ==> -1.0 <= corr[l] <= 1.0
  {
    forall l | 0 <= l < |corr|
      ensures -1.0 <= corr[l] <= 1.0
    {
      CorrWithin(r, s, l);
    }
  }

  lemma PeaksOrdered(corr: seq<real>, sampleRate: real, a: Arrival)
    requires sampleRate > 0.0 && Detects(corr, sampleRate, a) && a.found
    ensures 0 <= a.lagSamples < |corr| && a.peak == corr[a.lagSamples]
    ensures 0.0 < a.peak && 0.0 <= a.secondPeak <= a.peak
  {
  }

  /** `findArrival`: the general contract, and exact detection of a clean arrival. */
  method FindArrival(recording: seq<real>, stimulus: seq<real>, sampleRate: real, maxLag: int, sqrt: real -> real)
    returns (a: Arrival, ghost corr: seq<real>)
    requires NonNegativeRoot(sqrt)
    ensures recording == [] || stimulus == [] || sampleRate <= 0.0 || |recording| < |stimulus| ==> a == NOT_FOUND
    ensures recording != [] && stimulus != [] && sampleRate > 0.0 && |recording| >= |stimulus| ==>
      Correlations(recording, stimulus, maxLag, sqrt, corr) && Detects(corr, sampleRate, a)
    ensures forall offset: real, gain: real, l: nat ::
      CleanArrival(recording, stimulus, offset, gain, l) && sampleRate > 0.0 &&
      l <= Limit(|recording|, |stimulus|, maxLag)
      ==> a.found && a.lagSamples == l
    ensures SquareRoot(sqrt) && a.found ==> 0.0 < a.peak <= 1.0 && 0.0 <= a.secondPeak <= a.peak
  {
    a, corr := NOT_FOUND, [];
    if recording == [] || stimulus == [] || sampleRate <= 0.0 { return; }
    if |recording| < |stimulus| { return; }
    var r := Normalize(recording, sqrt);
    var s := Normalize(stimulus, sqrt);
    a, corr := Search(r, s, sampleRate, Limit(|recording|, |stimulus|, maxLag));
    if SquareRoot(sqrt) {
      PeakWithin(recording, stimulus, maxLag, sqrt, sampleRate, corr, a);
    }
    forall offset: real, gain: real, l: nat |
      CleanArrival(recording, stimulus, offset, gain, l) && l <= Limit(|recording|, |stimulus|, maxLag)
      ensures a.found && a.lagSamples == l
    {
      CleanArrivalFound(recording, stimulus, offset, gain, l, maxLag, sqrt, sampleRate, corr, a);
    }
  }
}
