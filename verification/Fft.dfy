/** The in-place radix-2 transform of src/calibration/Fft.h, over any commutative ring.

    Specification: `Dft`, the values sum_j a[j] * w^(j*k). The code reaches it in two
    phases, each specified on sequences: `BitReversed` for the permutation loop and
    `Dit` (decimation in time) for the butterfly passes. */
module Fft {
  import opened Rings
  import opened Powers

  // ---------------------------------------------------------------- the transform

  /** sum_{j < m} a[j] * w^(j*k) */
  function DftSum<T>(R: Ring<T>, a: seq<T>, w: T, k: nat, m: nat): T
    requires m <= |a|
  {
    if m == 0 then R.zero
    else R.add(DftSum(R, a, w, k, m - 1), R.mul(a[m - 1], Pow(R, w, (m - 1) * k)))
  }

  function Dft<T>(R: Ring<T>, a: seq<T>, w: T): (r: seq<T>)
    ensures |r| == |a|
  {
    seq(|a|, k requires 0 <= k => DftSum(R, a, w, k, |a|))
  }

  /** `w` is a principal n-th root, n == 2^e, as the transform needs it: w^(n/2) == -1. */
  ghost predicate PrincipalRoot<T>(R: Ring<T>, w: T, e: nat) {
    e >= 1 ==> Pow(R, w, Pow2(e - 1)) == R.neg(R.one)
  }

  // ------------------------------------------------- polynomial evaluation (Horner)

  function Eval<T>(R: Ring<T>, a: seq<T>, x: T): T {
    if a == [] then R.zero else R.add(a[0], R.mul(x, Eval(R, a[1..], x)))
  }

  lemma {:induction false} EvalSnoc<T(!new)>(R: Ring<T>, a: seq<T>, c: T, x: T)
    requires IsCommutativeRing(R)
    ensures Eval(R, a + [c], x) == R.add(Eval(R, a, x), R.mul(c, Pow(R, x, |a|)))
  {
    if a == [] {
      assert (a + [c])[1..] == [];
      MulZero(R, x);
      assert LawsAt(R, c, R.zero, R.zero);
      assert LawsAt(R, c, R.one, R.one);
      assert LawsAt(R, R.zero, c, c);
    } else {
      EvalSnoc(R, a[1..], c, x);
      assert (a + [c])[1..] == a[1..] + [c];
      var e, p := Eval(R, a[1..], x), Pow(R, x, |a| - 1);
      assert LawsAt(R, x, e, R.mul(c, p));
      assert LawsAt(R, x, c, p);
      assert LawsAt(R, c, x, p);
      assert LawsAt(R, a[0], R.mul(x, e), R.mul(c, R.mul(x, p)));
    }
  }

  lemma {:induction false} EvalIsSum<T(!new)>(R: Ring<T>, a: seq<T>, w: T, k: nat, m: nat)
    requires IsCommutativeRing(R)
    requires m <= |a|
    ensures Eval(R, a[..m], Pow(R, w, k)) == DftSum(R, a, w, k, m)
  {
    if m > 0 {
      EvalIsSum(R, a, w, k, m - 1);
      EvalSnoc(R, a[..m - 1], a[m - 1], Pow(R, w, k));
      assert a[..m] == a[..m - 1] + [a[m - 1]];
      PowMul(R, w, k, m - 1);
    }
  }

  lemma DftByEval<T(!new)>(R: Ring<T>, a: seq<T>, w: T, k: nat)
    requires IsCommutativeRing(R)
    requires k < |a|
    ensures Dft(R, a, w)[k] == Eval(R, a, Pow(R, w, k))
  {
    EvalIsSum(R, a, w, k, |a|);
    assert a[..|a|] == a;
  }

  // ---------------------------------------------------- even and odd subsequences

  function Evens<T>(s: seq<T>): (r: seq<T>)
    ensures |r| == (|s| + 1) / 2
    ensures forall k :: 0 <= k < |r| ==> r[k] == s[2 * k]
  {
    seq((|s| + 1) / 2, k requires 0 <= k < (|s| + 1) / 2 => s[2 * k])
  }

  function Odds<T>(s: seq<T>): (r: seq<T>)
    ensures |r| == |s| / 2
    ensures forall k :: 0 <= k < |r| ==> r[k] == s[2 * k + 1]
  {
    seq(|s| / 2, k requires 0 <= k < |s| / 2 => s[2 * k + 1])
  }

  /** p(x) == e(x^2) + x * o(x^2), the step that makes the transform fast. */
  lemma {:induction false} EvalSplit<T(!new)>(R: Ring<T>, a: seq<T>, x: T)
    requires IsCommutativeRing(R)
    ensures Eval(R, a, x)
         == R.add(Eval(R, Evens(a), R.mul(x, x)), R.mul(x, Eval(R, Odds(a), R.mul(x, x))))
    decreases |a|
  {
    var xx := R.mul(x, x);
    if |a| <= 1 {
      MulZero(R, x);
      MulZero(R, xx);
      assert LawsAt(R, R.zero, R.zero, R.zero);
      if |a| == 1 {
        assert a[1..] == [] && Evens(a)[1..] == [];
        assert LawsAt(R, a[0], R.zero, R.zero);
      }
    } else {
      EvalSplit(R, a[2..], x);
      assert Evens(a)[1..] == Evens(a[2..]);
      assert Odds(a)[1..] == Odds(a[2..]);
      assert a[1..][1..] == a[2..];
      EvalRegroup(R, x, a[0], a[1], Eval(R, Evens(a[2..]), xx), Eval(R, Odds(a[2..]), xx));
    }
  }

  /** a + x(b + x(e + xo)) == (a + x^2 e) + x(b + x^2 o) */
  lemma EvalRegroup<T(!new)>(R: Ring<T>, x: T, a: T, b: T, e: T, o: T)
    requires IsCommutativeRing(R)
    ensures R.add(a, R.mul(x, R.add(b, R.mul(x, R.add(e, R.mul(x, o))))))
         == R.add(R.add(a, R.mul(R.mul(x, x), e)), R.mul(x, R.add(b, R.mul(R.mul(x, x), o))))
  {
    var xe, xxo := R.mul(x, e), R.mul(x, R.mul(x, o));
    var q, r, s := R.mul(x, b), R.mul(x, xe), R.mul(x, xxo);
    assert LawsAt(R, x, e, R.mul(x, o));   // x(e + xo) == xe + xxo
    assert LawsAt(R, x, b, R.add(xe, xxo));
    assert LawsAt(R, x, xe, xxo);          // left side: a + (q + (r + s))
    assert LawsAt(R, x, x, e);
    assert LawsAt(R, x, x, o);
    assert LawsAt(R, x, b, xxo);           // right side: (a + r) + (q + s)
    assert LawsAt(R, a, r, R.add(q, s));
    assert LawsAt(R, r, q, s);
    assert LawsAt(R, q, r, s);
  }

  // ------------------------------------------------------ one pass of butterflies

  /** Combine the transforms of the two halves: u + w^k v on the left, u - w^k v on the right. */
  function ButterflyAt<T>(R: Ring<T>, u: seq<T>, v: seq<T>, w: T, k: nat): T
    requires |u| == |v| && k < 2 * |u|
  {
    var h := |u|;
    if k < h then R.add(u[k], R.mul(v[k], Pow(R, w, k)))
    else R.Sub(u[k - h], R.mul(v[k - h], Pow(R, w, k - h)))
  }

  function Butterfly<T>(R: Ring<T>, u: seq<T>, v: seq<T>, w: T): (r: seq<T>)
    requires |u| == |v|
    ensures |r| == 2 * |u|
  {
    seq(2 * |u|, k requires 0 <= k < 2 * |u| => ButterflyAt(R, u, v, w, k))
  }

  /** Decimation in time over 2^e entries: transform both halves, then combine them. */
  function Dit<T>(R: Ring<T>, e: nat, p: seq<T>, w: T): (r: seq<T>)
    requires |p| == Pow2(e)
    ensures |r| == |p|
  {
    if e == 0 then p
    else
      var h := Pow2(e - 1);
      Butterfly(R, Dit(R, e - 1, p[..h], R.mul(w, w)), Dit(R, e - 1, p[h..], R.mul(w, w)), w)
  }

  function BitReversed<T>(e: nat, s: seq<T>): (r: seq<T>)
    requires |s| == Pow2(e)
    ensures |r| == |s|
  {
    if e == 0 then s else BitReversed(e - 1, Evens(s)) + BitReversed(e - 1, Odds(s))
  }

  lemma HalfTurn<T(!new)>(R: Ring<T>, w: T, k: nat, h: nat)
    requires IsCommutativeRing(R)
    requires Pow(R, w, h) == R.neg(R.one)
    ensures Pow(R, w, k + h) == R.neg(Pow(R, w, k))
  {
    var y := Pow(R, w, k);
    PowAdd(R, w, k, h);
    NegMul(R, R.one, y);
    assert LawsAt(R, y, R.neg(R.one), y);
    assert LawsAt(R, y, R.one, R.one);
    assert LawsAt(R, R.one, y, y);
  }

  /** One butterfly level in terms of evaluation, left output. */
  lemma SplitLow<T(!new)>(R: Ring<T>, s: seq<T>, w: T, k: nat)
    requires IsCommutativeRing(R)
    ensures var z := Pow(R, R.mul(w, w), k);
      Eval(R, s, Pow(R, w, k)) == R.add(Eval(R, Evens(s), z), R.mul(Eval(R, Odds(s), z), Pow(R, w, k)))
  {
    var y := Pow(R, w, k);
    PowSquare(R, w, k);
    EvalSplit(R, s, y);
    var v := Eval(R, Odds(s), R.mul(y, y));
    assert LawsAt(R, y, v, v);
  }

  /** The same level, right output: half a turn further the odd part changes sign. */
  lemma SplitHigh<T(!new)>(R: Ring<T>, s: seq<T>, w: T, k: nat, h: nat)
    requires IsCommutativeRing(R)
    requires Pow(R, w, h) == R.neg(R.one)
    ensures var z := Pow(R, R.mul(w, w), k);
      Eval(R, s, Pow(R, w, k + h)) == R.Sub(Eval(R, Evens(s), z), R.mul(Eval(R, Odds(s), z), Pow(R, w, k)))
  {
    var y := Pow(R, w, k);
    HalfTurn(R, w, k, h);
    PowSquare(R, w, k);
    NegSquare(R, y);
    EvalSplit(R, s, R.neg(y));
    var v := Eval(R, Odds(s), R.mul(y, y));
    NegMul(R, y, v);
    assert LawsAt(R, y, v, v);
  }

  lemma ButterflyOfDfts<T(!new)>(R: Ring<T>, s: seq<T>, w: T, u: seq<T>, v: seq<T>, k: nat)
    requires IsCommutativeRing(R)
    requires |s| == 2 * |u| && |u| == |v| && k < |s|
    requires u == Dft(R, Evens(s), R.mul(w, w)) && v == Dft(R, Odds(s), R.mul(w, w))
    requires Pow(R, w, |u|) == R.neg(R.one)
    ensures ButterflyAt(R, u, v, w, k) == Eval(R, s, Pow(R, w, k))
  {
    var ww, h := R.mul(w, w), |u|;
    var i := if k < h then k else k - h;
    assert u[i] == Eval(R, Evens(s), Pow(R, ww, i)) by { DftByEval(R, Evens(s), ww, i); }
    assert v[i] == Eval(R, Odds(s), Pow(R, ww, i)) by { DftByEval(R, Odds(s), ww, i); }
    if k < h { SplitLow(R, s, w, i); } else { SplitHigh(R, s, w, i, h); }
  }

  lemma DftSingle<T(!new)>(R: Ring<T>, s: seq<T>, w: T)
    requires IsCommutativeRing(R)
    requires |s| == 1
    ensures Dft(R, s, w) == s
  {
    DftByEval(R, s, w, 0);
    MulZero(R, Pow(R, w, 0));
    assert LawsAt(R, s[0], R.zero, R.zero);
  }

  /** Squaring a principal root gives one for half the length. */
  lemma RootSquared<T(!new)>(R: Ring<T>, w: T, e: nat)
    requires IsCommutativeRing(R)
    requires e >= 1 && PrincipalRoot(R, w, e)
    ensures PrincipalRoot(R, R.mul(w, w), e - 1)
  {
    if e >= 2 {
      PowSquare(R, w, Pow2(e - 2));
      PowAdd(R, w, Pow2(e - 2), Pow2(e - 2));
    }
  }

  /** Cooley-Tukey: the passes applied to bit-reversed input are the transform. */
  lemma {:induction false} DitOfBitReversed<T(!new)>(R: Ring<T>, e: nat, s: seq<T>, w: T)
    requires IsCommutativeRing(R)
    requires |s| == Pow2(e) && PrincipalRoot(R, w, e)
    ensures Dit(R, e, BitReversed(e, s), w) == Dft(R, s, w)
  {
    if e == 0 {
      DftSingle(R, s, w);
    } else {
      var h, ww, p := Pow2(e - 1), R.mul(w, w), BitReversed(e, s);
      assert p[..h] == BitReversed(e - 1, Evens(s)) && p[h..] == BitReversed(e - 1, Odds(s));
      RootSquared(R, w, e);
      DitOfBitReversed(R, e - 1, Evens(s), ww);
      DitOfBitReversed(R, e - 1, Odds(s), ww);
      var u, v := Dft(R, Evens(s), ww), Dft(R, Odds(s), ww);
      forall k | 0 <= k < |s| ensures Dit(R, e, p, w)[k] == Dft(R, s, w)[k] {
        ButterflyOfDfts(R, s, w, u, v, k);
        DftByEval(R, s, w, k);
      }
    }
  }

  // -------------------------------------------------------------- bit reversal

  /** Reversal of the bits of i in a word of e bits. */
  function Rev(e: nat, i: nat): (r: nat)
    requires i < Pow2(e)
    ensures r < Pow2(e)
  {
    if e == 0 then 0
    else if i % 2 == 0 then Rev(e - 1, i / 2)
    else Pow2(e - 1) + Rev(e - 1, i / 2)
  }

  /** The same value, reading i from the top bit. */
  lemma {:induction false} RevTop(e: nat, i: nat)
    requires e >= 1 && i < Pow2(e)
    ensures i < Pow2(e - 1) ==> Rev(e, i) == 2 * Rev(e - 1, i)
    ensures i >= Pow2(e - 1) ==> Rev(e, i) == 2 * Rev(e - 1, i - Pow2(e - 1)) + 1
  {
    if e >= 2 {
      RevTop(e - 1, i / 2);
      if i >= Pow2(e - 1) {
        HalfOfGap(i, Pow2(e - 2));
      }
    }
  }

  lemma HalfOfGap(i: nat, g: nat)
    requires i >= 2 * g
    ensures (i - 2 * g) / 2 == i / 2 - g && (i - 2 * g) % 2 == i % 2 && i / 2 >= g
  {
  }

  /** Bit reversal is an involution, so the permutation loop swaps each pair once. */
  lemma {:induction false} RevInvolution(e: nat, i: nat)
    requires i < Pow2(e)
    ensures Rev(e, Rev(e, i)) == i
  {
    if e >= 1 {
      RevInvolution(e - 1, i / 2);
      RevTop(e, Rev(e, i));
    }
  }

  lemma {:induction false} RevZero(e: nat)
    ensures Rev(e, 0) == 0
  {
    if e >= 1 { RevZero(e - 1); }
  }

  lemma HalfLengths<T>(e: nat, s: seq<T>)
    requires e >= 1 && |s| == Pow2(e)
    ensures |Evens(s)| == |Odds(s)| == Pow2(e - 1) && |s| == 2 * Pow2(e - 1)
  {
  }

  lemma {:induction false} BitReversedAt<T>(e: nat, s: seq<T>, k: nat)
    requires |s| == Pow2(e) && k < |s|
    ensures BitReversed(e, s)[k] == s[Rev(e, k)]
  {
    if e >= 1 {
      var h := Pow2(e - 1);
      HalfLengths(e, s);
      RevTop(e, k);
      if k < h {
        BitReversedAt(e - 1, Evens(s), k);
      } else {
        BitReversedAt(e - 1, Odds(s), k - h);
      }
    }
  }

  /** What the carry loop does to j: add one at the top bit, carrying downwards. */
  function RevIncrement(e: nat, j: nat): nat
    requires j < Pow2(e) - 1
  {
    var h := Pow2(e - 1);
    if j < h then j + h else RevIncrement(e - 1, j - h)
  }

  lemma {:induction false} RevSuccessor(e: nat, i: nat)
    requires i + 1 < Pow2(e)
    ensures Rev(e, i) < Pow2(e) - 1
    ensures RevIncrement(e, Rev(e, i)) == Rev(e, i + 1)
  {
    if i % 2 == 0 {
      assert (i + 1) / 2 == i / 2;
    } else {
      assert (i + 1) / 2 == i / 2 + 1;
      RevSuccessor(e - 1, i / 2);
    }
  }

  function RevTable(e: nat): (t: seq<nat>)
    ensures |t| == Pow2(e)
  {
    seq(Pow2(e), i requires 0 <= i < Pow2(e) => Rev(e, i))
  }

  lemma BitTest(j: nat, bit: nat)
    requires 1 <= bit && j < 2 * bit
    ensures (j / bit) % 2 == 1 <==> j >= bit
  {
    if j >= bit {
      assert j == 1 * bit + (j - bit);
      assert j / bit == 1;
    } else {
      assert j / bit == 0;
    }
  }

  /** Lines 20-22: `j & bit` and `j ^= bit`, written for the power of two `bit`. */
  method NextReversed(n: nat, j0: nat, ghost e: nat, ghost i: nat) returns (j: nat)
    requires n == Pow2(e) && 1 <= i < n && j0 == RevTable(e)[i - 1]
    ensures j == RevTable(e)[i]
  {
    RevSuccessor(e, i - 1);
    j := j0;
    var bit := n / 2;
    ghost var d := e;
    while (j / bit) % 2 == 1
      invariant d >= 1 && bit == Pow2(d - 1) && j < 2 * bit - 1
      invariant RevIncrement(d, j) == RevIncrement(e, j0)
      decreases bit
    {
      Carry(d, bit, j);
      j := j - bit;
      bit := bit / 2;
      d := d - 1;
    }
    BitTest(j, bit);
    j := j + bit;
  }

  /** A set bit carries into the next lower one. */
  lemma Carry(d: nat, bit: nat, j: nat)
    requires d >= 1 && bit == Pow2(d - 1) && j < 2 * bit - 1 && (j / bit) % 2 == 1
    ensures d >= 2 && j >= bit && bit / 2 == Pow2(d - 2) && bit / 2 < bit && j - bit < 2 * (bit / 2) - 1
    ensures RevIncrement(d, j) == RevIncrement(d - 1, j - bit)
  {
    BitTest(j, bit);
    assert Pow2(0) == 1;
  }

  ghost predicate Involution(t: seq<nat>) {
    && (forall k :: 0 <= k < |t| ==> t[k] < |t|)
    && (forall k :: 0 <= k < |t| ==> t[t[k]] == k)
  }

  lemma RevTableInvolution(e: nat)
    ensures Involution(RevTable(e)) && RevTable(e)[0] == 0
  {
    RevZero(e);
    forall k | 0 <= k < Pow2(e) ensures RevTable(e)[k] < Pow2(e) && RevTable(e)[RevTable(e)[k]] == k {
      RevInvolution(e, k);
    }
  }

  /** The array while the permutation loop runs: index k is in its final place once k or its
      partner t[k] has been passed. */
  function PartlyPermuted<T>(s: seq<T>, t: seq<nat>, i: nat): (r: seq<T>)
    requires |t| == |s| && Involution(t)
    ensures |r| == |s|
  {
    seq(|s|, k requires 0 <= k < |s| => if k < i || t[k] < i then s[t[k]] else s[k])
  }

  function SwapIfBelow<T>(s: seq<T>, i: nat, j: nat): (r: seq<T>)
    requires i < |s| && j < |s|
    ensures |r| == |s|
  {
    if i < j then s[i := s[j]][j := s[i]] else s
  }

  /** Swapping at i < t[i] advances the permutation by one index, for any involution. */
  lemma SwapStep<T>(s: seq<T>, t: seq<nat>, i: nat)
    requires |t| == |s| && Involution(t) && i < |s|
    ensures SwapIfBelow(PartlyPermuted(s, t, i), i, t[i]) == PartlyPermuted(s, t, i + 1)
  {
    assert t[t[i]] == i;
    forall k | 0 <= k < |s|
      ensures SwapIfBelow(PartlyPermuted(s, t, i), i, t[i])[k] == PartlyPermuted(s, t, i + 1)[k]
    {
      assert t[t[k]] == k;
    }
  }

  lemma PermutedIsBitReversed<T>(e: nat, s: seq<T>)
    requires |s| == Pow2(e)
    ensures Involution(RevTable(e)) && PartlyPermuted(s, RevTable(e), |s|) == BitReversed(e, s)
  {
    RevTableInvolution(e);
    forall k | 0 <= k < |s|
      ensures PartlyPermuted(s, RevTable(e), |s|)[k] == BitReversed(e, s)[k]
    {
      BitReversedAt(e, s, k);
    }
  }

  /** Lines 19-24. */
  method Permute<T>(a: array<T>, ghost e: nat)
    requires a.Length == Pow2(e)
    modifies a
    ensures a[..] == BitReversed(e, old(a[..]))
  {
    ghost var was, t := a[..], RevTable(e);
    RevTableInvolution(e);
    var i, j := 1, 0;
    assert PartlyPermuted(was, t, 1) == was;
    while i < a.Length
      invariant 1 <= i <= a.Length && j == t[i - 1]
      invariant a[..] == PartlyPermuted(was, t, i)
    {
      j := NextReversed(a.Length, j, e, i);
      SwapStep(was, t, i);
      if i < j {
        a[i], a[j] := a[j], a[i];
      }
      assert a[..] == SwapIfBelow(PartlyPermuted(was, t, i), i, j);
      i := i + 1;
    }
    PermutedIsBitReversed(e, was);
  }

  // ------------------------------------------------------------ butterfly passes

  /** A transform of one chunk; the passes below only know how levels relate. */
  type ChunkMap<!T> = seq<T> -> seq<T>

  /** The chunk of length len at c holds f of the same chunk of p. */
  ghost predicate ChunkDone<T>(f: ChunkMap<T>, s: seq<T>, p: seq<T>, len: nat, c: nat) {
    c + len <= |s| && |s| == |p| && s[c..c + len] == f(p[c..c + len])
  }

  /** Every chunk of length len starting in [lo, hi) is done. */
  ghost predicate ChunksDone<T>(f: ChunkMap<T>, s: seq<T>, p: seq<T>, len: nat, lo: nat, hi: nat) {
    forall c {:trigger ChunkDone(f, s, p, len, c)} ::
      lo <= c < hi && Multiple(c, len) ==> ChunkDone(f, s, p, len, c)
  }

  /** g on 2h entries is the butterfly of f on the two halves. */
  ghost predicate NextLevel<T(!new)>(R: Ring<T>, f: ChunkMap<T>, g: ChunkMap<T>, h: nat, w: T) {
    forall q :: NextLevelAt(R, f, g, h, w, q)
  }

  ghost predicate NextLevelAt<T>(R: Ring<T>, f: ChunkMap<T>, g: ChunkMap<T>, h: nat, w: T, q: seq<T>) {
    |q| == 2 * h ==>
      |f(q[..h])| == |f(q[h..])| == h && g(q) == Butterfly(R, f(q[..h]), f(q[h..]), w)
  }

  /** Two neighbouring chunks, combined by butterflies, are one chunk of the next pass. */
  lemma CombineChunks<T(!new)>(R: Ring<T>, f: ChunkMap<T>, g: ChunkMap<T>,
                               s: seq<T>, t: seq<T>, p: seq<T>, h: nat, w: T, c: nat)
    requires NextLevel(R, f, g, h, w)
    requires ChunkDone(f, s, p, h, c) && ChunkDone(f, s, p, h, c + h) && |t| == |s|
    requires t[c..c + 2 * h] == Butterfly(R, s[c..c + h], s[c + h..c + 2 * h], w)
    ensures ChunkDone(g, t, p, 2 * h, c)
  {
    var q := p[c..c + 2 * h];
    assert q[..h] == p[c..c + h] && q[h..] == p[c + h..c + h + h];
    assert NextLevelAt(R, f, g, h, w, q);
  }

  lemma ChunkFrame<T>(f: ChunkMap<T>, s: seq<T>, t: seq<T>, p: seq<T>, len: nat, c: nat)
    requires ChunkDone(f, s, p, len, c) && |t| == |s|
    requires forall m :: c <= m < c + len ==> t[m] == s[m]
    ensures ChunkDone(f, t, p, len, c)
  {
    assert t[c..c + len] == s[c..c + len];
  }

  /** The block at i moves from the old pass to the new one; everything else stays. */
  lemma PassStep<T(!new)>(R: Ring<T>, f: ChunkMap<T>, g: ChunkMap<T>,
                          s: seq<T>, t: seq<T>, p: seq<T>, h: nat, w: T, i: nat)
    requires NextLevel(R, f, g, h, w)
    requires |t| == |s| == |p| && i + 2 * h <= |s| && Multiple(i, 2 * h) && Multiple(|s|, 2 * h)
    requires forall m :: 0 <= m < |s| && !(i <= m < i + 2 * h) ==> t[m] == s[m]
    requires t[i..i + 2 * h] == Butterfly(R, s[i..i + h], s[i + h..i + 2 * h], w)
    requires ChunksDone(g, s, p, 2 * h, 0, i) && ChunksDone(f, s, p, h, i, |s|)
    ensures ChunksDone(g, t, p, 2 * h, 0, i + 2 * h) && ChunksDone(f, t, p, h, i + 2 * h, |s|)
  {
    HalfMultiple(i, h);
    MultipleSum(i, h, h);
    assert ChunkDone(f, s, p, h, i) && ChunkDone(f, s, p, h, i + h);
    CombineChunks(R, f, g, s, t, p, h, w, i);
    forall c | 0 <= c < i + 2 * h && Multiple(c, 2 * h) ensures ChunkDone(g, t, p, 2 * h, c) {
      FinishedChunk(g, s, t, p, 2 * h, i, c);
    }
    forall c | i + 2 * h <= c < |s| && Multiple(c, h) ensures ChunkDone(f, t, p, h, c) {
      assert ChunkDone(f, s, p, h, c);
      ChunkFrame(f, s, t, p, h, c);
    }
  }

  /** Up to and with the block at i, every chunk is done after it. */
  lemma FinishedChunk<T>(g: ChunkMap<T>, s: seq<T>, t: seq<T>, p: seq<T>, len: nat, i: nat, c: nat)
    requires |t| == |s| == |p| && i + len <= |s| && Multiple(i, len) && Multiple(c, len) && c < i + len
    requires forall m :: 0 <= m < |s| && !(i <= m < i + len) ==> t[m] == s[m]
    requires ChunksDone(g, s, p, len, 0, i) && ChunkDone(g, t, p, len, i)
    ensures ChunkDone(g, t, p, len, c)
  {
    if c < i {
      MultipleGap(c, i, len);
      assert ChunkDone(g, s, p, len, c);
      ChunkFrame(g, s, t, p, len, c);
    } else if c > i {
      MultipleGap(i, c, len);
    }
  }

  /** x is a whole number of chunks of length c. */
  ghost predicate Multiple(x: nat, c: nat) {
    c >= 1 && (x == 0 || (x >= c && Multiple(x - c, c)))
  }

  lemma {:induction false} MultipleSum(x: nat, y: nat, c: nat)
    requires Multiple(x, c) && Multiple(y, c)
    ensures Multiple(x + y, c)
  {
    if x != 0 {
      MultipleSum(x - c, y, c);
      assert x + y - c == (x - c) + y;
    }
  }

  lemma {:induction false} HalfMultiple(x: nat, h: nat)
    requires Multiple(x, 2 * h)
    ensures Multiple(x, h) && Multiple(h, h)
  {
    assert Multiple(0, h);
    if x != 0 {
      HalfMultiple(x - 2 * h, h);
      assert Multiple(x - h, h);
    }
  }

  /** Distinct multiples are at least one chunk apart. */
  lemma {:induction false} MultipleGap(x: nat, y: nat, c: nat)
    requires Multiple(x, c) && Multiple(y, c) && x < y
    ensures x + c <= y
  {
    if x != 0 { MultipleGap(x - c, y - c, c); }
  }

  lemma {:induction false} Pow2Multiple(e: nat, d: nat)
    requires d <= e
    ensures Multiple(Pow2(e), Pow2(d))
  {
    if d < e {
      Pow2Multiple(e - 1, d);
      MultipleSum(Pow2(e - 1), Pow2(e - 1), Pow2(d));
    } else {
      assert Multiple(0, Pow2(d));
    }
  }

  /** A block of length 2h at i after its first k butterflies. */
  function BlockAfter<T>(R: Ring<T>, s: seq<T>, i: nat, h: nat, w: T, k: nat): (r: seq<T>)
    requires i + 2 * h <= |s| && k <= h
    ensures |r| == |s|
  {
    seq(|s|, m requires 0 <= m < |s| =>
      if i <= m < i + k then R.add(s[m], R.mul(s[m + h], Pow(R, w, m - i)))
      else if i + h <= m < i + h + k then R.Sub(s[m - h], R.mul(s[m], Pow(R, w, m - h - i)))
      else s[m])
  }

  lemma BlockStep<T>(R: Ring<T>, s: seq<T>, i: nat, h: nat, w: T, k: nat)
    requires i + 2 * h <= |s| && k < h
    ensures var b, v := BlockAfter(R, s, i, h, w, k), R.mul(s[i + k + h], Pow(R, w, k));
      && b[i + k] == s[i + k] && b[i + k + h] == s[i + k + h]
      && BlockAfter(R, s, i, h, w, k + 1) == b[i + k := R.add(s[i + k], v)][i + k + h := R.Sub(s[i + k], v)]
  {
  }

  lemma BlockDone<T>(R: Ring<T>, s: seq<T>, i: nat, h: nat, w: T, m: nat)
    requires i + 2 * h <= |s| && m < |s|
    ensures var r := BlockAfter(R, s, i, h, w, h);
      if i <= m < i + 2 * h then r[m] == Butterfly(R, s[i..i + h], s[i + h..i + 2 * h], w)[m - i]
      else r[m] == s[m]
  {
  }

  /** Lines 30-37: the butterflies of one block, with the running power of wlen. */
  method ButterflyBlock<T(!new)>(R: Ring<T>, a: array<T>, i: nat, h: nat, wlen: T)
    requires IsCommutativeRing(R)
    requires i + 2 * h <= a.Length
    modifies a
    ensures forall m :: 0 <= m < a.Length && !(i <= m < i + 2 * h) ==> a[m] == old(a[m])
    ensures a[i..i + 2 * h] == Butterfly(R, old(a[i..i + h]), old(a[i + h..i + 2 * h]), wlen)
  {
    ghost var was := a[..];
    var w := R.one;
    var k := 0;
    assert BlockAfter(R, was, i, h, wlen, 0) == was;
    while k < h
      invariant k <= h && w == Pow(R, wlen, k)
      invariant a[..] == BlockAfter(R, was, i, h, wlen, k)
    {
      BlockStep(R, was, i, h, wlen, k);
      var u, v := a[i + k], R.mul(a[i + k + h], w);
      a[i + k] := R.add(u, v);
      a[i + k + h] := R.Sub(u, v);
      assert LawsAt(R, w, wlen, wlen);
      w := R.mul(w, wlen);
      k := k + 1;
    }
    forall m | 0 <= m < a.Length
      ensures if i <= m < i + 2 * h
        then a[m] == Butterfly(R, was[i..i + h], was[i + h..i + 2 * h], wlen)[m - i]
        else a[m] == was[m]
    {
      BlockDone(R, was, i, h, wlen, m);
    }
    assert was[i..i + h] == old(a[i..i + h]) && was[i + h..i + 2 * h] == old(a[i + h..i + 2 * h]);
  }

  /** Lines 29-38: one pass over all blocks of length 2h. */
  method Pass<T(!new)>(R: Ring<T>, a: array<T>, h: nat, wlen: T,
                       ghost p: seq<T>, ghost f: ChunkMap<T>, ghost g: ChunkMap<T>)
    requires IsCommutativeRing(R) && NextLevel(R, f, g, h, wlen)
    requires |p| == a.Length && Multiple(a.Length, 2 * h)
    requires ChunksDone(f, a[..], p, h, 0, a.Length)
    modifies a
    ensures ChunksDone(g, a[..], p, 2 * h, 0, a.Length)
  {
    var i := 0;
    while i < a.Length
      invariant i <= a.Length && Multiple(i, 2 * h)
      invariant ChunksDone(g, a[..], p, 2 * h, 0, i)
      invariant ChunksDone(f, a[..], p, h, i, a.Length)
    {
      ghost var s := a[..];
      MultipleGap(i, a.Length, 2 * h);
      ButterflyBlock(R, a, i, h, wlen);
      PassStep(R, f, g, s, a[..], p, h, wlen, i);
      MultipleSum(2 * h, i, 2 * h);
      i := i + 2 * h;
    }
  }

  /** `root(len)` stands for the e^(-2*pi*i/len) of a level: w^(n/len), n/len being 2^(e-d)
      for len == 2^d. */
  ghost predicate LevelRoots<T>(R: Ring<T>, root: nat -> T, w: T, e: nat) {
    forall d {:trigger root(Pow2(d))} :: 1 <= d <= e ==> root(Pow2(d)) == Pow(R, w, Pow2(e - d))
  }

  /** The chunk transform of the pass with block length 2^d. */
  ghost function Level<T>(R: Ring<T>, e: nat, d: nat, w: T): ChunkMap<T>
    requires d <= e
  {
    (q: seq<T>) => if |q| == Pow2(d) then Dit(R, d, q, Pow(R, w, Pow2(e - d))) else q
  }

  /** After d passes every chunk of length 2^d is done. */
  ghost predicate PassesDone<T>(R: Ring<T>, s: seq<T>, p: seq<T>, e: nat, d: nat, w: T) {
    d <= e && ChunksDone(Level(R, e, d, w), s, p, Pow2(d), 0, |s|)
  }

  lemma FirstPass<T>(R: Ring<T>, p: seq<T>, e: nat, w: T)
    ensures PassesDone(R, p, p, e, 0, w)
  {
    var f := Level(R, e, 0, w);
    forall c | 0 <= c < |p| && Multiple(c, Pow2(0)) ensures ChunkDone(f, p, p, Pow2(0), c) {}
  }

  lemma LevelsChain<T(!new)>(R: Ring<T>, e: nat, d: nat, w: T)
    requires IsCommutativeRing(R) && d < e
    ensures NextLevel(R, Level(R, e, d, w), Level(R, e, d + 1, w), Pow2(d), Pow(R, w, Pow2(e - d - 1)))
  {
    PowAdd(R, w, Pow2(e - d - 1), Pow2(e - d - 1));
  }

  lemma LastPass<T(!new)>(R: Ring<T>, s: seq<T>, input: seq<T>, e: nat, w: T)
    requires IsCommutativeRing(R)
    requires |s| == |input| == Pow2(e) && PrincipalRoot(R, w, e)
    requires PassesDone(R, s, BitReversed(e, input), e, e, w)
    ensures s == Dft(R, input, w)
  {
    var p := BitReversed(e, input);
    assert LawsAt(R, w, R.one, R.one);
    assert Pow(R, w, 1) == R.mul(w, Pow(R, w, 0));
    assert Multiple(0, Pow2(e)) && ChunkDone(Level(R, e, e, w), s, p, Pow2(e), 0);
    assert s[0..|s|] == s && p[0..|s|] == p;
    DitOfBitReversed(R, e, input, w);
  }

  /** What the pass at this length asks for. */
  lemma LevelReady<T(!new)>(R: Ring<T>, root: nat -> T, n: nat, len: nat, e: nat, d: nat, w: T)
    requires IsCommutativeRing(R) && n == Pow2(e) && LevelRoots(R, root, w, e)
    requires d < e && len == 2 * Pow2(d)
    ensures len / 2 == Pow2(d) && 2 * (len / 2) == len == Pow2(d + 1) && Multiple(n, 2 * (len / 2))
    ensures NextLevel(R, Level(R, e, d, w), Level(R, e, d + 1, w), len / 2, root(len))
  {
    LevelsChain(R, e, d, w);
    Pow2Multiple(e, d + 1);
    assert Pow2(d + 1) == len && root(Pow2(d + 1)) == Pow(R, w, Pow2(e - d - 1));
  }

  method OneLevel<T(!new)>(R: Ring<T>, root: nat -> T, a: array<T>, len: nat,
                           ghost p: seq<T>, ghost e: nat, ghost d: nat, ghost w: T)
    requires IsCommutativeRing(R)
    requires a.Length == |p| == Pow2(e) && LevelRoots(R, root, w, e)
    requires d < e && len == 2 * Pow2(d) && PassesDone(R, a[..], p, e, d, w)
    modifies a
    ensures PassesDone(R, a[..], p, e, d + 1, w)
  {
    LevelReady(R, root, a.Length, len, e, d, w);
    Pass(R, a, len / 2, root(len), p, Level(R, e, d, w), Level(R, e, d + 1, w));
  }

  /** Lines 26-39. */
  method AllPasses<T(!new)>(R: Ring<T>, root: nat -> T, a: array<T>, ghost e: nat, ghost w: T)
    requires IsCommutativeRing(R)
    requires a.Length == Pow2(e) && LevelRoots(R, root, w, e)
    modifies a
    ensures PassesDone(R, a[..], old(a[..]), e, e, w)
  {
    ghost var p, d := a[..], 0;
    FirstPass(R, p, e, w);
    var len := 2;
    while len <= a.Length
      invariant 0 <= d <= e && len == 2 * Pow2(d)
      invariant PassesDone(R, a[..], p, e, d, w)
      decreases a.Length - len
    {
      Pow2Below(d, e);
      OneLevel(R, root, a, len, p, e, d, w);
      d := d + 1;
      len := len * 2;
    }
    Pow2Mono(d + 1, e);
  }

  /** `fftRadix2`: the in-place transform is the discrete Fourier transform. */
  method Transform<T(!new)>(R: Ring<T>, root: nat -> T, a: array<T>, ghost e: nat, ghost w: T)
    requires IsCommutativeRing(R)
    requires a.Length == 0 || a.Length == Pow2(e)
    requires PrincipalRoot(R, w, e)
    requires LevelRoots(R, root, w, e)
    modifies a
    ensures a[..] == Dft(R, old(a[..]), w)
  {
    ghost var input := a[..];
    if a.Length <= 1 {
      if a.Length == 1 { DftSingle(R, input, w); }
      return;
    }
    Permute(a, e);
    AllPasses(R, root, a, e, w);
    LastPass(R, a[..], input, e, w);
  }

  lemma {:induction false} Pow2Mono(d: nat, e: nat)
    ensures d <= e ==> Pow2(d) <= Pow2(e)
    decreases e
  {
    if d < e { Pow2Mono(d, e - 1); }
  }

  /** Another level is left as long as the block length fits. */
  lemma Pow2Below(d: nat, e: nat)
    requires Pow2(d + 1) <= Pow2(e)
    ensures d < e
  {
    Pow2Mono(e, d);
  }
}
