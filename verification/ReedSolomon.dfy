/** Polynomials with coefficients listed from the highest power down, over any commutative ring. */
module Polynomials {
  import opened Rings

  /** Horner's scheme: p[0] x^(n-1) + ... + p[n-1]. */
  ghost function Value<T>(R: Ring<T>, p: seq<T>, x: T): T {
    if p == [] then R.zero
    else R.add(R.mul(x, Value(R, p[..|p| - 1], x)), p[|p| - 1])
  }

  ghost function Plus<T>(R: Ring<T>, p: seq<T>, q: seq<T>): (r: seq<T>)
    requires |p| == |q|
    ensures |r| == |p|
  {
    seq(|p|, k requires 0 <= k < |p| => R.add(p[k], q[k]))
  }

  ghost function Scale<T>(R: Ring<T>, c: T, p: seq<T>): (r: seq<T>)
    ensures |r| == |p|
  {
    seq(|p|, k requires 0 <= k < |p| => R.mul(p[k], c))
  }

  ghost function Zeros<T>(R: Ring<T>, n: nat): (r: seq<T>)
    ensures |r| == n
  {
    seq(n, _ => R.zero)
  }

  lemma {:induction false} ValuePlus<T(!new)>(R: Ring<T>, p: seq<T>, q: seq<T>, x: T)
    requires IsCommutativeRing(R) && |p| == |q|
    ensures Value(R, Plus(R, p, q), x) == R.add(Value(R, p, x), Value(R, q, x))
  {
    if p == [] {
      assert LawsAt(R, R.zero, R.zero, R.zero);
    } else {
      var n := |p| - 1;
      ValuePlus(R, p[..n], q[..n], x);
      assert Plus(R, p, q)[..n] == Plus(R, p[..n], q[..n]);
      Interchange(R, x, Value(R, p[..n], x), Value(R, q[..n], x), p[n], q[n]);
    }
  }

  /** x(a + b) + (c + d) == (xa + c) + (xb + d) */
  lemma Interchange<T(!new)>(R: Ring<T>, x: T, a: T, b: T, c: T, d: T)
    requires IsCommutativeRing(R)
    ensures R.add(R.mul(x, R.add(a, b)), R.add(c, d)) == R.add(R.add(R.mul(x, a), c), R.add(R.mul(x, b), d))
  {
    var xa, xb := R.mul(x, a), R.mul(x, b);
    assert LawsAt(R, x, a, b);
    assert LawsAt(R, xa, xb, R.add(c, d));
    assert LawsAt(R, xb, c, d);
    assert LawsAt(R, c, xb, d);
    assert LawsAt(R, xa, c, R.add(xb, d));
  }

  lemma {:induction false} ValueScale<T(!new)>(R: Ring<T>, c: T, p: seq<T>, x: T)
    requires IsCommutativeRing(R)
    ensures Value(R, Scale(R, c, p), x) == R.mul(c, Value(R, p, x))
  {
    if p == [] {
      MulZero(R, c);
    } else {
      var n := |p| - 1;
      ValueScale(R, c, p[..n], x);
      assert Scale(R, c, p)[..n] == Scale(R, c, p[..n]);
      var v := Value(R, p[..n], x);
      assert LawsAt(R, x, c, v);
      assert LawsAt(R, c, x, v);
      assert LawsAt(R, p[n], c, c);
      assert LawsAt(R, c, R.mul(x, v), p[n]);
    }
  }

  lemma {:induction false} ValueZeros<T(!new)>(R: Ring<T>, n: nat, x: T)
    requires IsCommutativeRing(R)
    ensures Value(R, Zeros(R, n), x) == R.zero
  {
    if n > 0 {
      ValueZeros(R, n - 1, x);
      assert Zeros(R, n)[..n - 1] == Zeros(R, n - 1);
      MulZero(R, x);
      assert LawsAt(R, R.zero, R.zero, R.zero);
    }
  }

  /** Leading zeros do not count. */
  lemma {:induction false} ValueLeadingZeros<T(!new)>(R: Ring<T>, n: nat, p: seq<T>, x: T)
    requires IsCommutativeRing(R)
    ensures Value(R, Zeros(R, n) + p, x) == Value(R, p, x)
  {
    if p == [] {
      ValueZeros(R, n, x);
      assert Zeros(R, n) + p == Zeros(R, n);
    } else {
      var m := |p| - 1;
      ValueLeadingZeros(R, n, p[..m], x);
      assert (Zeros(R, n) + p)[..n + m] == Zeros(R, n) + p[..m];
    }
  }

  /** A root stays a root when the polynomial is shifted up. */
  lemma {:induction false} RootShifted<T(!new)>(R: Ring<T>, p: seq<T>, n: nat, x: T)
    requires IsCommutativeRing(R)
    requires Value(R, p, x) == R.zero
    ensures Value(R, p + Zeros(R, n), x) == R.zero
  {
    if n == 0 {
      assert p + Zeros(R, 0) == p;
    } else {
      RootShifted(R, p, n - 1, x);
      assert (p + Zeros(R, n))[..|p| + n - 1] == p + Zeros(R, n - 1);
      MulZero(R, x);
      assert LawsAt(R, R.zero, R.zero, R.zero);
    }
  }

  /** The division step: add c * g at offset i. */
  ghost function AddAt<T>(R: Ring<T>, p: seq<T>, i: nat, g: seq<T>, c: T): (r: seq<T>)
    requires i + |g| <= |p|
    ensures |r| == |p|
  {
    seq(|p|, k requires 0 <= k < |p| => if i <= k < i + |g| then R.add(p[k], R.mul(g[k - i], c)) else p[k])
  }

  /** Adding a shifted multiple of g keeps the value at every root of g. */
  lemma ValueAddAt<T(!new)>(R: Ring<T>, p: seq<T>, i: nat, g: seq<T>, c: T, x: T)
    requires IsCommutativeRing(R)
    requires i + |g| <= |p| && Value(R, g, x) == R.zero
    ensures Value(R, AddAt(R, p, i, g, c), x) == Value(R, p, x)
  {
    var s := Scale(R, c, g);
    var n := |p| - i - |g|;
    var u := Zeros(R, i) + (s + Zeros(R, n));
    ValueScale(R, c, g, x);
    MulZero(R, c);
    RootShifted(R, s, n, x);
    ValueLeadingZeros(R, i, s + Zeros(R, n), x);
    ValuePlus(R, p, u, x);
    assert LawsAt(R, Value(R, p, x), R.zero, R.zero);
    forall k | 0 <= k < |p| ensures AddAt(R, p, i, g, c)[k] == Plus(R, p, u)[k] {
      assert LawsAt(R, p[k], R.zero, R.zero);
    }
    assert AddAt(R, p, i, g, c) == Plus(R, p, u);
  }

  /** g * (x - root) in characteristic two: g shifted up plus root * g. */
  ghost function TimesLinear<T>(R: Ring<T>, g: seq<T>, root: T): (r: seq<T>)
    ensures |r| == |g| + 1
  {
    Plus(R, g + [R.zero], [R.zero] + Scale(R, root, g))
  }

  lemma ValueTimesLinear<T(!new)>(R: Ring<T>, g: seq<T>, root: T, x: T)
    requires IsCommutativeRing(R)
    ensures Value(R, TimesLinear(R, g, root), x)
         == R.add(R.mul(x, Value(R, g, x)), R.mul(root, Value(R, g, x)))
  {
    var v := Value(R, g, x);
    ValuePlus(R, g + [R.zero], [R.zero] + Scale(R, root, g), x);
    assert (g + [R.zero])[..|g|] == g;
    assert LawsAt(R, R.mul(x, v), R.zero, R.zero);
    assert [R.zero] == Zeros(R, 1);
    ValueLeadingZeros(R, 1, Scale(R, root, g), x);
    ValueScale(R, root, g, x);
  }

  /** The new root and every old one. */
  lemma RootsOfTimesLinear<T(!new)>(R: Ring<T>, g: seq<T>, root: T, x: T)
    requires IsCommutativeRing(R)
    requires x == root || Value(R, g, x) == R.zero
    requires R.neg(R.mul(x, Value(R, g, x))) == R.mul(x, Value(R, g, x))
    ensures Value(R, TimesLinear(R, g, root), x) == R.zero
  {
    var v := Value(R, g, x);
    ValueTimesLinear(R, g, root, x);
    if x == root {
      assert LawsAt(R, R.mul(x, v), R.zero, R.zero);
    } else {
      MulZero(R, x);
      MulZero(R, root);
      assert LawsAt(R, R.zero, R.zero, R.zero);
    }
  }
}

/** Error correction codewords, src/web/QrEncoder.cpp lines 12 to 62. */
module ReedSolomon {
  import opened Rings
  import opened Gf256
  import opened Polynomials

  /** Lines 20 and 21: shifting in a wider word and subtracting 0x11D multiplies by alpha. */
  method NextPower(b: bv8) returns (c: bv8)
    ensures c == XTimes(b)
  {
    var x := b as bv16;
    x := x << 1;
    if x & 0x100 != 0 { x := x ^ 0x11D; }
    c := x as bv8;
  }

  lemma ByteIndex(b: bv8)
    ensures 0 <= b as int < 256 && (b as int) as bv8 == b
  {
  }

  /** The byte as an array index. */
  function Index(b: bv8): (n: nat)
    ensures n < 256
  {
    ByteIndex(b);
    b as int
  }

  /** What the table loop needs to know about indexing by bytes. */
  ghost predicate IndexesAt(ix: bv8 -> nat, b: bv8, c: bv8) {
    ix(b) < 256 && (ix(b) == ix(c) ==> b == c)
  }

  ghost predicate Indexes(ix: bv8 -> nat) {
    forall b, c :: IndexesAt(ix, b, c)
  }

  lemma IndexIndexes()
    ensures Indexes(Index)
  {
    forall b, c ensures IndexesAt(Index, b, c) {
      ByteIndex(b);
      ByteIndex(c);
    }
  }

  /** alpha^0 .. alpha^255, as the walk the table loop follows. */
  ghost function Powers(): (p: seq<bv8>)
    ensures |p| == 256
  {
    seq(256, k requires 0 <= k => Exp(k))
  }

  ghost predicate IsWalk(p: seq<bv8>) {
    && |p| == 256 && p[0] == 1
    && forall k :: 0 <= k < 255 ==> StepAt(p, k)
  }

  ghost predicate StepAt(p: seq<bv8>, k: nat)
    requires |p| == 256 && k < 255
  {
    p[k + 1] == XTimes(p[k])
  }

  lemma PowersWalk()
    ensures IsWalk(Powers()) && Powers()[255] == 1
  {
    ExpPeriod(0);
    forall k | 0 <= k < 255 ensures StepAt(Powers(), k) { Next(k, Exp(k)); }
  }

  ghost predicate LogOk(p: seq<bv8>, log: seq<nat>, ix: bv8 -> nat, b: bv8) {
    |p| == 256 && ix(b) < |log| && log[ix(b)] < 255 && p[log[ix(b)]] == b
  }

  /** The first n entries of p have their index, or that of an equal entry, in the table. */
  ghost predicate LogsUpTo(p: seq<bv8>, log: seq<nat>, ix: bv8 -> nat, n: nat) {
    |p| == 256 && |log| == 256 && n <= 255 && forall k :: 0 <= k < n ==> LogOk(p, log, ix, p[k])
  }

  /** Entering a logarithm keeps every earlier one right, even where it overwrites it. */
  lemma LogsStep(p: seq<bv8>, log: seq<nat>, ix: bv8 -> nat, n: nat, b: bv8)
    requires Indexes(ix) && LogsUpTo(p, log, ix, n) && n < 255 && b == p[n]
    ensures ix(b) < 256 && LogsUpTo(p, log[ix(b) := n], ix, n + 1)
  {
    assert IndexesAt(ix, b, b);
    forall k | 0 <= k < n + 1 ensures LogOk(p, log[ix(b) := n], ix, p[k]) {
      assert IndexesAt(ix, p[k], b);
      if k < n { assert LogOk(p, log, ix, p[k]); }
    }
  }

  /** Lines 16 to 23. */
  method FillTables(exp: array<bv8>, log: array<nat>, ix: bv8 -> nat, ghost p: seq<bv8>)
    requires exp.Length == 256 && log.Length == 256 && exp as object != log
    requires Indexes(ix) && IsWalk(p) && p[255] == p[0]
    modifies exp, log
    ensures exp[..] == p && LogsUpTo(p, log[..], ix, 255)
  {
    var x: bv8 := 1;
    var i := 0;
    while i < 255
      invariant 0 <= i <= 255 && x == p[i]
      invariant forall k :: 0 <= k < i ==> exp[k] == p[k]
      invariant LogsUpTo(p, log[..], ix, i)
    {
      LogsStep(p, log[..], ix, i, x);
      exp[i] := x;
      log[ix(x)] := i;
      x := NextPower(x);
      assert StepAt(p, i);
      i := i + 1;
    }
    ghost var logs := log[..];
    exp[255] := exp[0];
    assert log[..] == logs;
  }

  class Tables {
    const exp: array<bv8>
    const log: array<nat>

    ghost predicate Valid()
      reads exp, log
    {
      && exp.Length == 256 && log.Length == 256
      && (forall i :: 0 <= i < 256 ==> exp[i] == Exp(i))
      && (forall b: bv8 :: b != 0 ==> IsLog(b, log[Index(b)]))
    }

    /** The tables hold the powers of alpha and a logarithm of every non-zero byte. */
    constructor ()
      ensures Valid() && fresh(exp) && fresh(log)
    {
      exp := new bv8[256];
      log := new nat[256];
      new;
      PowersWalk();
      IndexIndexes();
      FillTables(exp, log, Index, Powers());
      forall b: bv8 | b != 0 ensures IsLog(b, log[Index(b)]) {
        ghost var p := Powers();
        assert p[Log(b)] == b && LogOk(p, log[..], Index, p[Log(b)]);
      }
    }

    function Product(a: bv8, b: bv8): (r: bv8)
      requires Valid()
      reads exp, log
      ensures r == Mul(a, b)
    {
      if a == 0 || b == 0 then
        MulZeroRight(a);
        0
      else
        assert IsLog(a, log[Index(a)]) && IsLog(b, log[Index(b)]);
        MulByLogs(a, b, log[Index(a)], log[Index(b)]);
        exp[(log[Index(a)] + log[Index(b)]) % 255]
    }
  }

  function Reversed<T>(s: seq<T>): (r: seq<T>)
    ensures |r| == |s|
    ensures forall k :: 0 <= k < |s| ==> r[k] == s[|s| - 1 - k]
  {
    seq(|s|, k requires 0 <= k < |s| => s[|s| - 1 - k])
  }

  ghost predicate IsRoot(g: seq<bv8>, m: nat) {
    Value(GF(), g, Exp(m)) == 0
  }

  /** The polynomial vanishes at alpha^0 .. alpha^(ec-1): all its syndromes are zero. */
  ghost predicate IsCodeword(code: seq<bv8>, ec: nat) {
    forall m :: 0 <= m < ec ==> IsRoot(code, m)
  }

  lemma XorZero(b: bv8)
    ensures Xor(0, b) == b && Xor(b, 0) == b
  {
  }

  /** Entry j of the low-to-high product of g with (x - c), as lines 42 and 43 build it. */
  ghost function ProductEntry(g: seq<bv8>, c: bv8, j: nat): bv8
    requires j <= |g|
  {
    Xor(if j > 0 then g[j - 1] else 0, if j < |g| then Mul(g[j], c) else 0)
  }

  /** Lines 40 to 45. */
  method TimesFactor(gf: Tables, g: seq<bv8>, c: bv8) returns (next: seq<bv8>)
    requires gf.Valid()
    ensures |next| == |g| + 1
    ensures forall j :: 0 <= j <= |g| ==> next[j] == ProductEntry(g, c, j)
  {
    var a := new bv8[|g| + 1](_ => 0);
    var j := 0;
    assert PartProduct(a[..], g, c, 0);
    while j < |g|
      invariant j <= |g| && PartProduct(a[..], g, c, j)
    {
      PartProductStep(a[..], g, c, j);
      var m := gf.Product(g[j], c);
      ghost var stepped := a[..][j + 1 := Xor(a[j + 1], g[j])][j := Xor(a[j], m)];
      a[j + 1] := Xor(a[j + 1], g[j]);
      a[j] := Xor(a[j], m);
      assert a[..] == stepped;
      j := j + 1;
    }
    next := a[..];
    PartProductDone(next, g, c);
  }

  /** The product's entries below j are done, entry j holds what the shift put there. */
  ghost predicate PartProduct(s: seq<bv8>, g: seq<bv8>, c: bv8, j: nat) {
    && |s| == |g| + 1 && j <= |g|
    && (forall k :: 0 <= k < j ==> s[k] == ProductEntry(g, c, k))
    && s[j] == (if j > 0 then g[j - 1] else 0)
    && (forall k :: j < k <= |g| ==> s[k] == 0)
  }

  lemma PartProductStep(s: seq<bv8>, g: seq<bv8>, c: bv8, j: nat)
    requires j < |g| && PartProduct(s, g, c, j)
    ensures PartProduct(s[j + 1 := Xor(s[j + 1], g[j])][j := Xor(s[j], Mul(g[j], c))], g, c, j + 1)
  {
    assert Xor(s[j + 1], g[j]) == g[j] by { XorZero(g[j]); }
    assert Xor(s[j], Mul(g[j], c)) == ProductEntry(g, c, j) by { XorZero(Mul(g[j], c)); }
  }

  lemma PartProductDone(s: seq<bv8>, g: seq<bv8>, c: bv8)
    requires PartProduct(s, g, c, |g|)
    ensures forall j :: 0 <= j <= |g| ==> s[j] == ProductEntry(g, c, j)
  {
    XorZero(s[|g|]);
  }

  lemma FactorReversed(g: seq<bv8>, c: bv8, next: seq<bv8>)
    requires |next| == |g| + 1
    requires forall j :: 0 <= j <= |g| ==> next[j] == ProductEntry(g, c, j)
    ensures Reversed(next) == TimesLinear(GF(), Reversed(g), c)
  {
    var r, t := Reversed(next), TimesLinear(GF(), Reversed(g), c);
    forall k | 0 <= k < |r| ensures r[k] == t[k] {
      var j := |g| - k;
      assert r[k] == next[j] == ProductEntry(g, c, j);
    }
  }

  /** Lines 38 to 50: the generator, leading coefficient first. It is monic and vanishes at
      alpha^0 .. alpha^(ecLen-1). Line 43 indexes the power table, which has 256 entries. */
  method Generator(gf: Tables, ecLen: nat) returns (gen: seq<bv8>)
    requires gf.Valid() && ecLen <= 256
    ensures |gen| == ecLen + 1 && gen[0] == 1
    ensures IsCodeword(gen, ecLen)
  {
    var low: seq<bv8> := [1];
    var i := 0;
    while i < ecLen
      invariant i <= ecLen && |low| == i + 1 && low[i] == 1
      invariant IsCodeword(Reversed(low), i)
    {
      var next := TimesFactor(gf, low, gf.exp[i]);
      GeneratorStep(low, next, i);
      low := next;
      i := i + 1;
    }
    gen := Reversed(low);
  }

  lemma GeneratorStep(g: seq<bv8>, next: seq<bv8>, i: nat)
    requires |g| == i + 1 && |next| == i + 2 && g[i] == 1
    requires forall j :: 0 <= j <= |g| ==> next[j] == ProductEntry(g, Exp(i), j)
    requires IsCodeword(Reversed(g), i)
    ensures next[i + 1] == 1 && IsCodeword(Reversed(next), i + 1)
  {
    assert next[i + 1] == ProductEntry(g, Exp(i), i + 1);
    XorLaws(1, 0, 0);
    FactorReversed(g, Exp(i), next);
    FieldLaws();
    forall m | 0 <= m < i + 1 ensures IsRoot(Reversed(next), m) {
      if m < i { assert IsRoot(Reversed(g), m); }
      RootsOfTimesLinear(GF(), Reversed(g), Exp(i), Exp(m));
    }
  }

  /** Lines 57 to 59. */
  method AddMultiple(gf: Tables, res: array<bv8>, i: nat, gen: seq<bv8>, coef: bv8)
    requires gf.Valid() && i + |gen| <= res.Length
    requires res != gf.exp && res as object != gf.log
    modifies res
    ensures res[..] == AddAt(GF(), old(res[..]), i, gen, coef)
  {
    ghost var was := res[..];
    var j := 0;
    while j < |gen|
      invariant j <= |gen| && gf.Valid()
      invariant forall k :: 0 <= k < res.Length ==>
        res[k] == if i <= k < i + j then Xor(was[k], Mul(gen[k - i], coef)) else was[k]
    {
      res[i + j] := Xor(res[i + j], gf.Product(gen[j], coef));
      j := j + 1;
    }
  }

  lemma DivisionStep(res: seq<bv8>, i: nat, gen: seq<bv8>, ec: nat)
    requires i + |gen| <= |res| && |gen| >= 1 && gen[0] == 1 && IsCodeword(gen, ec)
    ensures var r := AddAt(GF(), res, i, gen, res[i]);
      && r[i] == 0 && r[..i] == res[..i]
      && forall m :: 0 <= m < ec ==> SameSyndrome(r, res, m)
  {
    FieldLaws();
    assert LawsAt(GF(), res[i], 1, 1);
    assert LawsAt(GF(), 1, res[i], 1);
    var r := AddAt(GF(), res, i, gen, res[i]);
    forall m | 0 <= m < ec ensures SameSyndrome(r, res, m) {
      assert IsRoot(gen, m);
      ValueAddAt(GF(), res, i, gen, res[i], Exp(m));
    }
  }

  ghost predicate SameSyndrome(p: seq<bv8>, q: seq<bv8>, m: nat) {
    Value(GF(), p, Exp(m)) == Value(GF(), q, Exp(m))
  }

  ghost predicate SameSyndromes(p: seq<bv8>, q: seq<bv8>, ec: nat) {
    forall m :: 0 <= m < ec ==> SameSyndrome(p, q, m)
  }

  /** Lines 54 to 60, for one i: entry i becomes zero and no syndrome changes. */
  method DivideAt(gf: Tables, res: array<bv8>, i: nat, gen: seq<bv8>, ghost ec: nat, ghost start: seq<bv8>)
    requires gf.Valid() && i + |gen| <= res.Length && |gen| >= 1 && gen[0] == 1 && IsCodeword(gen, ec)
    requires res != gf.exp && res as object != gf.log
    requires SameSyndromes(res[..], start, ec)
    modifies res
    ensures res[i] == 0 && res[..i] == old(res[..i])
    ensures SameSyndromes(res[..], start, ec)
  {
    var coef := res[i];
    if coef == 0 { return; }
    ghost var was := res[..];
    DivisionStep(was, i, gen, ec);
    AddMultiple(gf, res, i, gen, coef);
    assert was[..i] == old(res[..i]) && res[..][..i] == res[..i];
    forall m | 0 <= m < ec ensures SameSyndrome(res[..], start, m) {
      assert SameSyndrome(was, start, m) && SameSyndrome(res[..], was, m);
    }
  }

  /** Lines 52 to 61: the remainder of data * x^ecLen. */
  method Remainder(gf: Tables, data: seq<bv8>, gen: seq<bv8>, ecLen: nat) returns (ecc: seq<bv8>)
    requires gf.Valid() && |gen| == ecLen + 1 && gen[0] == 1 && IsCodeword(gen, ecLen)
    ensures |ecc| == ecLen
    ensures SameSyndromes(Zeros(GF(), |data|) + ecc, data + Zeros(GF(), ecLen), ecLen)
  {
    ghost var start := data + Zeros(GF(), ecLen);
    var res := new bv8[|data| + ecLen](k requires 0 <= k => if k < |data| then data[k] else 0);
    assert res[..] == start;
    var i := 0;
    while i < |data|
      invariant i <= |data| && gf.Valid()
      invariant forall k :: 0 <= k < i ==> res[k] == 0
      invariant SameSyndromes(res[..], start, ecLen)
    {
      ghost var front := res[..i];
      DivideAt(gf, res, i, gen, ecLen, start);
      forall k | 0 <= k < i ensures res[k] == 0 { assert res[..i][k] == front[k]; }
      i := i + 1;
    }
    ecc := res[|data|..];
    assert res[..] == Zeros(GF(), |data|) + ecc;
  }

  /** `rsEncode`: data followed by its error correction codewords has only zero syndromes. */
  method Encode(gf: Tables, data: seq<bv8>, ecLen: nat) returns (ecc: seq<bv8>)
    requires gf.Valid() && ecLen <= 256
    ensures |ecc| == ecLen
    ensures IsCodeword(data + ecc, ecLen)
  {
    var gen := Generator(gf, ecLen);
    ecc := Remainder(gf, data, gen, ecLen);
    forall m | 0 <= m < ecLen ensures IsRoot(data + ecc, m) {
      assert SameSyndrome(Zeros(GF(), |data|) + ecc, data + Zeros(GF(), ecLen), m);
      SyndromesCancel(data, ecc, m);
    }
  }

  /** data * x^ec + remainder vanishes where the two have the same value. */
  lemma SyndromesCancel(data: seq<bv8>, ecc: seq<bv8>, m: nat)
    requires SameSyndrome(Zeros(GF(), |data|) + ecc, data + Zeros(GF(), |ecc|), m)
    ensures IsRoot(data + ecc, m)
  {
    var R := GF();
    var p, q := data + Zeros(R, |ecc|), Zeros(R, |data|) + ecc;
    FieldLaws();
    ValuePlus(R, p, q, Exp(m));
    var v := Value(R, p, Exp(m));
    assert LawsAt(R, v, v, v);
    forall k | 0 <= k < |p| ensures Plus(R, p, q)[k] == (data + ecc)[k] {
      assert LawsAt(R, p[k], 0, 0);
      assert LawsAt(R, 0, q[k], 0);
      assert LawsAt(R, q[k], 0, 0);
    }
    assert Plus(R, p, q) == data + ecc;
  }
}
