/** How far apart Reed-Solomon codewords are: what the error codewords of src/web/QrEncoder.cpp
    lines 36 to 62 are for. */
module ExpOrder {
  import opened Iterates
  import opened Rings
  import opened Gf256

  /** If a power is one, the powers repeat from there. */
  lemma {:induction false} Repeats(d: nat, i: nat) returns (q: nat, k: nat)
    requires d > 0 && Exp(d) == 1
    ensures k < d && i == q * d + k && Exp(k) == Exp(i)
  {
    if i < d {
      q, k := 0, i;
    } else {
      IterAdd(XTimes, i - d, d, 1 as bv8);
      q, k := Repeats(d, i - d);
      q := q + 1;
    }
  }

  lemma {:induction false} MultipleIsOne(d: nat, q: nat)
    requires Exp(d) == 1
    ensures Exp(q * d) == 1
  {
    if q > 0 {
      MultipleIsOne(d, q - 1);
      OneMore(d, q);
      IterAdd(XTimes, (q - 1) * d, d, 1 as bv8);
    }
  }

  /** A proper divisor of 255 divides one of the three greatest. */
  lemma ProperDivisor(q: nat, d: nat) returns (r: nat)
    requires d < 255 && q * d == 255
    ensures r * d in {15, 51, 85}
  {
    BothLarge(q, d);
    if q <= 15 {
      assert q == 3 || q == 5 || q == 15;
      r := if q == 15 then 5 else 1;
    } else {
      assert d == 1 || d == 3 || d == 5 || d == 15;
      r := 15 / d;
    }
  }

  lemma BothLarge(q: nat, d: nat)
    ensures q >= 16 && d >= 16 ==> q * d >= 256
  {
    if q >= 16 && d >= 16 {
      assert (q - 16) * d >= 0;
    }
  }

  /** No power of alpha below the 255th is one again: the least such exponent would divide 255. */
  lemma {:induction false} NoShortPeriod(d: nat)
    requires 0 < d < 255
    ensures Exp(d) != 1
  {
    if Exp(d) == 1 {
      PowersCover(0, 1);
      var q, k := Repeats(d, 255);
      if k > 0 {
        NoShortPeriod(k);
      } else {
        var r := ProperDivisor(q, d);
        MultipleIsOne(d, r);
      }
      assert false;
    }
  }

  /** Products of powers add exponents. */
  lemma ExpAdd(i: nat, j: nat)
    ensures Exp(i) != 0 && Mul(Exp(i), Exp(j)) == Exp(i + j)
  {
    ExpNonZero(i);
    var k := Log(Exp(i));
    IterCommute(XTimes, k, j, 1 as bv8);
    IterAdd(XTimes, j, i, 1 as bv8);
    assert i + j == j + i;
  }

  lemma XTimesNonZero(b: bv8)
    requires b != 0
    ensures XTimes(b) != 0
  {
  }

  lemma {:induction false} ExpNonZero(i: nat)
    ensures Exp(i) != 0
  {
    if i > 0 {
      ExpNonZero(i - 1);
      Next(i - 1, Exp(i - 1));
      XTimesNonZero(Exp(i - 1));
    }
  }

  /** The first 255 powers of alpha are different. */
  lemma ExpInjective(i: nat, j: nat)
    requires i < j < 255
    ensures Exp(i) != Exp(j)
  {
    ExpAdd(i, j - i);
    if Exp(i) == Exp(j) {
      var a := Exp(i);
      var b := Inverse(a);
      var e := Exp(j - i);
      FieldLaws();
      assert LawsAt(GF(), b, a, e);      // (ba)e == b(ae)
      assert LawsAt(GF(), b, a, a);      // ba == ab
      assert LawsAt(GF(), e, 1, 1);
      assert LawsAt(GF(), 1, e, e);
      NoShortPeriod(j - i);
    }
  }

  lemma {:induction false} PowExp(a: nat, n: nat)
    ensures Pow(GF(), Exp(a), n) == Exp(a * n)
  {
    if n > 0 {
      PowExp(a, n - 1);
      OneMore(a, n);
      ExpAdd(a, a * (n - 1));
    }
  }

  lemma OneMore(a: nat, n: nat)
    requires n > 0
    ensures a * (n - 1) >= 0 && a + a * (n - 1) == a * n
  {
  }
}

/** Sums of powers over a commutative ring in which x + x = 0. */
module PowerSums {
  import opened Rings
  import opened Polynomials

  datatype Term<T> = Term(c: T, x: T)

  ghost function Sum<T>(R: Ring<T>, t: seq<Term<T>>, m: nat): T {
    if t == [] then R.zero
    else
      var last := t[|t| - 1];
      R.add(Sum(R, t[..|t| - 1], m), R.mul(last.c, Pow(R, last.x, m)))
  }

  ghost predicate CharTwoAt<T>(R: Ring<T>, x: T) {
    R.add(x, x) == R.zero
  }

  ghost predicate NoDivisorsAt<T>(R: Ring<T>, x: T, y: T) {
    R.mul(x, y) == R.zero ==> x == R.zero || y == R.zero
  }

  ghost predicate Suitable<T(!new)>(R: Ring<T>) {
    && IsCommutativeRing(R)
    && (forall x :: CharTwoAt(R, x)) && (forall x, y :: NoDivisorsAt(R, x, y))
  }

  lemma AddZeroLeft<T(!new)>(R: Ring<T>, x: T)
    requires IsCommutativeRing(R)
    ensures R.add(R.zero, x) == x
  {
    assert LawsAt(R, x, R.zero, R.zero);
  }

  /** x + y = 0 only if x = y. */
  lemma SumZero<T(!new)>(R: Ring<T>, x: T, y: T)
    requires Suitable(R) && R.add(x, y) == R.zero
    ensures x == y
  {
    assert CharTwoAt(R, y);
    assert LawsAt(R, x, y, y);
    assert LawsAt(R, x, R.zero, R.zero);
    AddZeroLeft(R, y);
  }

  /** The term whose coefficient is multiplied by (y + x). */
  ghost function Shifted<T>(R: Ring<T>, t: Term<T>, x: T): Term<T> {
    Term(R.mul(t.c, R.add(t.x, x)), t.x)
  }

  ghost function AllShifted<T>(R: Ring<T>, t: seq<Term<T>>, x: T): (r: seq<Term<T>>)
    ensures |r| == |t|
  {
    seq(|t|, k requires 0 <= k < |t| => Shifted(R, t[k], x))
  }

  /** (c (y + x)) p = c (y p) + x (c p) */
  lemma ShiftedTerm<T(!new)>(R: Ring<T>, c: T, y: T, x: T, p: T)
    requires IsCommutativeRing(R)
    ensures R.mul(R.mul(c, R.add(y, x)), p) == R.add(R.mul(c, R.mul(y, p)), R.mul(x, R.mul(c, p)))
  {
    var cy, cx := R.mul(c, y), R.mul(c, x);
    assert LawsAt(R, c, y, x);                // c(y + x) == cy + cx
    assert LawsAt(R, p, cy, cx);              // p(cy + cx) == p cy + p cx
    assert LawsAt(R, R.add(cy, cx), p, p);
    assert LawsAt(R, cy, p, p);
    assert LawsAt(R, cx, p, p);
    assert LawsAt(R, c, y, p);                // (cy)p == c(yp)
    assert LawsAt(R, x, c, p);                // (xc)p == x(cp)
    assert LawsAt(R, c, x, x);
  }

  /** (a + b) + x (d + e) = (a + x d) + (b + x e) */
  lemma Exchange<T(!new)>(R: Ring<T>, a: T, b: T, x: T, d: T, e: T)
    requires IsCommutativeRing(R)
    ensures R.add(R.add(a, b), R.mul(x, R.add(d, e))) == R.add(R.add(a, R.mul(x, d)), R.add(b, R.mul(x, e)))
  {
    var p, q := R.mul(x, d), R.mul(x, e);
    assert LawsAt(R, x, d, e);
    assert LawsAt(R, a, b, R.add(p, q));
    assert LawsAt(R, b, p, q);
    assert LawsAt(R, p, b, q);
    assert LawsAt(R, a, p, R.add(b, q));
  }

  /** Shifting every term turns the sums into S(m + 1) + x S(m). */
  lemma {:induction false} ShiftedSum<T(!new)>(R: Ring<T>, t: seq<Term<T>>, x: T, m: nat)
    requires IsCommutativeRing(R)
    ensures Sum(R, AllShifted(R, t, x), m) == R.add(Sum(R, t, m + 1), R.mul(x, Sum(R, t, m)))
  {
    if t == [] {
      MulZero(R, x);
      AddZeroLeft(R, R.zero);
    } else {
      var n := |t| - 1;
      var init, last := t[..n], t[n];
      ShiftedSum(R, init, x, m);
      assert AllShifted(R, t, x)[..n] == AllShifted(R, init, x);
      var p := Pow(R, last.x, m);
      ShiftedTerm(R, last.c, last.x, x, p);
      Exchange(R, Sum(R, init, m + 1), R.mul(last.c, R.mul(last.x, p)), x, Sum(R, init, m), R.mul(last.c, p));
    }
  }

  /** The terms stand where Horner's scheme raises the coefficients to. */
  ghost predicate Placed<T>(R: Ring<T>, p: seq<T>, t: seq<Term<T>>, x: T, m: nat) {
    |t| == |p| && forall i :: 0 <= i < |p| ==> t[i].c == p[i] && Pow(R, x, |p| - 1 - i) == Pow(R, t[i].x, m)
  }

  /** Horner's value of the first n coefficients, moved up, is the sum of their terms. */
  lemma {:induction false} PrefixValue<T(!new)>(R: Ring<T>, p: seq<T>, t: seq<Term<T>>, x: T, m: nat, n: nat)
    requires IsCommutativeRing(R) && n <= |p| && Placed(R, p, t, x, m)
    ensures R.mul(Value(R, p[..n], x), Pow(R, x, |p| - n)) == Sum(R, t[..n], m)
  {
    if n == 0 {
      var q := Pow(R, x, |p|);
      MulZero(R, q);
      assert LawsAt(R, R.zero, q, q);
    } else {
      PrefixValue(R, p, t, x, m, n - 1);
      assert p[..n][..n - 1] == p[..n - 1] && t[..n][..n - 1] == t[..n - 1];
      HornerStep(R, x, Value(R, p[..n - 1], x), p[n - 1], Pow(R, x, |p| - n));
    }
  }

  /** (x v + c) q = v (x q) + c q */
  lemma HornerStep<T(!new)>(R: Ring<T>, x: T, v: T, c: T, q: T)
    requires IsCommutativeRing(R)
    ensures R.mul(R.add(R.mul(x, v), c), q) == R.add(R.mul(v, R.mul(x, q)), R.mul(c, q))
  {
    var xv := R.mul(x, v);
    assert LawsAt(R, q, xv, c);
    assert LawsAt(R, R.add(xv, c), q, q);
    assert LawsAt(R, xv, q, q);
    assert LawsAt(R, c, q, q);
    assert LawsAt(R, x, v, v);
    assert LawsAt(R, v, x, q);
  }

  lemma HornerIsSum<T(!new)>(R: Ring<T>, p: seq<T>, t: seq<Term<T>>, x: T, m: nat)
    requires IsCommutativeRing(R) && Placed(R, p, t, x, m)
    ensures Value(R, p, x) == Sum(R, t, m)
  {
    PrefixValue(R, p, t, x, m, |p|);
    assert p[..|p|] == p && t[..|p|] == t;
    assert LawsAt(R, Value(R, p, x), R.one, R.one);
  }

  ghost predicate DistinctPlaces<T>(t: seq<Term<T>>) {
    forall i, j :: 0 <= i < j < |t| ==> t[i].x != t[j].x
  }

  ghost predicate AllZero<T>(R: Ring<T>, t: seq<Term<T>>) {
    forall k :: 0 <= k < |t| ==> t[k].c == R.zero
  }

  lemma {:induction false} SumOfZeros<T(!new)>(R: Ring<T>, t: seq<Term<T>>, m: nat)
    requires IsCommutativeRing(R) && AllZero(R, t)
    ensures Sum(R, t, m) == R.zero
  {
    if t != [] {
      var n := |t| - 1;
      SumOfZeros(R, t[..n], m);
      var p := Pow(R, t[n].x, m);
      MulZero(R, p);
      assert LawsAt(R, R.zero, p, p);
      AddZeroLeft(R, R.zero);
    }
  }

  ghost predicate Vanishes<T>(R: Ring<T>, t: seq<Term<T>>, count: nat) {
    forall m :: 0 <= m < count ==> Sum(R, t, m) == R.zero
  }

  /** If all is zero with the last term, the shifted others vanish once less. */
  lemma ShiftedVanishes<T(!new)>(R: Ring<T>, t: seq<Term<T>>, m: nat)
    requires Suitable(R) && t != [] && Vanishes(R, t, |t|) && m < |t| - 1
    ensures Sum(R, AllShifted(R, t[..|t| - 1], t[|t| - 1].x), m) == R.zero
  {
    var n := |t| - 1;
    var init, c, x := t[..n], t[n].c, t[n].x;
    ShiftedSum(R, init, x, m);
    var p := Pow(R, x, m);
    assert Sum(R, t, m) == R.zero && Sum(R, t, m + 1) == R.zero;
    SumZero(R, Sum(R, init, m), R.mul(c, p));
    SumZero(R, Sum(R, init, m + 1), R.mul(c, R.mul(x, p)));
    LastTermCancels(R, c, x, p);
  }

  /** c (x p) + x (c p) = 0 */
  lemma LastTermCancels<T(!new)>(R: Ring<T>, c: T, x: T, p: T)
    requires Suitable(R)
    ensures R.add(R.mul(c, R.mul(x, p)), R.mul(x, R.mul(c, p))) == R.zero
  {
    assert LawsAt(R, x, c, p);
    assert LawsAt(R, c, x, p);
    assert CharTwoAt(R, R.mul(c, R.mul(x, p)));
  }

  /** As many vanishing power sums as terms, at different places, leave no coefficient. */
  lemma {:induction false} Independent<T(!new)>(R: Ring<T>, t: seq<Term<T>>)
    requires Suitable(R) && DistinctPlaces(t) && Vanishes(R, t, |t|)
    ensures AllZero(R, t)
    decreases |t|
  {
    if t != [] {
      var n := |t| - 1;
      var init, last := t[..n], t[n];
      var u := AllShifted(R, init, last.x);
      forall m | 0 <= m < n
        ensures Sum(R, u, m) == R.zero
      {
        ShiftedVanishes(R, t, m);
      }
      Independent(R, u);
      forall k | 0 <= k < n
        ensures init[k].c == R.zero
      {
        FactorZero(R, t, u, k);
      }
      LastZero(R, t);
    }
  }

  lemma FactorZero<T(!new)>(R: Ring<T>, t: seq<Term<T>>, u: seq<Term<T>>, k: nat)
    requires Suitable(R) && DistinctPlaces(t) && k < |t| - 1
    requires u == AllShifted(R, t[..|t| - 1], t[|t| - 1].x) && u[k].c == R.zero
    ensures t[k].c == R.zero
  {
    var x, y := t[|t| - 1].x, t[k].x;
    assert u[k] == Shifted(R, t[k], x);
    assert NoDivisorsAt(R, t[k].c, R.add(y, x));
    if R.add(y, x) == R.zero {
      SumZero(R, y, x);
    }
  }

  lemma LastZero<T(!new)>(R: Ring<T>, t: seq<Term<T>>)
    requires Suitable(R) && t != [] && AllZero(R, t[..|t| - 1]) && Sum(R, t, 0) == R.zero
    ensures t[|t| - 1].c == R.zero
  {
    var n := |t| - 1;
    SumOfZeros(R, t[..n], 0);
    assert LawsAt(R, t[n].c, R.one, R.one);
    AddZeroLeft(R, t[n].c);
  }

  // ------------------------------------------------------------- terms that count

  ghost function Support<T>(R: Ring<T>, t: seq<Term<T>>): (r: seq<Term<T>>)
    ensures |r| <= |t| && forall k :: 0 <= k < |r| ==> r[k] in t && r[k].c != R.zero
  {
    if t == [] then []
    else
      var last := t[|t| - 1];
      Support(R, t[..|t| - 1]) + (if last.c == R.zero then [] else [last])
  }

  lemma {:induction false} SupportSum<T(!new)>(R: Ring<T>, t: seq<Term<T>>, m: nat)
    requires IsCommutativeRing(R)
    ensures Sum(R, Support(R, t), m) == Sum(R, t, m)
  {
    if t != [] {
      var n := |t| - 1;
      var init, last := t[..n], t[n];
      SupportSum(R, init, m);
      var s := Support(R, init);
      var p := Pow(R, last.x, m);
      if last.c == R.zero {
        MulZero(R, p);
        assert LawsAt(R, R.zero, p, p);
        assert LawsAt(R, Sum(R, init, m), R.zero, R.zero);
        assert s + [] == s;
      } else {
        assert (s + [last])[..|s|] == s;
      }
    }
  }

  lemma {:induction false} SupportDistinct<T(!new)>(R: Ring<T>, t: seq<Term<T>>)
    requires DistinctPlaces(t)
    ensures DistinctPlaces(Support(R, t))
  {
    if t != [] {
      var n := |t| - 1;
      SupportDistinct(R, t[..n]);
      var s := Support(R, t[..n]);
      forall i | 0 <= i < |s|
        ensures s[i].x != t[n].x
      {
        var k :| 0 <= k < n && t[..n][k] == s[i];
      }
    }
  }
}

/** Codewords of length at most 255 that vanish at ec successive powers. */
module ReedSolomonDistance {
  import opened Rings
  import opened Gf256
  import opened Polynomials
  import opened ReedSolomon
  import opened ExpOrder
  import opened PowerSums

  lemma FieldSuitable()
    ensures Suitable(GF())
  {
    FieldLaws();
    forall x
      ensures CharTwoAt(GF(), x)
    {
      XorLaws(x, x, x);
    }
    forall x, y
      ensures NoDivisorsAt(GF(), x, y)
    {
      if x != 0 && Mul(x, y) == 0 {
        var z := Inverse(x);
        assert LawsAt(GF(), z, x, y);
        assert LawsAt(GF(), z, x, x);
        assert LawsAt(GF(), y, 1, 1);
        assert LawsAt(GF(), 1, y, y);
        MulZeroRight(z);
      }
    }
  }

  /** A polynomial's coefficients with the places they are raised to: p[i] stands at alpha^(n-1-i). */
  ghost function Terms(p: seq<bv8>): (t: seq<Term<bv8>>)
    ensures |t| == |p| && forall i :: 0 <= i < |p| ==> t[i] == Term(p[i], Exp(|p| - 1 - i))
  {
    seq(|p|, i requires 0 <= i < |p| => Term(p[i], Exp(|p| - 1 - i)))
  }

  /** (alpha^m)^k = (alpha^k)^m */
  lemma Places(m: nat, k: nat)
    ensures Pow(GF(), Exp(m), k) == Pow(GF(), Exp(k), m)
  {
    PowExp(m, k);
    PowExp(k, m);
    assert m * k == k * m;
  }

  lemma ValueIsSum(p: seq<bv8>, m: nat)
    ensures Value(GF(), p, Exp(m)) == Sum(GF(), Terms(p), m)
  {
    FieldLaws();
    forall i | 0 <= i < |p|
      ensures Pow(GF(), Exp(m), |p| - 1 - i) == Pow(GF(), Terms(p)[i].x, m)
    {
      Places(m, |p| - 1 - i);
    }
    HornerIsSum(GF(), p, Terms(p), Exp(m), m);
  }

  lemma TermsDistinct(p: seq<bv8>)
    requires |p| <= 255
    ensures DistinctPlaces(Terms(p))
  {
    forall i, j | 0 <= i < j < |p|
      ensures Terms(p)[i].x != Terms(p)[j].x
    {
      ExpInjective(|p| - 1 - j, |p| - 1 - i);
    }
  }

  /** How many coefficients are not zero. */
  function Weight(p: seq<bv8>): nat {
    if p == [] then 0 else Weight(p[..|p| - 1]) + (if p[|p| - 1] == 0 then 0 else 1)
  }

  ghost function Count(t: seq<Term<bv8>>): nat {
    if t == [] then 0 else Count(t[..|t| - 1]) + (if t[|t| - 1].c == 0 then 0 else 1)
  }

  lemma {:induction false} SupportCount(t: seq<Term<bv8>>)
    ensures |Support(GF(), t)| == Count(t)
  {
    if t != [] {
      SupportCount(t[..|t| - 1]);
    }
  }

  lemma {:induction false} CountWeight(p: seq<bv8>, t: seq<Term<bv8>>)
    requires |t| == |p| && forall i :: 0 <= i < |p| ==> t[i].c == p[i]
    ensures Count(t) == Weight(p)
  {
    if p != [] {
      CountWeight(p[..|p| - 1], t[..|p| - 1]);
    }
  }

  /** A codeword of length at most 255 that is not zero has more than ec non-zero places. */
  lemma WeightAbove(p: seq<bv8>, ec: nat)
    requires |p| <= 255 && IsCodeword(p, ec) && Weight(p) > 0
    ensures Weight(p) > ec
  {
    var R, t := GF(), Terms(p);
    var s := Support(R, t);
    SupportCount(t);
    CountWeight(p, t);
    if |s| <= ec {
      FieldSuitable();
      forall m | 0 <= m < |s|
        ensures Sum(R, s, m) == R.zero
      {
        assert IsRoot(p, m);
        ValueIsSum(p, m);
        SupportSum(R, t, m);
      }
      TermsDistinct(p);
      SupportDistinct(R, t);
      assert !AllZero(R, s) by {
        assert s[0].c != R.zero;
      }
      Independent(R, s);
      assert false;
    }
  }

  /** In how many places two words of one length differ. */
  function Distance(p: seq<bv8>, q: seq<bv8>): nat
    requires |p| == |q|
  {
    if p == [] then 0
    else Distance(p[..|p| - 1], q[..|p| - 1]) + (if p[|p| - 1] == q[|p| - 1] then 0 else 1)
  }

  lemma XorDiffers(a: bv8, b: bv8)
    ensures Xor(a, b) == 0 <==> a == b
  {
  }

  lemma {:induction false} DistanceIsWeight(p: seq<bv8>, q: seq<bv8>)
    requires |p| == |q|
    ensures Distance(p, q) == Weight(Plus(GF(), p, q))
    ensures Distance(p, q) == 0 ==> p == q
  {
    if p != [] {
      var n := |p| - 1;
      DistanceIsWeight(p[..n], q[..n]);
      assert Plus(GF(), p, q)[..n] == Plus(GF(), p[..n], q[..n]);
      XorDiffers(p[n], q[n]);
      assert p == p[..n] + [p[n]] && q == q[..n] + [q[n]];
    }
  }

  /** Two different codewords of one length, at most 255, differ in more than ec places: any ec
      erroneous bytes of a block are noticed. */
  lemma MinimumDistance(p: seq<bv8>, q: seq<bv8>, ec: nat)
    requires |p| == |q| <= 255 && p != q && IsCodeword(p, ec) && IsCodeword(q, ec)
    ensures Distance(p, q) > ec
  {
    var d := Plus(GF(), p, q);
    DistanceIsWeight(p, q);
    FieldLaws();
    forall m | 0 <= m < ec
      ensures IsRoot(d, m)
    {
      assert IsRoot(p, m) && IsRoot(q, m);
      ValuePlus(GF(), p, q, Exp(m));
      XorLaws(0, 0, 0);
    }
    WeightAbove(d, ec);
  }

  lemma {:induction false} Triangle(p: seq<bv8>, r: seq<bv8>, q: seq<bv8>)
    requires |p| == |r| == |q|
    ensures Distance(p, q) <= Distance(p, r) + Distance(q, r)
  {
    if p != [] {
      var n := |p| - 1;
      Triangle(p[..n], r[..n], q[..n]);
    }
  }

  /** At most one codeword lies within ec / 2 of a received block, so that many wrong bytes can be
      put right. */
  lemma UniqueCorrection(p: seq<bv8>, q: seq<bv8>, received: seq<bv8>, ec: nat, wrong: nat)
    requires |p| == |q| == |received| <= 255 && IsCodeword(p, ec) && IsCodeword(q, ec)
    requires 2 * wrong <= ec && Distance(p, received) <= wrong && Distance(q, received) <= wrong
    ensures p == q
  {
    Triangle(p, received, q);
    if p != q {
      MinimumDistance(p, q, ec);
    }
  }
}
