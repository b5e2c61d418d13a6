/** Commutative rings as values, so that one transform serves complex numbers and every
    other coefficient domain. The laws are stated at a point (`LawsAt`) and a proof names
    the points it uses; nothing else about the carrier is ever known. */
module Rings {

  datatype Ring<!T> = Ring(zero: T, one: T, add: (T, T) -> T, neg: T -> T, mul: (T, T) -> T)
  {
    function Sub(x: T, y: T): T {
      add(x, neg(y))
    }
  }

  ghost predicate LawsAt<T>(R: Ring<T>, x: T, y: T, z: T) {
    && R.add(x, y) == R.add(y, x)
    && R.add(R.add(x, y), z) == R.add(x, R.add(y, z))
    && R.add(x, R.zero) == x
    && R.add(x, R.neg(x)) == R.zero
    && R.mul(x, y) == R.mul(y, x)
    && R.mul(R.mul(x, y), z) == R.mul(x, R.mul(y, z))
    && R.mul(x, R.one) == x
    && R.mul(x, R.add(y, z)) == R.add(R.mul(x, y), R.mul(x, z))
  }

  ghost predicate IsCommutativeRing<T(!new)>(R: Ring<T>) {
    forall x, y, z :: LawsAt(R, x, y, z)
  }

  function Pow<T>(R: Ring<T>, x: T, n: nat): T {
    if n == 0 then R.one else R.mul(x, Pow(R, x, n - 1))
  }

  lemma MulZero<T(!new)>(R: Ring<T>, x: T)
    requires IsCommutativeRing(R)
    ensures R.mul(x, R.zero) == R.zero
  {
    var p := R.mul(x, R.zero);
    assert LawsAt(R, R.zero, R.zero, R.zero);
    assert LawsAt(R, x, R.zero, R.zero);  // p == p + p
    assert LawsAt(R, p, p, R.neg(p));     // (p + p) - p == p + (p - p)
  }

  /** A negative is the only solution of x + y == 0. */
  lemma NegUnique<T(!new)>(R: Ring<T>, x: T, y: T)
    requires IsCommutativeRing(R)
    requires R.add(x, y) == R.zero
    ensures y == R.neg(x)
  {
    var m := R.neg(x);
    assert LawsAt(R, m, x, y);
    assert LawsAt(R, x, m, m);
    assert LawsAt(R, y, R.zero, R.zero);
    assert LawsAt(R, R.zero, y, y);
    assert LawsAt(R, m, R.zero, R.zero);
  }

  lemma NegMul<T(!new)>(R: Ring<T>, x: T, y: T)
    requires IsCommutativeRing(R)
    ensures R.mul(R.neg(x), y) == R.neg(R.mul(x, y))
  {
    var m := R.neg(x);
    assert LawsAt(R, y, x, m);
    assert LawsAt(R, x, m, m);
    assert LawsAt(R, m, y, y);
    MulZero(R, y);
    NegUnique(R, R.mul(y, x), R.mul(y, m));
  }

  lemma NegSquare<T(!new)>(R: Ring<T>, x: T)
    requires IsCommutativeRing(R)
    ensures R.mul(R.neg(x), R.neg(x)) == R.mul(x, x)
  {
    var m, xx := R.neg(x), R.mul(x, x);
    NegMul(R, x, m);                // m * m == -(x * m)
    NegMul(R, x, x);                // m * x == -(x * x)
    assert LawsAt(R, x, m, m);      // x * m == m * x
    assert LawsAt(R, xx, R.neg(xx), xx);
    NegUnique(R, R.neg(xx), xx);    // x * x == --(x * x)
  }

  lemma {:induction false} PowSquare<T(!new)>(R: Ring<T>, x: T, n: nat)
    requires IsCommutativeRing(R)
    ensures Pow(R, R.mul(x, x), n) == R.mul(Pow(R, x, n), Pow(R, x, n))
  {
    if n == 0 {
      assert LawsAt(R, R.one, R.one, R.one);
    } else {
      PowSquare(R, x, n - 1);
      var p := Pow(R, x, n - 1);
      assert LawsAt(R, x, x, R.mul(p, p));   // (xx)(pp) == x(x(pp))
      assert LawsAt(R, x, p, p);             // (xp)p == x(pp)
      assert LawsAt(R, x, p, R.mul(x, p));   // (xp)(xp) == x(p(xp))
      assert LawsAt(R, p, R.mul(x, p), p);   // p(xp) == (xp)p
    }
  }

  lemma {:induction false} PowAdd<T(!new)>(R: Ring<T>, x: T, m: nat, n: nat)
    requires IsCommutativeRing(R)
    ensures Pow(R, x, m + n) == R.mul(Pow(R, x, m), Pow(R, x, n))
  {
    var q := Pow(R, x, n);
    if m == 0 {
      assert LawsAt(R, q, R.one, R.one);
    } else {
      PowAdd(R, x, m - 1, n);
      assert LawsAt(R, x, Pow(R, x, m - 1), q);
    }
  }

  lemma {:induction false} PowMul<T(!new)>(R: Ring<T>, x: T, m: nat, n: nat)
    requires IsCommutativeRing(R)
    ensures Pow(R, Pow(R, x, m), n) == Pow(R, x, n * m)
  {
    if n == 0 {
      assert n * m == 0;
    } else {
      PowMul(R, x, m, n - 1);
      assert (n - 1) * m >= 0;
      PowAdd(R, x, m, (n - 1) * m);
      assert m + (n - 1) * m == n * m;
    }
  }
}
