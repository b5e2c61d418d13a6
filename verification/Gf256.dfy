/** Iterates of a map, and their linearity. */
module Iterates {

  function Iter<T>(f: T -> T, n: nat, x: T): T {
    if n == 0 then x else f(Iter(f, n - 1, x))
  }

  lemma {:induction false} IterAdd<T>(f: T -> T, m: nat, n: nat, x: T)
    ensures Iter(f, m + n, x) == Iter(f, m, Iter(f, n, x))
  {
    if m > 0 { IterAdd(f, m - 1, n, x); }
  }

  lemma IterCommute<T>(f: T -> T, m: nat, n: nat, x: T)
    ensures Iter(f, m, Iter(f, n, x)) == Iter(f, n, Iter(f, m, x))
  {
    IterAdd(f, m, n, x);
    IterAdd(f, n, m, x);
    assert m + n == n + m;
  }

  ghost predicate LinearAt<T>(f: T -> T, add: (T, T) -> T, x: T, y: T) {
    f(add(x, y)) == add(f(x), f(y))
  }

  ghost predicate Linear<T(!new)>(f: T -> T, add: (T, T) -> T) {
    forall x, y :: LinearAt(f, add, x, y)
  }

  lemma {:induction false} IterLinear<T(!new)>(f: T -> T, add: (T, T) -> T, n: nat, x: T, y: T)
    requires Linear(f, add)
    ensures Iter(f, n, add(x, y)) == add(Iter(f, n, x), Iter(f, n, y))
  {
    if n > 0 {
      IterLinear(f, add, n - 1, x, y);
      assert LinearAt(f, add, Iter(f, n - 1, x), Iter(f, n - 1, y));
    }
  }

  lemma {:induction false} IterFixed<T>(f: T -> T, n: nat, x: T)
    requires f(x) == x
    ensures Iter(f, n, x) == x
  {
    if n > 0 { IterFixed(f, n - 1, x); }
  }
}

/** The field GF(256) of src/web/QrEncoder.cpp: bytes under exclusive or, multiplied through
    logarithm tables for the primitive polynomial 0x11D.

    The specification is the shift-and-reduce map `XTimes` and its iterates. Multiplication by
    a power of alpha is an iterate, hence linear; every other law follows from that. */
module Gf256 {
  import opened Iterates
  import opened Rings

  /** Multiplication by alpha. */
  function XTimes(b: bv8): bv8 {
    if b & 0x80 != 0 then (b << 1) ^ 0x1D else b << 1
  }

  function Xor(b: bv8, c: bv8): bv8 {
    b ^ c
  }

  /** alpha^n */
  ghost function Exp(n: nat): bv8 {
    Iter(XTimes, n, 1)
  }

  lemma TopBitXor(b: bv8, c: bv8)
    ensures (b ^ c) & 0x80 != 0 <==> (b & 0x80 != 0) != (c & 0x80 != 0)
  {
  }

  lemma ShiftXor(b: bv8, c: bv8)
    ensures (b ^ c) << 1 == (b << 1) ^ (c << 1)
  {
  }

  lemma XorMove(s: bv8, t: bv8, k: bv8)
    ensures (s ^ k) ^ (t ^ k) == s ^ t
    ensures s ^ (t ^ k) == (s ^ t) ^ k
    ensures (s ^ k) ^ t == (s ^ t) ^ k
  {
  }

  lemma XTimesLinear(b: bv8, c: bv8)
    ensures XTimes(b ^ c) == XTimes(b) ^ XTimes(c)
  {
    TopBitXor(b, c);
    ShiftXor(b, c);
    XorMove(b << 1, c << 1, 0x1D);
  }

  lemma XTimesIsLinear()
    ensures Linear(XTimes, Xor)
  {
    forall x, y ensures LinearAt(XTimes, Xor, x, y) { XTimesLinear(x, y); }
  }

  // ------------------------------------------ alpha generates every non-zero byte

  lemma Next(i: nat, b: bv8)
    requires Exp(i) == b
    ensures Exp(i + 1) == XTimes(b)
  {
  }

  /** Sixteen consecutive powers, given as a row of the power table. */
  lemma PowerRow(i: nat, b: bv8, c0: bv8, c1: bv8, c2: bv8, c3: bv8, c4: bv8, c5: bv8, c6: bv8, c7: bv8, c8: bv8,
                 c9: bv8, c10: bv8, c11: bv8, c12: bv8, c13: bv8, c14: bv8, c15: bv8, c16: bv8)
    requires Exp(i) == c0
    requires c1 == XTimes(c0) && c2 == XTimes(c1) && c3 == XTimes(c2) && c4 == XTimes(c3)
    requires c5 == XTimes(c4) && c6 == XTimes(c5) && c7 == XTimes(c6) && c8 == XTimes(c7)
    requires c9 == XTimes(c8) && c10 == XTimes(c9) && c11 == XTimes(c10) && c12 == XTimes(c11)
    requires c13 == XTimes(c12) && c14 == XTimes(c13) && c15 == XTimes(c14) && c16 == XTimes(c15)
    ensures Exp(i + 16) == c16
    ensures || b == c0 || b == c1 || b == c2 || b == c3 || b == c4 || b == c5 || b == c6 || b == c7
            || b == c8 || b == c9 || b == c10 || b == c11 || b == c12 || b == c13 || b == c14 || b == c15
            ==> exists j: nat :: i <= j < i + 16 && Exp(j) == b
    ensures Exp(i + 3) == c3 && Exp(i + 5) == c5 && Exp(i + 15) == c15
  {
    Next(i + 0, c0); Next(i + 1, c1); Next(i + 2, c2); Next(i + 3, c3);
    Next(i + 4, c4); Next(i + 5, c5); Next(i + 6, c6); Next(i + 7, c7);
    Next(i + 8, c8); Next(i + 9, c9); Next(i + 10, c10); Next(i + 11, c11);
    Next(i + 12, c12); Next(i + 13, c13); Next(i + 14, c14); Next(i + 15, c15);
  }

  /** alpha is primitive: every non-zero byte is one of its first 255 powers. The start of the
      walk is a parameter so that no power is unrolled from zero. */
  lemma PowersCover(z: nat, b: bv8)
    requires z == 0 && Exp(z) == 1 && b != 0
    ensures exists j: nat :: j < 256 && Exp(j) == b
    ensures Exp(z + 255) == 1
    ensures Exp(z + 15) != 1 && Exp(z + 51) != 1 && Exp(z + 85) != 1
  {
    PowerRow(z + 0, b, 0x01, 0x02, 0x04, 0x08, 0x10, 0x20, 0x40, 0x80, 0x1D,
             0x3A, 0x74, 0xE8, 0xCD, 0x87, 0x13, 0x26, 0x4C);
    PowerRow(z + 16, b, 0x4C, 0x98, 0x2D, 0x5A, 0xB4, 0x75, 0xEA, 0xC9, 0x8F,
             0x03, 0x06, 0x0C, 0x18, 0x30, 0x60, 0xC0, 0x9D);
    PowerRow(z + 32, b, 0x9D, 0x27, 0x4E, 0x9C, 0x25, 0x4A, 0x94, 0x35, 0x6A,
             0xD4, 0xB5, 0x77, 0xEE, 0xC1, 0x9F, 0x23, 0x46);
    PowerRow(z + 48, b, 0x46, 0x8C, 0x05, 0x0A, 0x14, 0x28, 0x50, 0xA0, 0x5D,
             0xBA, 0x69, 0xD2, 0xB9, 0x6F, 0xDE, 0xA1, 0x5F);
    PowerRow(z + 64, b, 0x5F, 0xBE, 0x61, 0xC2, 0x99, 0x2F, 0x5E, 0xBC, 0x65,
             0xCA, 0x89, 0x0F, 0x1E, 0x3C, 0x78, 0xF0, 0xFD);
    PowerRow(z + 80, b, 0xFD, 0xE7, 0xD3, 0xBB, 0x6B, 0xD6, 0xB1, 0x7F, 0xFE,
             0xE1, 0xDF, 0xA3, 0x5B, 0xB6, 0x71, 0xE2, 0xD9);
    PowerRow(z + 96, b, 0xD9, 0xAF, 0x43, 0x86, 0x11, 0x22, 0x44, 0x88, 0x0D,
             0x1A, 0x34, 0x68, 0xD0, 0xBD, 0x67, 0xCE, 0x81);
    PowerRow(z + 112, b, 0x81, 0x1F, 0x3E, 0x7C, 0xF8, 0xED, 0xC7, 0x93, 0x3B,
             0x76, 0xEC, 0xC5, 0x97, 0x33, 0x66, 0xCC, 0x85);
    PowerRow(z + 128, b, 0x85, 0x17, 0x2E, 0x5C, 0xB8, 0x6D, 0xDA, 0xA9, 0x4F,
             0x9E, 0x21, 0x42, 0x84, 0x15, 0x2A, 0x54, 0xA8);
    PowerRow(z + 144, b, 0xA8, 0x4D, 0x9A, 0x29, 0x52, 0xA4, 0x55, 0xAA, 0x49,
             0x92, 0x39, 0x72, 0xE4, 0xD5, 0xB7, 0x73, 0xE6);
    PowerRow(z + 160, b, 0xE6, 0xD1, 0xBF, 0x63, 0xC6, 0x91, 0x3F, 0x7E, 0xFC,
             0xE5, 0xD7, 0xB3, 0x7B, 0xF6, 0xF1, 0xFF, 0xE3);
    PowerRow(z + 176, b, 0xE3, 0xDB, 0xAB, 0x4B, 0x96, 0x31, 0x62, 0xC4, 0x95,
             0x37, 0x6E, 0xDC, 0xA5, 0x57, 0xAE, 0x41, 0x82);
    PowerRow(z + 192, b, 0x82, 0x19, 0x32, 0x64, 0xC8, 0x8D, 0x07, 0x0E, 0x1C,
             0x38, 0x70, 0xE0, 0xDD, 0xA7, 0x53, 0xA6, 0x51);
    PowerRow(z + 208, b, 0x51, 0xA2, 0x59, 0xB2, 0x79, 0xF2, 0xF9, 0xEF, 0xC3,
             0x9B, 0x2B, 0x56, 0xAC, 0x45, 0x8A, 0x09, 0x12);
    PowerRow(z + 224, b, 0x12, 0x24, 0x48, 0x90, 0x3D, 0x7A, 0xF4, 0xF5, 0xF7,
             0xF3, 0xFB, 0xEB, 0xCB, 0x8B, 0x0B, 0x16, 0x2C);
    PowerRow(z + 240, b, 0x2C, 0x58, 0xB0, 0x7D, 0xFA, 0xE9, 0xCF, 0x83, 0x1B,
             0x36, 0x6C, 0xD8, 0xAD, 0x47, 0x8E, 0x01, 0x02);
  }

  ghost predicate IsLog(b: bv8, i: nat) {
    i < 255 && Exp(i) == b
  }

  lemma HasLog(b: bv8)
    requires b != 0
    ensures exists i :: IsLog(b, i)
  {
    PowersCover(0, b);
    var j: nat :| j < 256 && Exp(j) == b;
    assert IsLog(b, if j == 255 then 0 else j);
  }

  ghost function Log(b: bv8): (i: nat)
    requires b != 0
    ensures IsLog(b, i)
  {
    HasLog(b);
    var i :| IsLog(b, i);
    i
  }

  /** Exponents count modulo 255. */
  lemma ExpPeriod(k: nat)
    ensures Exp(k + 255) == Exp(k)
  {
    IterAdd(XTimes, k, 255, 1 as bv8);
    PowersCover(0, 1);
  }

  // ---------------------------------------------------------------- the field

  /** The product: multiplication by a == alpha^i iterates XTimes i times. */
  ghost function Mul(a: bv8, b: bv8): bv8 {
    if a == 0 then 0 else Iter(XTimes, Log(a), b)
  }

  /** What line 27 computes is the product, whichever logarithms the tables hold. */
  lemma MulByLogs(a: bv8, b: bv8, i: nat, j: nat)
    requires a != 0 && b != 0 && IsLog(a, i) && IsLog(b, j)
    ensures Mul(a, b) == Exp((i + j) % 255)
  {
    var k := Log(a);
    IterCommute(XTimes, k, j, 1 as bv8);   // alpha^k applied to alpha^j == alpha^j applied to a
    IterAdd(XTimes, j, i, 1 as bv8);
    assert i + j == j + i;
    if i + j >= 255 {
      ExpPeriod(i + j - 255);
      assert (i + j) % 255 == i + j - 255;
    }
  }

  lemma MulZeroRight(a: bv8)
    ensures Mul(a, 0) == 0
  {
    if a != 0 { IterFixed(XTimes, Log(a), 0 as bv8); }
  }

  lemma MulCommutes(a: bv8, b: bv8)
    ensures Mul(a, b) == Mul(b, a)
  {
    if a == 0 || b == 0 {
      MulZeroRight(a);
      MulZeroRight(b);
    } else {
      IterCommute(XTimes, Log(a), Log(b), 1 as bv8);
    }
  }

  lemma MulAssociates(a: bv8, b: bv8, c: bv8)
    ensures Mul(Mul(a, b), c) == Mul(a, Mul(b, c))
  {
    MulCommutes(Mul(a, b), c);
    MulCommutes(b, c);
    if a != 0 && c != 0 {
      IterCommute(XTimes, Log(a), Log(c), b);
    } else {
      MulZeroRight(a);
      MulZeroRight(b);
      MulZeroRight(c);
    }
  }

  lemma MulDistributes(a: bv8, b: bv8, c: bv8)
    ensures Mul(a, Xor(b, c)) == Xor(Mul(a, b), Mul(a, c))
  {
    if a != 0 {
      XTimesIsLinear();
      IterLinear(XTimes, Xor, Log(a), b, c);
    }
  }

  lemma XorLaws(a: bv8, b: bv8, c: bv8)
    ensures Xor(a, b) == Xor(b, a)
    ensures Xor(Xor(a, b), c) == Xor(a, Xor(b, c))
    ensures Xor(a, 0) == a && Xor(a, a) == 0
  {
  }

  ghost function GF(): Ring<bv8> {
    Ring(0, 1, Xor, x => x, Mul)
  }

  /** Every field law the code relies on holds for the table-built product. */
  lemma FieldLaws()
    ensures IsCommutativeRing(GF())
  {
    forall x, y, z ensures LawsAt(GF(), x, y, z) {
      XorLaws(x, y, z);
      MulCommutes(x, y);
      MulAssociates(x, y, z);
      MulDistributes(x, y, z);
    }
  }

  /** Non-zero bytes have inverses, so this ring is a field. */
  lemma Inverse(a: bv8) returns (b: bv8)
    requires a != 0
    ensures Mul(a, b) == 1
  {
    var i := Log(a);
    b := Exp(255 - i);
    IterAdd(XTimes, i, 255 - i, 1 as bv8);
    ExpPeriod(0);
  }
}
