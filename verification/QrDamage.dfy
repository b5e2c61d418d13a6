/** What the error codewords of src/web/QrEncoder.cpp are for: a damaged symbol still determines its
    text. */
module QrDamage {
  import opened Options
  import opened QrStream
  import opened QrBlocks
  import opened ReedSolomon
  import opened ReedSolomonDistance
  import opened QrEncoder

  /** Block b as the field word that its error codewords complete. */
  function BlockWord(out: seq<Byte>, v: nat, b: nat): (w: seq<bv8>)
    requires IsVersion(v) && |out| == CodewordCount(v) && b < VerM(v).numBlocks
    ensures |w| == ShapeOf(v).Size(b) + VerM(v).ecPerBlock
  {
    ShapeTotals(v);
    ToField(ReadBlock(ShapeOf(v), out, b)) + ToField(ReadEcc(out, v, b))
  }

  /** In no block are more than half as many bytes wrong as it has error codewords. */
  predicate Repairable(out: seq<Byte>, received: seq<Byte>, v: nat)
    requires IsVersion(v) && |out| == |received| == CodewordCount(v)
  {
    forall b :: 0 <= b < VerM(v).numBlocks ==>
      2 * Distance(BlockWord(out, v, b), BlockWord(received, v, b)) <= VerM(v).ecPerBlock
  }

  /** All ten versions keep their blocks short enough for the field. */
  lemma BlocksShort(v: nat, b: nat)
    requires IsVersion(v) && b < VerM(v).numBlocks
    ensures ShapeOf(v).Size(b) + VerM(v).ecPerBlock <= 255
  {
  }

  // A byte's number comes back from its bits; sixteen at a time, to keep the bit arithmetic small.

  lemma ThereAndBack0(x: Byte)
    requires 0 <= x < 16
    ensures (x as bv8) as int == x
  {
  }

  lemma ThereAndBack1(x: Byte)
    requires 16 <= x < 32
    ensures (x as bv8) as int == x
  {
  }

  lemma ThereAndBack2(x: Byte)
    requires 32 <= x < 48
    ensures (x as bv8) as int == x
  {
  }

  lemma ThereAndBack3(x: Byte)
    requires 48 <= x < 64
    ensures (x as bv8) as int == x
  {
  }

  lemma ThereAndBack4(x: Byte)
    requires 64 <= x < 80
    ensures (x as bv8) as int == x
  {
  }

  lemma ThereAndBack5(x: Byte)
    requires 80 <= x < 96
    ensures (x as bv8) as int == x
  {
  }

  lemma ThereAndBack6(x: Byte)
    requires 96 <= x < 112
    ensures (x as bv8) as int == x
  {
  }

  lemma ThereAndBack7(x: Byte)
    requires 112 <= x < 128
    ensures (x as bv8) as int == x
  {
  }

  lemma ThereAndBack8(x: Byte)
    requires 128 <= x < 144
    ensures (x as bv8) as int == x
  {
  }

  lemma ThereAndBack9(x: Byte)
    requires 144 <= x < 160
    ensures (x as bv8) as int == x
  {
  }

  lemma ThereAndBackA(x: Byte)
    requires 160 <= x < 176
    ensures (x as bv8) as int == x
  {
  }

  lemma ThereAndBackB(x: Byte)
    requires 176 <= x < 192
    ensures (x as bv8) as int == x
  {
  }

  lemma ThereAndBackC(x: Byte)
    requires 192 <= x < 208
    ensures (x as bv8) as int == x
  {
  }

  lemma ThereAndBackD(x: Byte)
    requires 208 <= x < 224
    ensures (x as bv8) as int == x
  {
  }

  lemma ThereAndBackE(x: Byte)
    requires 224 <= x < 240
    ensures (x as bv8) as int == x
  {
  }

  lemma ThereAndBackF(x: Byte)
    requires 240 <= x < 256
    ensures (x as bv8) as int == x
  {
  }

  lemma ThereAndBack(x: Byte)
    ensures (x as bv8) as int == x
  {
    if x < 16 { ThereAndBack0(x); }
    else if x < 32 { ThereAndBack1(x); }
    else if x < 48 { ThereAndBack2(x); }
    else if x < 64 { ThereAndBack3(x); }
    else if x < 80 { ThereAndBack4(x); }
    else if x < 96 { ThereAndBack5(x); }
    else if x < 112 { ThereAndBack6(x); }
    else if x < 128 { ThereAndBack7(x); }
    else if x < 144 { ThereAndBack8(x); }
    else if x < 160 { ThereAndBack9(x); }
    else if x < 176 { ThereAndBackA(x); }
    else if x < 192 { ThereAndBackB(x); }
    else if x < 208 { ThereAndBackC(x); }
    else if x < 224 { ThereAndBackD(x); }
    else if x < 240 { ThereAndBackE(x); }
    else { ThereAndBackF(x); }
  }

  lemma ByteBack(x: Byte)
    ensures Index(x as bv8) == x
  {
    ThereAndBack(x);
  }

  lemma ToFromField(s: seq<Byte>)
    ensures FromField(ToField(s)) == s
  {
    forall k | 0 <= k < |s|
      ensures FromField(ToField(s))[k] == s[k]
    {
      ByteBack(s[k]);
    }
  }

  lemma FieldInjective(s: seq<Byte>, t: seq<Byte>)
    requires ToField(s) == ToField(t)
    ensures s == t
  {
    ToFromField(s);
    ToFromField(t);
  }

  /** Two protected blocks close to the same received one hold the same data. */
  lemma SameBlock(p: seq<Byte>, q: seq<Byte>, received: seq<Byte>, v: nat, b: nat)
    requires IsVersion(v) && |p| == |q| == |received| == CodewordCount(v) && b < VerM(v).numBlocks
    requires AllProtected(p, v) && AllProtected(q, v)
    requires Repairable(p, received, v) && Repairable(q, received, v)
    ensures ShapeOf(v).Total() <= |p| && ReadBlock(ShapeOf(v), p, b) == ReadBlock(ShapeOf(v), q, b)
  {
    ShapeTotals(v);
    var s, x, y := ShapeOf(v), BlockWord(p, v, b), BlockWord(q, v, b);
    assert Protected(s, ReadBlock(s, p, b), ReadEcc(p, v, b));
    assert Protected(s, ReadBlock(s, q, b), ReadEcc(q, v, b));
    BlocksShort(v, b);
    UniqueCorrection(x, y, BlockWord(received, v, b), s.ec, s.ec / 2);
    var n := s.Size(b);
    assert x[..n] == ToField(ReadBlock(s, p, b)) && y[..n] == ToField(ReadBlock(s, q, b));
    FieldInjective(ReadBlock(s, p, b), ReadBlock(s, q, b));
  }

  lemma {:induction false} SameBlocks(s: Shape, p: seq<Byte>, q: seq<Byte>, b: nat)
    requires s.Valid() && b <= s.blocks && s.Total() <= |p| && s.Total() <= |q|
    requires forall c :: 0 <= c < b ==> ReadBlock(s, p, c) == ReadBlock(s, q, c)
    ensures ReadBlocks(s, p, b) == ReadBlocks(s, q, b)
  {
    if b > 0 {
      SameBlocks(s, p, q, b - 1);
    }
  }

  /** Codewords with at most ec / 2 wrong bytes in every block determine the data they came from. */
  lemma DamagedDataDetermined(p: seq<Byte>, q: seq<Byte>, received: seq<Byte>, v: nat)
    requires IsVersion(v) && |p| == |q| == |received| == CodewordCount(v)
    requires AllProtected(p, v) && AllProtected(q, v)
    requires Repairable(p, received, v) && Repairable(q, received, v)
    ensures ReadData(p, v) == ReadData(q, v)
  {
    ShapeTotals(v);
    var s := ShapeOf(v);
    forall c | 0 <= c < s.blocks
      ensures ReadBlock(s, p, c) == ReadBlock(s, q, c)
    {
      SameBlock(p, q, received, v, c);
    }
    SameBlocks(s, p, q, s.blocks);
  }

  /** So two finished symbols of one version that could both have been damaged into the same codewords
      carry the same text. */
  lemma DamagedTextDetermined(g: Modules2, h: Modules2, received: seq<Byte>)
    requires WellFormed(g) && WellFormed(h) && VersionOf(g) == VersionOf(h)
    requires |received| == CodewordCount(VersionOf(g))
    requires Repairable(ReadCodewords(g), received, VersionOf(g))
    requires Repairable(ReadCodewords(h), received, VersionOf(g))
    ensures ReadSymbol(g) == ReadSymbol(h)
  {
    DamagedDataDetermined(ReadCodewords(g), ReadCodewords(h), received, VersionOf(g));
  }
}
