/** Blocks, error correction and interleaving: src/web/QrEncoder.cpp lines 139 to 162, with the
    reader that takes the blocks apart again. */
module QrBlocks {
  import opened Options
  import opened QrStream
  import opened ReedSolomon

  /** The block structure: blocks before `Blocks - rem` have `per` data codewords, the others one
      more. At most four blocks occur, so row offsets stay linear. */
  datatype Shape = Shape(blocks: nat, per: nat, rem: nat, ec: nat)
  {
    ghost predicate Valid() {
      1 <= blocks <= 4 && rem < blocks
    }

    function Size(b: nat): nat {
      if b + rem >= blocks then per + 1 else per
    }

    /** i * blocks */
    function Row(i: nat): nat {
      if blocks == 1 then i else if blocks == 2 then 2 * i else if blocks == 3 then 3 * i else 4 * i
    }

    function Total(): nat {
      Row(per) + rem
    }

    /** Where codeword i of block b stands in the interleaved data. */
    function Pos(i: nat, b: nat): int {
      if i < per then Row(i) + b else Row(per) + b + rem - blocks
    }

    /** Codewords written when the loops stand at row i, block b. */
    function Written(i: nat, b: nat): nat
      requires Valid()
    {
      if i < per then Row(i) + b
      else if i == per then Row(per) + (if b + rem <= blocks then 0 else b + rem - blocks)
      else Total()
    }

    /** Where block b starts in the data. */
    function Start(b: nat): nat {
      if b == 0 then 0 else Start(b - 1) + Size(b - 1)
    }
  }

  function ShapeOf(v: nat): (s: Shape)
    requires IsVersion(v)
    ensures s.Valid()
  {
    var i := VerM(v);
    Shape(i.numBlocks, i.dataCodewords / i.numBlocks, i.dataCodewords % i.numBlocks, i.ecPerBlock)
  }

  lemma ShapeTotals(v: nat)
    requires IsVersion(v)
    ensures var s := ShapeOf(v);
      s.Total() == VerM(v).dataCodewords && s.Start(s.blocks) == VerM(v).dataCodewords
  {
    var s := ShapeOf(v);
    assert s.Start(1) == s.Size(0);
    assert s.blocks >= 2 ==> s.Start(2) == s.Start(1) + s.Size(1);
    assert s.blocks >= 3 ==> s.Start(3) == s.Start(2) + s.Size(2);
    assert s.blocks >= 4 ==> s.Start(4) == s.Start(3) + s.Size(3);
  }

  ghost predicate Shaped(s: Shape, d: seq<seq<Byte>>) {
    s.Valid() && |d| == s.blocks && forall b :: 0 <= b < |d| ==> |d[b]| == s.Size(b)
  }

  /** Codeword i of block b stands at its place. */
  ghost predicate PlacedAt(s: Shape, out: seq<Byte>, d: seq<seq<Byte>>, i: nat, b: nat)
    requires b < |d| && i < |d[b]|
  {
    0 <= s.Pos(i, b) < |out| && out[s.Pos(i, b)] == d[b][i]
  }

  /** Rows before i are placed, and blocks before b of row i. */
  ghost predicate PlacedUpTo(s: Shape, out: seq<Byte>, d: seq<seq<Byte>>, i: nat, b: nat) {
    forall k, c :: 0 <= c < |d| && 0 <= k < |d[c]| && (k < i || (k == i && c < b)) ==> PlacedAt(s, out, d, k, c)
  }

  /** Lines 153 to 158. */
  method InterleaveData(s: Shape, d: seq<seq<Byte>>) returns (out: seq<Byte>)
    requires Shaped(s, d)
    ensures |out| == s.Total()
    ensures PlacedUpTo(s, out, d, s.per + 1, 0)
  {
    var maxd := 0;
    for b := 0 to |d|
      invariant maxd <= (if s.rem == 0 then s.per else s.per + 1)
      invariant forall c :: 0 <= c < b ==> |d[c]| <= maxd
    {
      if |d[b]| > maxd { maxd := |d[b]|; }
    }
    assert |d[|d| - 1]| <= maxd;
    out := [];
    var i := 0;
    while i < maxd
      invariant 0 <= i <= maxd && |out| == s.Written(i, 0)
      invariant PlacedUpTo(s, out, d, i, 0)
    {
      var b := 0;
      while b < |d|
        invariant 0 <= b <= |d| && |out| == s.Written(i, b)
        invariant PlacedUpTo(s, out, d, i, b)
      {
        if i < |d[b]| {
          AppendPlaced(s, out, d, i, b);
          out := out + [d[b][i]];
        }
        b := b + 1;
      }
      NextRow(s, out, d, i);
      i := i + 1;
    }
  }

  lemma AppendPlaced(s: Shape, out: seq<Byte>, d: seq<seq<Byte>>, i: nat, b: nat)
    requires Shaped(s, d) && b < |d| && i < |d[b]|
    requires |out| == s.Written(i, b) && PlacedUpTo(s, out, d, i, b)
    ensures s.Written(i, b + 1) == s.Written(i, b) + 1
    ensures PlacedUpTo(s, out + [d[b][i]], d, i, b + 1)
  {
    var r := out + [d[b][i]];
    forall k, c | 0 <= c < |d| && 0 <= k < |d[c]| && (k < i || (k == i && c < b + 1))
      ensures PlacedAt(s, r, d, k, c)
    {
      if k < i || c < b { assert PlacedAt(s, out, d, k, c); }
    }
  }

  lemma NextRow(s: Shape, out: seq<Byte>, d: seq<seq<Byte>>, i: nat)
    requires Shaped(s, d) && i <= s.per && PlacedUpTo(s, out, d, i, |d|)
    ensures PlacedUpTo(s, out, d, i + 1, 0)
    ensures s.Written(i + 1, 0) == s.Written(i, |d|)
  {
  }

  /** Lines 159 to 162, with ec codewords in every block. */
  method InterleaveEcc(s: Shape, e: seq<seq<Byte>>) returns (out: seq<Byte>)
    requires s.Valid() && |e| == s.blocks && forall b :: 0 <= b < |e| ==> |e[b]| == s.ec
    ensures |out| == s.Row(s.ec)
    ensures forall i, b :: 0 <= i < s.ec && 0 <= b < |e| ==> EccAt(s, out, e, i, b)
  {
    out := [];
    var i := 0;
    while i < s.ec
      invariant 0 <= i <= s.ec && |out| == s.Row(i)
      invariant forall k, c :: 0 <= k < i && 0 <= c < |e| ==> EccAt(s, out, e, k, c)
    {
      var b := 0;
      while b < |e|
        invariant 0 <= b <= |e| && |out| == s.Row(i) + b
        invariant forall k, c :: 0 <= k <= i && 0 <= c < |e| && (k < i || c < b) ==> EccAt(s, out, e, k, c)
      {
        ghost var was := out;
        out := out + [e[b][i]];
        forall k, c | 0 <= k <= i && 0 <= c < |e| && (k < i || c < b + 1) ensures EccAt(s, out, e, k, c) {
          if k < i || c < b { assert EccAt(s, was, e, k, c); }
        }
        b := b + 1;
      }
      i := i + 1;
    }
  }

  ghost predicate EccAt(s: Shape, out: seq<Byte>, e: seq<seq<Byte>>, i: nat, b: nat) {
    b < |e| && i < |e[b]| && s.Row(i) + b < |out| && out[s.Row(i) + b] == e[b][i]
  }

  // ------------------------------------------------------- bytes as field elements

  function ToField(s: seq<Byte>): (r: seq<bv8>)
    ensures |r| == |s|
  {
    seq(|s|, k requires 0 <= k < |s| => s[k] as bv8)
  }

  function FromField(s: seq<bv8>): (r: seq<Byte>)
    ensures |r| == |s|
  {
    seq(|s|, k requires 0 <= k < |s| => Index(s[k]))
  }

  lemma FromToField(s: seq<bv8>)
    ensures ToField(FromField(s)) == s
  {
    forall k | 0 <= k < |s| ensures ToField(FromField(s))[k] == s[k] { ByteIndex(s[k]); }
  }

  // ------------------------------------------------------------------- the blocks

  function BlockOf(s: Shape, data: seq<Byte>, b: nat): (r: seq<Byte>)
    requires s.Start(b) + s.Size(b) <= |data|
    ensures |r| == s.Size(b)
  {
    data[s.Start(b)..s.Start(b) + s.Size(b)]
  }

  lemma {:induction false} StartMono(s: Shape, b: nat, c: nat)
    requires b <= c
    ensures s.Start(b) <= s.Start(c)
  {
    if b < c { StartMono(s, b, c - 1); }
  }

  /** d[b] is the slice of the data that belongs to block b. */
  ghost predicate BlockIs(s: Shape, data: seq<Byte>, d: seq<seq<Byte>>, b: nat) {
    b < |d| && s.Start(b) + s.Size(b) <= |data| && d[b] == BlockOf(s, data, b)
  }

  /** A data block and its error correction block form a codeword. */
  ghost predicate Protected(s: Shape, d: seq<Byte>, e: seq<Byte>) {
    |e| == s.ec && IsCodeword(ToField(d) + ToField(e), s.ec)
  }

  /** Lines 146 to 150 for one block. */
  method ProtectBlock(gf: Tables, s: Shape, blk: seq<Byte>) returns (ecc: seq<Byte>)
    requires gf.Valid() && s.ec <= 256
    ensures Protected(s, blk, ecc)
  {
    var f := Encode(gf, ToField(blk), s.ec);
    FromToField(f);
    ecc := FromField(f);
  }

  /** Lines 140 to 151. */
  method SplitBlocks(gf: Tables, s: Shape, data: seq<Byte>) returns (d: seq<seq<Byte>>, e: seq<seq<Byte>>)
    requires gf.Valid() && s.Valid() && s.ec <= 256 && |data| == s.Start(s.blocks)
    ensures |d| == |e| == s.blocks
    ensures forall b :: 0 <= b < |d| ==> BlockIs(s, data, d, b)
    ensures forall b :: 0 <= b < |d| ==> Protected(s, d[b], e[b])
  {
    d, e := [], [];
    var off, b := 0, 0;
    while b < s.blocks
      invariant 0 <= b <= s.blocks && |d| == |e| == b && off == s.Start(b)
      invariant forall c :: 0 <= c < |d| ==> BlockIs(s, data, d, c)
      invariant forall c :: 0 <= c < |d| ==> Protected(s, d[c], e[c])
    {
      StartMono(s, b + 1, s.blocks);
      var cnt := s.per + (if b >= s.blocks - s.rem then 1 else 0);
      assert cnt == s.Size(b) && s.Start(b + 1) == off + cnt;
      var blk := data[off..off + cnt];
      var ecc := ProtectBlock(gf, s, blk);
      ghost var d0 := d;
      d, e := d + [blk], e + [ecc];
      forall c | 0 <= c < |d| ensures BlockIs(s, data, d, c) {
        if c < b { assert BlockIs(s, data, d0, c); }
      }
      off := off + cnt;
      b := b + 1;
    }
  }

  // ---------------------------------------------------------------- the codewords

  function CodewordCount(v: nat): nat
    requires IsVersion(v)
  {
    VerM(v).dataCodewords + ShapeOf(v).Row(VerM(v).ecPerBlock)
  }

  lemma {:induction false} PosInRange(s: Shape, i: nat, b: nat)
    requires s.Valid() && b < s.blocks && i < s.Size(b)
    ensures 0 <= s.Pos(i, b) < s.Total()
  {
  }

  function ReadBlock(s: Shape, out: seq<Byte>, b: nat): (r: seq<Byte>)
    requires s.Valid() && b < s.blocks && s.Total() <= |out|
    ensures |r| == s.Size(b)
  {
    seq(s.Size(b), i requires 0 <= i < s.Size(b) => PosInRange(s, i, b); out[s.Pos(i, b)])
  }

  /** Take the first b data blocks back out of an interleaved sequence. */
  function ReadBlocks(s: Shape, out: seq<Byte>, b: nat): (r: seq<Byte>)
    requires s.Valid() && b <= s.blocks && s.Total() <= |out|
    ensures |r| == s.Start(b)
  {
    if b == 0 then [] else ReadBlocks(s, out, b - 1) + ReadBlock(s, out, b - 1)
  }

  function ReadData(out: seq<Byte>, v: nat): seq<Byte>
    requires IsVersion(v) && VerM(v).dataCodewords <= |out|
  {
    ShapeTotals(v);
    ReadBlocks(ShapeOf(v), out, ShapeOf(v).blocks)
  }

  lemma ReadBlockBack(s: Shape, d: seq<seq<Byte>>, out: seq<Byte>, b: nat)
    requires Shaped(s, d) && b < s.blocks && s.Total() <= |out|
    requires PlacedUpTo(s, out, d, s.per + 1, 0)
    ensures ReadBlock(s, out, b) == d[b]
  {
    forall i | 0 <= i < s.Size(b) ensures ReadBlock(s, out, b)[i] == d[b][i] {
      assert PlacedAt(s, out, d, i, b);
    }
  }

  lemma {:induction false} ReadBack(s: Shape, data: seq<Byte>, d: seq<seq<Byte>>, out: seq<Byte>, b: nat)
    requires Shaped(s, d) && b <= s.blocks && s.Total() <= |out|
    requires forall c :: 0 <= c < |d| ==> BlockIs(s, data, d, c)
    requires PlacedUpTo(s, out, d, s.per + 1, 0)
    ensures s.Start(b) <= |data| && ReadBlocks(s, out, b) == data[..s.Start(b)]
  {
    if b > 0 {
      ReadBack(s, data, d, out, b - 1);
      ReadBlockBack(s, d, out, b - 1);
      assert BlockIs(s, data, d, b - 1);
      var i, j := s.Start(b - 1), s.Start(b);
      assert data[..j] == data[..i] + data[i..j];
    }
  }

  /** Error correction codeword i of block b, read from the interleaved sequence. */
  function ReadEcc(out: seq<Byte>, v: nat, b: nat): (r: seq<Byte>)
    requires IsVersion(v) && |out| == CodewordCount(v) && b < VerM(v).numBlocks
    ensures |r| == VerM(v).ecPerBlock
  {
    var s := ShapeOf(v);
    seq(s.ec, i requires 0 <= i < s.ec => out[VerM(v).dataCodewords + s.Row(i) + b])
  }

  /** Every block, as a reader extracts it from the symbol, has zero syndromes. */
  ghost predicate AllProtected(out: seq<Byte>, v: nat)
    requires IsVersion(v) && |out| == CodewordCount(v)
  {
    ShapeTotals(v);
    forall b :: 0 <= b < VerM(v).numBlocks ==>
      Protected(ShapeOf(v), ReadBlock(ShapeOf(v), out, b), ReadEcc(out, v, b))
  }

  lemma PlacedPrefix(s: Shape, front: seq<Byte>, back: seq<Byte>, d: seq<seq<Byte>>)
    requires PlacedUpTo(s, front, d, s.per + 1, 0)
    ensures PlacedUpTo(s, front + back, d, s.per + 1, 0)
  {
    forall k, c | 0 <= c < |d| && 0 <= k < |d[c]| && k < s.per + 1 ensures PlacedAt(s, front + back, d, k, c) {
      assert PlacedAt(s, front, d, k, c);
    }
  }

  lemma EccBack(v: nat, e: seq<seq<Byte>>, front: seq<Byte>, back: seq<Byte>, b: nat)
    requires IsVersion(v) && |front| == VerM(v).dataCodewords && |front + back| == CodewordCount(v)
    requires |e| == VerM(v).numBlocks && b < |e| && |e[b]| == ShapeOf(v).ec
    requires forall i, c :: 0 <= i < ShapeOf(v).ec && 0 <= c < |e| ==> EccAt(ShapeOf(v), back, e, i, c)
    ensures ReadEcc(front + back, v, b) == e[b]
  {
    forall i | 0 <= i < ShapeOf(v).ec ensures ReadEcc(front + back, v, b)[i] == e[b][i] {
      assert EccAt(ShapeOf(v), back, e, i, b);
    }
  }

  /** Lines 139 to 162: a reader finds the data again, and every block is protected. */
  method ProtectAndInterleave(gf: Tables, data: seq<Byte>, v: nat) returns (out: seq<Byte>)
    requires gf.Valid() && IsVersion(v) && |data| == VerM(v).dataCodewords
    ensures |out| == CodewordCount(v)
    ensures ReadData(out, v) == data
    ensures AllProtected(out, v)
  {
    ghost var s := ShapeOf(v);
    ShapeTotals(v);
    var d, e := SplitBlocks(gf, ShapeOf(v), data);
    assert Shaped(s, d) by {
      forall b | 0 <= b < |d| ensures |d[b]| == s.Size(b) { assert BlockIs(s, data, d, b); }
    }
    assert forall b :: 0 <= b < |e| ==> |e[b]| == s.ec by {
      forall b | 0 <= b < |e| ensures |e[b]| == s.ec { assert Protected(s, d[b], e[b]); }
    }
    var front := InterleaveData(ShapeOf(v), d);
    var back := InterleaveEcc(ShapeOf(v), e);
    out := front + back;
    PlacedPrefix(s, front, back, d);
    ReadBack(s, data, d, out, s.blocks);
    forall b | 0 <= b < VerM(v).numBlocks ensures Protected(s, ReadBlock(s, out, b), ReadEcc(out, v, b)) {
      ReadBlockBack(s, d, out, b);
      EccBack(v, e, front, back, b);
    }
  }

  /** `buildCodewords`. */
  method BuildCodewords(gf: Tables, text: seq<Byte>, v: nat) returns (out: seq<Byte>)
    requires gf.Valid() && IsVersion(v) && Fits(v, |text|)
    ensures |out| == CodewordCount(v)
    ensures Parse(ReadData(out, v), v) == Some(text)
    ensures AllProtected(out, v)
  {
    var data := BuildData(text, v);
    out := ProtectAndInterleave(gf, data, v);
    ParseCarried(data, text, v);
  }
}
