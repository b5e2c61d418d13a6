/** The data stream of a QR symbol (byte mode, level M): versions, bit packing, padding, and
    the reader that recovers the text. src/web/QrEncoder.cpp lines 64 to 137. */
module QrStream {
  import opened Options
  import opened Powers

  type Byte = b: nat | b < 256

  datatype VerInfo = VerInfo(dataCodewords: nat, ecPerBlock: nat, numBlocks: nat)

  predicate IsVersion(v: int) {
    1 <= v <= 10
  }

  /** `kVerM`, including the simplified rows 8 to 10. */
  function VerM(v: nat): (i: VerInfo)
    requires IsVersion(v)
    ensures 16 <= i.dataCodewords <= 216 && 10 <= i.ecPerBlock <= 26 && 1 <= i.numBlocks <= 4
  {
    match v
    case 1 => VerInfo(16, 10, 1)
    case 2 => VerInfo(28, 16, 1)
    case 3 => VerInfo(44, 26, 1)
    case 4 => VerInfo(64, 18, 2)
    case 5 => VerInfo(86, 24, 2)
    case 6 => VerInfo(108, 16, 4)
    case 7 => VerInfo(124, 18, 4)
    case 8 => VerInfo(154, 22, 2)
    case 9 => VerInfo(182, 22, 3)
    case _ => VerInfo(216, 26, 4)
  }

  function ModuleCount(v: nat): nat {
    v * 4 + 17
  }

  function CharCountBits(v: nat): nat {
    if v <= 9 then 8 else 16
  }

  predicate Fits(v: nat, bytes: nat)
    requires IsVersion(v)
  {
    4 + CharCountBits(v) + bytes * 8 <= VerM(v).dataCodewords * 8
  }

  /** `chooseVersion`: the smallest version that fits; the exception of line 99 is None, and it
      is raised exactly above 213 bytes. */
  method ChooseVersion(bytes: nat) returns (r: Option<nat>)
    ensures r.Some? ==> IsVersion(r.value) && Fits(r.value, bytes)
    ensures r.Some? ==> forall u :: IsVersion(u) && u < r.value ==> !Fits(u, bytes)
    ensures r.None? <==> bytes > 213
  {
    var v := 1;
    while v <= 10
      invariant 1 <= v <= 11
      invariant forall u :: IsVersion(u) && u < v ==> !Fits(u, bytes)
    {
      if 4 + CharCountBits(v) + bytes * 8 <= VerM(v).dataCodewords * 8 {
        return Some(v);
      }
      v := v + 1;
    }
    assert !Fits(10, bytes);
    return None;
  }

  // -------------------------------------------------------------------- bits

  /** The low len bits of val, most significant first. */
  function BitsOf(val: nat, len: nat): (r: seq<bool>)
    ensures |r| == len
  {
    if len == 0 then [] else BitsOf(val / 2, len - 1) + [val % 2 == 1]
  }

  function NatOf(bits: seq<bool>): nat {
    if bits == [] then 0
    else 2 * NatOf(bits[..|bits| - 1]) + (if bits[|bits| - 1] then 1 else 0)
  }

  lemma {:induction false} NatOfBitsOf(val: nat, len: nat)
    requires val < Pow2(len)
    ensures NatOf(BitsOf(val, len)) == val
  {
    if len > 0 {
      NatOfBitsOf(val / 2, len - 1);
      assert BitsOf(val, len)[..len - 1] == BitsOf(val / 2, len - 1);
    }
  }

  lemma {:induction false} BitsOfNatOf(bits: seq<bool>)
    ensures BitsOf(NatOf(bits), |bits|) == bits && NatOf(bits) < Pow2(|bits|)
  {
    if bits != [] {
      var n := |bits| - 1;
      BitsOfNatOf(bits[..n]);
      assert bits == bits[..n] + [bits[n]];
      assert NatOf(bits) / 2 == NatOf(bits[..n]);
    }
  }

  /** val >> i */
  function Shr(val: nat, i: nat): nat {
    if i == 0 then val else Shr(val, i - 1) / 2
  }

  /** `BitBuf::put`. */
  method Put(bits: seq<bool>, val: nat, len: nat) returns (r: seq<bool>)
    ensures r == bits + BitsOf(val, len)
  {
    r := bits;
    var i := len;
    while i > 0
      invariant 0 <= i <= len
      invariant r == bits + BitsOf(Shr(val, i), len - i)
    {
      i := i - 1;
      r := r + [Shr(val, i) % 2 == 1];
    }
  }

  function BytesToBits(data: seq<Byte>): (r: seq<bool>)
    ensures |r| == 8 * |data|
  {
    if data == [] then [] else BytesToBits(data[..|data| - 1]) + BitsOf(data[|data| - 1], 8)
  }

  lemma Regroup(a: seq<bool>, b: seq<bool>, c: seq<bool>)
    ensures (a + b) + c == a + (b + c)
  {
  }

  lemma BytesToBitsLast(init: seq<Byte>, x: Byte)
    ensures BytesToBits(init + [x]) == BytesToBits(init) + BitsOf(x, 8)
  {
    assert (init + [x])[..|init|] == init;
  }

  lemma {:induction false} BytesToBitsConcat(a: seq<Byte>, b: seq<Byte>)
    ensures BytesToBits(a + b) == BytesToBits(a) + BytesToBits(b)
  {
    if b == [] {
      assert a + b == a;
    } else {
      var n := |b| - 1;
      var c, x := b[..n], b[n];
      BytesToBitsConcat(a, c);
      assert a + b == (a + c) + [x] && b == c + [x];
      BytesToBitsLast(a + c, x);
      BytesToBitsLast(c, x);
      Regroup(BytesToBits(a), BytesToBits(c), BitsOf(x, 8));
    }
  }

  lemma SliceFront<T>(p: seq<T>, q: seq<T>, i: nat, j: nat)
    requires i <= j <= |p|
    ensures (p + q)[i..j] == p[i..j]
  {
  }

  lemma SliceBack<T>(p: seq<T>, q: seq<T>)
    ensures (p + q)[|p|..|p| + |q|] == q
  {
  }

  lemma {:induction false} BytesToBitsAt(data: seq<Byte>, k: nat)
    requires k < |data|
    ensures BytesToBits(data)[8 * k..8 * k + 8] == BitsOf(data[k], 8)
  {
    var n := |data| - 1;
    var init, x := data[..n], data[n];
    assert data == init + [x];
    BytesToBitsLast(init, x);
    if k < n {
      BytesToBitsAt(init, k);
      SliceFront(BytesToBits(init), BitsOf(x, 8), 8 * k, 8 * k + 8);
    } else {
      SliceBack(BytesToBits(init), BitsOf(x, 8));
    }
  }

  /** Line 127 and 128. */
  method PackByte(bits: seq<bool>) returns (b: Byte)
    requires |bits| == 8
    ensures BitsOf(b, 8) == bits
  {
    var n, k := 0, 0;
    while k < 8
      invariant 0 <= k <= 8 && n == NatOf(bits[..k])
    {
      assert bits[..k + 1][..k] == bits[..k];
      n := n * 2 + (if bits[k] then 1 else 0);
      k := k + 1;
    }
    assert bits[..8] == bits && Pow2(8) == 256;
    BitsOfNatOf(bits);
    b := n;
  }

  /** Lines 126 to 130. */
  method PackBytes(bits: seq<bool>) returns (data: seq<Byte>)
    requires |bits| % 8 == 0
    ensures BytesToBits(data) == bits
  {
    data := [];
    var i := 0;
    while i < |bits|
      invariant 0 <= i <= |bits| && i % 8 == 0
      invariant BytesToBits(data) == bits[..i]
    {
      var b := PackByte(bits[i..i + 8]);
      assert (data + [b])[..|data|] == data;
      data := data + [b];
      assert bits[..i + 8] == bits[..i] + bits[i..i + 8];
      i := i + 8;
    }
    assert bits[..i] == bits;
  }

  // ------------------------------------------------------------ the data stream

  /** Mode, length and text. */
  function Header(text: seq<Byte>, v: nat): (r: seq<bool>)
    ensures |r| == 4 + CharCountBits(v) + 8 * |text|
  {
    BitsOf(4, 4) + BitsOf(|text|, CharCountBits(v)) + BytesToBits(text)
  }

  function Falses(n: nat): (r: seq<bool>)
    ensures |r| == n && forall k :: 0 <= k < n ==> !r[k]
  {
    seq(n, _ => false)
  }

  function PadByte(k: nat): Byte {
    if k % 2 == 0 then 0xEC else 0x11
  }

  /** The first `used` codewords carry the header and `zeros` zero bits, the rest are pad bytes. */
  ghost predicate StreamOf(data: seq<Byte>, text: seq<Byte>, v: nat, used: nat, zeros: nat) {
    && used <= |data|
    && BytesToBits(data[..used]) == Header(text, v) + Falses(zeros)
    && PaddedFrom(data, used)
  }

  /** From position n on there are pad bytes. */
  predicate PaddedFrom(data: seq<Byte>, n: nat) {
    forall k :: n <= k < |data| ==> data[k] == PadByte(k - n)
  }

  /** The terminator is four zero bits, or as many as fit, and the zeros end at the first byte
      boundary from there on. */
  ghost predicate CarriesText(data: seq<Byte>, text: seq<Byte>, v: nat)
    requires IsVersion(v)
  {
    && |data| == VerM(v).dataCodewords
    && exists used: nat, zeros: nat ::
         StreamOf(data, text, v, used, zeros) && zeros < 12 && (zeros < 4 ==> used == |data|)
  }

  /** Lines 113 to 116. */
  method HeaderBits(text: seq<Byte>, v: nat) returns (bits: seq<bool>)
    ensures bits == Header(text, v)
  {
    bits := Put([], 4, 4);
    bits := Put(bits, |text|, CharCountBits(v));
    bits := PutText(bits, text);
  }

  /** Line 116. */
  method PutText(front: seq<bool>, text: seq<Byte>) returns (bits: seq<bool>)
    ensures bits == front + BytesToBits(text)
  {
    bits := front;
    var i := 0;
    while i < |text|
      invariant 0 <= i <= |text| && bits == front + BytesToBits(text[..i])
    {
      bits := Put(bits, text[i], 8);
      assert text[..i + 1] == text[..i] + [text[i]];
      BytesToBitsLast(text[..i], text[i]);
      Regroup(front, BytesToBits(text[..i]), BitsOf(text[i], 8));
      i := i + 1;
    }
    assert text[..i] == text;
  }

  /** Lines 120 to 123. */
  method PadBits(header: seq<bool>, total: nat) returns (bits: seq<bool>, ghost zeros: nat)
    requires |header| <= total && total % 8 == 0
    ensures bits == header + Falses(zeros) && |bits| % 8 == 0 && |bits| <= total
    ensures zeros < 12 && (zeros < 4 ==> |bits| == total)
  {
    var term := if total - |header| < 4 then total - |header| else 4;
    bits, zeros := header + Falses(term), term;
    while |bits| % 8 != 0
      invariant bits == header + Falses(zeros) && |bits| <= total
      invariant zeros < 4 ==> |bits| == total
      invariant zeros <= 4 || (|header| + 4) % 8 + zeros - 4 <= 8
      invariant zeros > 4 ==> (|header| + 4) % 8 != 0
      decreases total - |bits|
    {
      bits := bits + [false];
      zeros := zeros + 1;
    }
  }

  /** Lines 132 to 137. */
  method PadBytes(start: seq<Byte>, total: nat) returns (data: seq<Byte>)
    requires |start| <= total
    ensures |data| == total && data[..|start|] == start
    ensures PaddedFrom(data, |start|)
  {
    data := start;
    var pi := 0;
    while |data| < total
      invariant |start| <= |data| <= total && data[..|start|] == start
      invariant pi == (|data| - |start|) % 2
      invariant forall k :: |start| <= k < |data| ==> data[k] == PadByte(k - |start|)
    {
      data := data + [if pi == 0 then 0xEC else 0x11];
      pi := 1 - pi;
    }
  }

  /** Lines 113 to 137. */
  method BuildData(text: seq<Byte>, v: nat) returns (data: seq<Byte>)
    requires IsVersion(v) && Fits(v, |text|)
    ensures CarriesText(data, text, v)
  {
    var header := HeaderBits(text, v);
    ghost var start, zeros;
    data, start, zeros := Pad(header, VerM(v).dataCodewords);
    CarriedBy(data, text, v, start, zeros);
  }

  /** Lines 117 to 137. */
  method Pad(header: seq<bool>, total: nat) returns (data: seq<Byte>, ghost start: seq<Byte>, ghost zeros: nat)
    requires |header| <= 8 * total
    ensures |data| == total && |start| <= total && data[..|start|] == start
    ensures BytesToBits(start) == header + Falses(zeros)
    ensures PaddedFrom(data, |start|) && zeros < 12 && (zeros < 4 ==> |start| == total)
  {
    var bits;
    bits, zeros := PadBits(header, 8 * total);
    var packed := PackBytes(bits);
    start := packed;
    data := PadBytes(packed, total);
  }

  lemma CarriedBy(data: seq<Byte>, text: seq<Byte>, v: nat, start: seq<Byte>, zeros: nat)
    requires IsVersion(v) && |data| == VerM(v).dataCodewords
    requires |start| <= |data| && data[..|start|] == start && BytesToBits(start) == Header(text, v) + Falses(zeros)
    requires PaddedFrom(data, |start|)
    requires zeros < 12 && (zeros < 4 ==> |start| == |data|)
    ensures CarriesText(data, text, v)
  {
    assert StreamOf(data, text, v, |start|, zeros);
  }

  // ----------------------------------------------------------------- the reader

  function ByteAt(bits: seq<bool>, i: nat): Byte
    requires i + 8 <= |bits|
  {
    BitsOfNatOf(bits[i..i + 8]);
    assert Pow2(8) == 256;
    NatOf(bits[i..i + 8])
  }

  function BytesAt(bits: seq<bool>, start: nat, count: nat): (r: seq<Byte>)
    requires start + 8 * count <= |bits|
    ensures |r| == count
  {
    seq(count, k requires 0 <= k < count => ByteAt(bits, start + 8 * k))
  }

  /** Read mode, length (a field of cc bits) and bytes. */
  function ParseBits(bits: seq<bool>, cc: nat): Option<seq<Byte>> {
    var start := 4 + cc;
    if |bits| < start || NatOf(bits[..4]) != 4 then None
    else
      var count := NatOf(bits[4..start]);
      if start + 8 * count > |bits| then None
      else Some(BytesAt(bits, start, count))
  }

  function Parse(data: seq<Byte>, v: nat): Option<seq<Byte>> {
    ParseBits(BytesToBits(data), CharCountBits(v))
  }

  /** The three fields of a stream, by position. */
  lemma StreamFields(data: seq<Byte>, text: seq<Byte>, v: nat, used: nat, zeros: nat, mode: seq<bool>)
    requires StreamOf(data, text, v, used, zeros) && mode == BitsOf(4, 4)
    ensures HasFields(BytesToBits(data), mode, BitsOf(|text|, CharCountBits(v)), BytesToBits(text))
  {
    var front, back := data[..used], data[used..];
    var count, body := BitsOf(|text|, CharCountBits(v)), BytesToBits(text);
    assert front + back == data;
    assert BytesToBits(data) == mode + count + body + Falses(zeros) + BytesToBits(back) by {
      BytesToBitsConcat(front, back);
    }
    Fields(mode, count, body, Falses(zeros), BytesToBits(back));
  }

  predicate HasFields(bits: seq<bool>, a: seq<bool>, b: seq<bool>, c: seq<bool>) {
    && |a| + |b| + |c| <= |bits|
    && bits[..|a|] == a && bits[|a|..|a| + |b|] == b && bits[|a| + |b|..|a| + |b| + |c|] == c
  }

  lemma Fields(a: seq<bool>, b: seq<bool>, c: seq<bool>, d: seq<bool>, e: seq<bool>)
    ensures HasFields(a + b + c + d + e, a, b, c)
  {
  }

  lemma SliceOfSlice<T>(s: seq<T>, i: nat, j: nat, k: nat, l: nat)
    requires i <= j <= |s| && k <= l <= j - i
    ensures s[i..j][k..l] == s[i + k..i + l]
  {
    var a, b := s[i..j][k..l], s[i + k..i + l];
    forall m | 0 <= m < l - k ensures a[m] == b[m] { assert a[m] == s[i..j][k + m]; }
  }

  lemma ParseText(bits: seq<bool>, text: seq<Byte>, start: nat, t: seq<bool>)
    requires |t| == 8 * |text| && start + |t| <= |bits| && bits[start..start + |t|] == t
    requires forall k :: 0 <= k < |text| ==> t[8 * k..8 * k + 8] == BitsOf(text[k], 8)
    ensures BytesAt(bits, start, |text|) == text
  {
    var r := BytesAt(bits, start, |text|);
    forall k | 0 <= k < |text| ensures r[k] == text[k] {
      ParseByte(bits, text, t, start, k);
    }
  }

  lemma ParseFields(bits: seq<bool>, text: seq<Byte>, cc: nat, t: seq<bool>, mode: seq<bool>)
    requires |text| < Pow2(cc) && |t| == 8 * |text|
    requires mode == BitsOf(4, 4) && HasFields(bits, mode, BitsOf(|text|, cc), t)
    requires forall k :: 0 <= k < |text| ==> t[8 * k..8 * k + 8] == BitsOf(text[k], 8)
    ensures ParseBits(bits, cc) == Some(text)
  {
    ParseHeader(bits, |text|, cc, t, mode);
    ParseText(bits, text, 4 + cc, t);
  }

  lemma ParseHeader(bits: seq<bool>, count: nat, cc: nat, t: seq<bool>, mode: seq<bool>)
    requires count < Pow2(cc) && mode == BitsOf(4, 4) && HasFields(bits, mode, BitsOf(count, cc), t)
    ensures 4 + cc + |t| <= |bits| && bits[4 + cc..4 + cc + |t|] == t
    ensures NatOf(bits[..4]) == 4 && NatOf(bits[4..4 + cc]) == count
  {
    PowersOfTwo();
    NatOfBitsOf(4, 4);
    NatOfBitsOf(count, cc);
  }

  /** Reading a stream that carries a text gives that text. */
  lemma ParseCarried(data: seq<Byte>, text: seq<Byte>, v: nat)
    requires IsVersion(v) && Fits(v, |text|) && CarriesText(data, text, v)
    ensures Parse(data, v) == Some(text)
  {
    var used: nat, zeros: nat :| StreamOf(data, text, v, used, zeros);
    var mode := BitsOf(4, 4);
    StreamFields(data, text, v, used, zeros, mode);
    forall k | 0 <= k < |text| ensures BytesToBits(text)[8 * k..8 * k + 8] == BitsOf(text[k], 8) {
      BytesToBitsAt(text, k);
    }
    CountFits(v, |text|);
    ParseFields(BytesToBits(data), text, CharCountBits(v), BytesToBits(text), mode);
  }

  lemma CountFits(v: nat, bytes: nat)
    requires IsVersion(v) && Fits(v, bytes)
    ensures bytes < Pow2(CharCountBits(v))
  {
    PowersOfTwo();
  }

  lemma PowersOfTwo()
    ensures Pow2(4) == 16 && Pow2(8) == 256 && Pow2(16) == 65536
  {
    assert Pow2(8) == 256;
    assert Pow2(12) == 16 * Pow2(8);
    assert Pow2(16) == 16 * Pow2(12);
  }

  /** Byte k of the text field. */
  lemma ParseByte(bits: seq<bool>, text: seq<Byte>, t: seq<bool>, start: nat, k: nat)
    requires start + |t| <= |bits| && bits[start..start + |t|] == t
    requires k < |text| && 8 * k + 8 <= |t| && t[8 * k..8 * k + 8] == BitsOf(text[k], 8)
    ensures ByteAt(bits, start + 8 * k) == text[k]
  {
    var i := 8 * k;
    SliceOfSlice(bits, start, start + |t|, i, i + 8);
    PowersOfTwo();
    NatOfBitsOf(text[k], 8);
  }
}
