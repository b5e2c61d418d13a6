/** Masking, format information and the whole encoder of src/web/QrEncoder.cpp lines 256 to 352,
    proved against the reader `ReadSymbol`. */
module QrEncoder {
  import opened Options
  import opened QrStream
  import opened QrBlocks
  import opened QrLayout
  import opened QrWalk
  import opened QrCapacity
  import opened QrMatrix
  import ReedSolomon

  // ------------------------------------------------------------- mask and format

  predicate MaskBit(mask: nat, r: nat, c: nat) {
    match mask
    case 0 => (r + c) % 2 == 0
    case 1 => r % 2 == 0
    case 2 => c % 3 == 0
    case 3 => (r + c) % 3 == 0
    case 4 => (r / 2 + c / 3) % 2 == 0
    case 5 => (r * c) % 2 + (r * c) % 3 == 0
    case 6 => ((r * c) % 2 + (r * c) % 3) % 2 == 0
    case 7 => ((r + c) % 2 + (r * c) % 3) % 2 == 0
    case _ => false
  }

  /** x ^ 1 on a module value. */
  function Flip(x: int, b: bool): int {
    if b then 1 - x else x
  }

  /** `kFormatM`. */
  function FormatCode(mask: nat): nat
    requires mask < 8
  {
    match mask
    case 0 => 0x5412
    case 1 => 0x5125
    case 2 => 0x5E7C
    case 3 => 0x5B4B
    case 4 => 0x45F9
    case 5 => 0x40CE
    case 6 => 0x4F97
    case _ => 0x4AA0
  }

  predicate FormatBit(mask: nat, i: nat)
    requires mask < 8 && i < 15
  {
    Shr(FormatCode(mask), 14 - i) % 2 == 1
  }

  function Copy1(i: nat): (nat, nat)
    requires i < 15
  {
    if i <= 5 then (8, i) else if i == 6 then (8, 7) else if i == 7 then (8, 8)
    else if i == 8 then (7, 8) else (14 - i, 8)
  }

  function Copy2(n: nat, i: nat): (nat, nat)
    requires i < 15 && n >= 21
  {
    if i < 7 then (n - 1 - i, 8) else (8, n - 15 + i)
  }

  /** The format bit a module shows, in either copy, or -1. */
  function FormatIndex(n: nat, r: int, c: int): (i: int)
    ensures -1 <= i < 15
  {
    if r == 8 && 0 <= c <= 5 then c
    else if r == 8 && c == 7 then 6
    else if r == 8 && c == 8 then 7
    else if r == 7 && c == 8 then 8
    else if c == 8 && 0 <= r <= 5 then 14 - r
    else if c == 8 && n - 7 <= r < n then n - 1 - r
    else if r == 8 && n - 8 <= c < n then c - (n - 15)
    else -1
  }

  lemma FormatCells(n: nat, i: nat)
    requires n >= 21 && i < 15
    ensures FormatIndex(n, Copy1(i).0, Copy1(i).1) == i && FormatIndex(n, Copy2(n, i).0, Copy2(n, i).1) == i
    ensures forall r, c :: FormatIndex(n, r, c) == i ==> (r, c) == Copy1(i) || (r, c) == Copy2(n, i)
  {
  }

  lemma FormatIsFunction(v: nat, r: nat, c: nat)
    requires IsVersion(v) && r < ModuleCount(v) && c < ModuleCount(v)
    requires FormatIndex(ModuleCount(v), r, c) >= 0 || (r == ModuleCount(v) - 8 && c == 8)
    ensures IsFunction(v, r, c)
  {
  }

  /** The mask number, from format bits 2 to 4 as section 7.9 of ISO/IEC 18004:2015 masks them. */
  function MaskFrom(b2: bool, b3: bool, b4: bool): (m: nat)
    ensures m < 8
  {
    (if b2 then 0 else 4) + (if b3 then 2 else 0) + (if b4 then 0 else 1)
  }

  lemma MaskReadBack(mask: nat)
    requires mask < 8
    ensures MaskFrom(FormatBit(mask, 2), FormatBit(mask, 3), FormatBit(mask, 4)) == mask
  {
    var x := FormatCode(mask);
    ShrTen(x);
    FormatTop(mask);
    assert FormatBit(mask, 2) == (x / 4096 % 2 == 1) && FormatBit(mask, 3) == (x / 2048 % 2 == 1);
    assert FormatBit(mask, 4) == (x / 1024 % 2 == 1);
  }

  lemma FormatTop(mask: nat)
    requires mask < 8
    ensures var x := FormatCode(mask);
      MaskFrom(x / 4096 % 2 == 1, x / 2048 % 2 == 1, x / 1024 % 2 == 1) == mask
  {
  }

  lemma ShrTen(x: nat)
    ensures Shr(x, 10) == x / 1024 && Shr(x, 11) == x / 2048 && Shr(x, 12) == x / 4096
  {
    assert Shr(x, 1) == x / 2 && Shr(x, 2) == x / 4 && Shr(x, 3) == x / 8 && Shr(x, 4) == x / 16;
    assert Shr(x, 5) == x / 32 && Shr(x, 6) == x / 64 && Shr(x, 7) == x / 128 && Shr(x, 8) == x / 256;
    assert Shr(x, 9) == x / 512;
  }

  /** Lines 335 to 339. */
  method ApplyMask(mx: Matrix, mask: nat) returns (g: array2<int>)
    requires mx.Valid()
    ensures fresh(g) && g.Length0 == mx.n && g.Length1 == mx.n
    ensures forall r, c :: 0 <= r < mx.n && 0 <= c < mx.n ==>
      g[r, c] == if mx.fixed[r, c] then mx.m[r, c] else Flip(mx.m[r, c], MaskBit(mask, r, c))
  {
    g := new int[mx.n, mx.n]((r, c) => 0);
    for r := 0 to mx.n
      invariant forall i, j :: 0 <= i < r && 0 <= j < mx.n ==>
        g[i, j] == if mx.fixed[i, j] then mx.m[i, j] else Flip(mx.m[i, j], MaskBit(mask, i, j))
    {
      for c := 0 to mx.n
        invariant forall i, j :: 0 <= i < mx.n && 0 <= j < mx.n && (i < r || (i == r && j < c)) ==>
          g[i, j] == if mx.fixed[i, j] then mx.m[i, j] else Flip(mx.m[i, j], MaskBit(mask, i, j))
      {
        g[r, c] := if mx.fixed[r, c] then mx.m[r, c] else Flip(mx.m[r, c], MaskBit(mask, r, c));
      }
    }
  }

  /** `applyFormat`. */
  method ApplyFormat(g: array2<int>, n: nat, mask: nat)
    requires g.Length0 == g.Length1 == n && n >= 21 && mask < 8
    modifies g
    ensures forall r, c :: 0 <= r < n && 0 <= c < n ==>
      g[r, c] == if r == n - 8 && c == 8 then 1
                 else if FormatIndex(n, r, c) >= 0 then Dark(FormatBit(mask, FormatIndex(n, r, c)))
                 else old(g[r, c])
  {
    var i := 0;
    while i < 15
      invariant 0 <= i <= 15
      invariant forall r, c :: 0 <= r < n && 0 <= c < n ==>
        g[r, c] == if 0 <= FormatIndex(n, r, c) < i then Dark(FormatBit(mask, FormatIndex(n, r, c)))
                   else old(g[r, c])
    {
      FormatCells(n, i);
      var bit := Dark(FormatBit(mask, i));
      g[Copy1(i).0, Copy1(i).1] := bit;
      g[Copy2(n, i).0, Copy2(n, i).1] := bit;
      i := i + 1;
    }
    g[n - 8, 8] := 1;
  }

  // ------------------------------------------------------------------- penalty

  type Grid = seq<seq<int>>

  ghost predicate Square(g: Grid, n: nat) {
    |g| == n && forall r :: 0 <= r < n ==> |g[r]| == n
  }

  /** Points from position c on, `run` equal modules having been seen. */
  function RunPenalty(line: seq<int>, c: nat, run: nat): nat
    decreases |line| - c
  {
    if c < 1 || c >= |line| then 0
    else if line[c] == line[c - 1] then
      (if run + 1 == 5 then 3 else if run + 1 > 5 then 1 else 0) + RunPenalty(line, c + 1, run + 1)
    else RunPenalty(line, c + 1, 1)
  }

  function Column(g: Grid, c: nat): (r: seq<int>)
    requires forall k :: 0 <= k < |g| ==> c < |g[k]|
    ensures |r| == |g|
  {
    seq(|g|, k requires 0 <= k < |g| => g[k][c])
  }

  /** Rule 1 over the first r rows and columns. */
  ghost function PenaltyUpTo(g: Grid, n: nat, r: nat): nat
    requires Square(g, n) && r <= n
  {
    if r == 0 then 0
    else PenaltyUpTo(g, n, r - 1) + RunPenalty(g[r - 1], 1, 1) + RunPenalty(Column(g, r - 1), 1, 1)
  }

  lemma {:induction false} RunPenaltyBound(line: seq<int>, c: nat, run: nat)
    requires c <= |line|
    ensures RunPenalty(line, c, run) <= 3 * (|line| - c)
    decreases |line| - c
  {
    if 1 <= c < |line| {
      RunPenaltyBound(line, c + 1, run + 1);
      RunPenaltyBound(line, c + 1, 1);
    }
  }

  lemma {:induction false} PenaltyBound(g: Grid, n: nat, r: nat)
    requires Square(g, n) && r <= n && 1 <= n <= 57
    ensures PenaltyUpTo(g, n, r) <= 336 * r
  {
    if r > 0 {
      PenaltyBound(g, n, r - 1);
      RunPenaltyBound(g[r - 1], 1, 1);
      RunPenaltyBound(Column(g, r - 1), 1, 1);
    }
  }

  method LinePenalty(line: seq<int>) returns (pen: nat)
    ensures pen == RunPenalty(line, 1, 1)
  {
    pen := 0;
    var run, c := 1, 1;
    while c < |line|
      invariant 1 <= c && run >= 1
      invariant pen + RunPenalty(line, c, run) == RunPenalty(line, 1, 1)
      decreases |line| - c
    {
      if line[c] == line[c - 1] {
        run := run + 1;
        if run == 5 { pen := pen + 3; } else if run > 5 { pen := pen + 1; }
      } else {
        run := 1;
      }
      c := c + 1;
    }
  }

  /** `penalty`. */
  method Penalty(g: Grid, ghost n: nat) returns (pen: nat)
    requires Square(g, n)
    ensures pen == PenaltyUpTo(g, n, n)
    ensures 1 <= n <= 57 ==> pen <= 336 * n < 0x40000000
  {
    if 1 <= n <= 57 {
      PenaltyBound(g, n, n);
    }
    pen := 0;
    for r := 0 to |g|
      invariant pen == PenaltyUpTo(g, n, r)
    {
      var a := LinePenalty(g[r]);
      var b := LinePenalty(Column(g, r));
      pen := pen + a + b;
    }
  }

  // -------------------------------------------------------------------- the symbol

  /** The module at (r, c) of the symbol with this mask. */
  ghost function SymbolAt(v: nat, bits: seq<bool>, mask: nat, r: nat, c: nat): int
    requires IsVersion(v) && mask < 8
  {
    var n := ModuleCount(v);
    if r == n - 8 && c == 8 then 1
    else if FormatIndex(n, r, c) >= 0 then Dark(FormatBit(mask, FormatIndex(n, r, c)))
    else if IsFunction(v, r, c) then BaseValue(v, r, c)
    else Flip(CellBit(n, DataOf(v), bits, r, c), MaskBit(mask, r, c))
  }

  ghost function Symbol(v: nat, bits: seq<bool>, mask: nat): (g: Grid)
    requires IsVersion(v) && mask < 8
    ensures Square(g, ModuleCount(v))
  {
    var n := ModuleCount(v);
    seq(n, r requires 0 <= r < n => seq(n, c requires 0 <= c < n => SymbolAt(v, bits, mask, r, c)))
  }

  method Snapshot(g: array2<int>, n: nat) returns (s: Grid)
    requires g.Length0 == g.Length1 == n
    ensures Square(s, n) && forall r, c :: 0 <= r < n && 0 <= c < n ==> s[r][c] == g[r, c]
  {
    s := [];
    for r := 0 to n
      invariant |s| == r
      invariant forall i :: 0 <= i < r ==> |s[i]| == n
      invariant forall i, j :: 0 <= i < r && 0 <= j < n ==> s[i][j] == g[i, j]
    {
      var row: seq<int> := [];
      for c := 0 to n
        invariant |row| == c && forall j :: 0 <= j < c ==> row[j] == g[r, j]
      {
        row := row + [g[r, c]];
      }
      s := s + [row];
    }
  }

  /** Lines 335 to 342 for one mask. */
  method BuildSymbol(mx: Matrix, v: nat, mask: nat, ghost bits: seq<bool>) returns (s: Grid)
    requires mx.Valid() && IsVersion(v) && mask < 8 && Painted(mx, v, bits)
    ensures s == Symbol(v, bits, mask)
  {
    var g := ApplyMask(mx, mask);
    ApplyFormat(g, mx.n, mask);
    s := Snapshot(g, mx.n);
    ghost var t := Symbol(v, bits, mask);
    forall r | 0 <= r < mx.n ensures s[r] == t[r] {
      forall c | 0 <= c < mx.n ensures s[r][c] == t[r][c] {
        assert s[r][c] == g[r, c];
      }
    }
  }

  ghost function Score(v: nat, bits: seq<bool>, mask: nat): nat
    requires IsVersion(v) && mask < 8
  {
    PenaltyUpTo(Symbol(v, bits, mask), ModuleCount(v), ModuleCount(v))
  }

  /** `m` is the first among the first k with the smallest score. */
  ghost predicate FirstBest(score: nat -> nat, k: nat, m: nat) {
    && m < k
    && (forall j :: 0 <= j < k ==> score(m) <= score(j))
    && (forall j :: 0 <= j < m ==> score(m) < score(j))
  }

  /** The symbols and scores of the eight masks, named so that the search below is about nothing
      but numbers. */
  ghost predicate NamedAt(v: nat, bits: seq<bool>, sym: nat -> Grid, score: nat -> nat, k: nat)
    requires IsVersion(v)
  {
    k < 8 ==> sym(k) == Symbol(v, bits, k) && score(k) == Score(v, bits, k)
  }

  /** The data walk has been painted over the function patterns. */
  ghost predicate Painted(mx: Matrix, v: nat, bits: seq<bool>)
    requires mx.Valid() && IsVersion(v)
    reads mx.m, mx.fixed
  {
    && mx.n == ModuleCount(v)
    && (forall r, c :: 0 <= r < mx.n && 0 <= c < mx.n ==>
         mx.m[r, c] == if IsFunction(v, r, c) then BaseValue(v, r, c) else CellBit(mx.n, DataOf(v), bits, r, c))
    && (forall r, c :: 0 <= r < mx.n && 0 <= c < mx.n ==> mx.fixed[r, c] == IsFunction(v, r, c))
  }

  /** Lines 335 to 343. */
  method TryMask(mx: Matrix, v: nat, mask: nat, ghost bits: seq<bool>, ghost sym: nat -> Grid, ghost score: nat -> nat)
    returns (s: Grid, p: nat)
    requires mx.Valid() && IsVersion(v) && mask < 8 && Painted(mx, v, bits)
    requires forall k :: NamedAt(v, bits, sym, score, k)
    ensures s == sym(mask) && p == score(mask) && p < 0x40000000
  {
    assert NamedAt(v, bits, sym, score, mask);
    s := BuildSymbol(mx, v, mask, bits);
    p := Penalty(s, mx.n);
  }

  /** Lines 331 to 346. */
  method ChooseMask(mx: Matrix, v: nat, ghost bits: seq<bool>, ghost sym: nat -> Grid, ghost score: nat -> nat)
    returns (best: Grid, mask: nat)
    requires mx.Valid() && IsVersion(v) && Painted(mx, v, bits)
    requires forall k :: NamedAt(v, bits, sym, score, k)
    ensures best == sym(mask) && FirstBest(score, 8, mask)
  {
    var bestPen := 0x40000000;
    best, mask := [], 0;
    var k := 0;
    while k < 8
      invariant 0 <= k <= 8
      invariant k == 0 ==> bestPen == 0x40000000
      invariant k > 0 ==> best == sym(mask) && bestPen == score(mask) && FirstBest(score, k, mask)
    {
      var s, p := TryMask(mx, v, k, bits, sym, score);
      if p < bestPen {
        bestPen, best, mask := p, s, k;
      }
      k := k + 1;
    }
  }

  // --------------------------------------------------------------------- the reader

  type Modules2 = seq<seq<bool>>

  /** A module matrix of one of the ten versions. */
  predicate IsSymbol(g: Modules2) {
    |g| >= 21 && |g| <= 57 && |g| % 4 == 1 && forall r :: 0 <= r < |g| ==> |g[r]| == |g|
  }

  function VersionOf(g: Modules2): (v: nat)
    requires IsSymbol(g)
    ensures IsVersion(v) && ModuleCount(v) == |g|
  {
    (|g| - 17) / 4
  }

  function ReadMask(g: Modules2): (m: nat)
    requires IsSymbol(g)
    ensures m < 8
  {
    MaskFrom(g[8][2], g[8][3], g[8][4])
  }

  /** The unmasked module. */
  function Unmasked(g: Modules2): (int, int) -> bool
    requires IsSymbol(g)
  {
    (r, c) => 0 <= r < |g| && 0 <= c < |g| && (g[r][c] != MaskBit(ReadMask(g), r, c))
  }

  /** The bits met along the walk: at least eight for every codeword. */
  function ReadBits(g: Modules2): (bits: seq<bool>)
    requires IsSymbol(g)
    ensures |bits| >= 8 * CodewordCount(VersionOf(g))
  {
    EnoughModules(VersionOf(g));
    Collect(|g|, DataOf(VersionOf(g)), Unmasked(g), (|g| - 1) / 2, 0)
  }

  function BytesFrom(bits: seq<bool>, count: nat): (out: seq<Byte>)
    requires 8 * count <= |bits|
    ensures |out| == count
  {
    seq(count, k requires 0 <= k < count => ByteAt(bits, 8 * k))
  }

  function ReadCodewords(g: Modules2): (out: seq<Byte>)
    requires IsSymbol(g)
    ensures |out| == CodewordCount(VersionOf(g))
  {
    BytesFrom(ReadBits(g), CodewordCount(VersionOf(g)))
  }

  /** Read a symbol: mask from the format modules, zig-zag, blocks, mode, length, bytes. */
  function ReadSymbol(g: Modules2): Option<seq<Byte>>
    requires IsSymbol(g)
  {
    Parse(ReadData(ReadCodewords(g), VersionOf(g)), VersionOf(g))
  }

  // ------------------------------------------------------------------ the round trip

  ghost function DarkModules(g: Grid): (s: Modules2)
    requires forall r :: 0 <= r < |g| ==> |g[r]| == |g|
    ensures |s| == |g| && forall r :: 0 <= r < |s| ==> |s[r]| == |s|
  {
    seq(|g|, r requires 0 <= r < |g| => seq(|g|, c requires 0 <= c < |g| => g[r][c] == 1))
  }

  lemma SymbolShape(v: nat, bits: seq<bool>, mask: nat)
    requires IsVersion(v) && mask < 8
    ensures var g := DarkModules(Symbol(v, bits, mask)); IsSymbol(g) && VersionOf(g) == v && ReadMask(g) == mask
  {
    var g := DarkModules(Symbol(v, bits, mask));
    assert IsSymbol(g) && VersionOf(g) == v;
    FormatCell(v, bits, mask, 2);
    FormatCell(v, bits, mask, 3);
    FormatCell(v, bits, mask, 4);
    MaskReadBack(mask);
  }

  /** The first copy's early cells hold the format bits. */
  lemma FormatCell(v: nat, bits: seq<bool>, mask: nat, i: nat)
    requires IsVersion(v) && mask < 8 && i < 6
    ensures DarkModules(Symbol(v, bits, mask))[8][i] == FormatBit(mask, i)
  {
    assert FormatIndex(ModuleCount(v), 8, i) == i;
    assert Symbol(v, bits, mask)[8][i] == SymbolAt(v, bits, mask, 8, i);
  }

  /** Unmasking a data module of the symbol gives the bit of its place in the walk. */
  lemma SymbolHolds(v: nat, bits: seq<bool>, mask: nat)
    requires IsVersion(v) && mask < 8
    ensures var g := DarkModules(Symbol(v, bits, mask));
      IsSymbol(g) && Holds(|g|, DataOf(v), Unmasked(g), bits)
  {
    var g := DarkModules(Symbol(v, bits, mask));
    SymbolShape(v, bits, mask);
    forall p: nat, k: nat ensures HoldsAt(|g|, DataOf(v), Unmasked(g), bits, p, k) {
      if WalkStep(|g|, p, k) && MeetsData(|g|, DataOf(v), p, k) {
        SymbolHoldsAt(v, bits, mask, p, k);
      }
    }
  }

  lemma SymbolHoldsAt(v: nat, bits: seq<bool>, mask: nat, p: nat, k: nat)
    requires IsVersion(v) && mask < 8 && WalkStep(ModuleCount(v), p, k) && MeetsData(ModuleCount(v), DataOf(v), p, k)
    ensures var g := DarkModules(Symbol(v, bits, mask)); var n := ModuleCount(v);
      IsSymbol(g) && Unmasked(g)(WalkRow(n, p, k), WalkCol(n, p, k)) == BitFor(bits, Rank(n, DataOf(v), p, k))
  {
    var n := ModuleCount(v);
    var g := DarkModules(Symbol(v, bits, mask));
    SymbolShape(v, bits, mask);
    WalkInverse(n, p, k);
    var r, c := WalkRow(n, p, k), WalkCol(n, p, k);
    if FormatIndex(n, r, c) >= 0 || (r == n - 8 && c == 8) { FormatIsFunction(v, r, c); }
    assert g[r][c] == (Symbol(v, bits, mask)[r][c] == 1);
    assert Symbol(v, bits, mask)[r][c] == SymbolAt(v, bits, mask, r, c);
  }

  /** Reading along the walk gives the bits back that the data modules hold. */
  lemma ReadBitsBack(g: Modules2, bits: seq<bool>, j: nat)
    requires IsSymbol(g) && Holds(|g|, DataOf(VersionOf(g)), Unmasked(g), bits)
    requires |bits| == 8 * CodewordCount(VersionOf(g)) && j < |bits|
    ensures ReadBits(g)[j] == bits[j]
  {
    EnoughModules(VersionOf(g));
    CollectHeld(|g|, DataOf(VersionOf(g)), Unmasked(g), bits, (|g| - 1) / 2, 0, j);
  }

  lemma ByteBack(bits: seq<bool>, t: seq<bool>, out: seq<Byte>, k: nat)
    requires k < |out| && |t| == 8 * |out| <= |bits| && t[8 * k..8 * k + 8] == BitsOf(out[k], 8)
    requires forall j :: 0 <= j < |t| ==> bits[j] == t[j]
    ensures ByteAt(bits, 8 * k) == out[k]
  {
    assert bits[0..|t|] == t;
    ParseByte(bits, out, t, 0, k);
  }

  lemma BytesFromBits(bits: seq<bool>, t: seq<bool>, out: seq<Byte>)
    requires |t| == 8 * |out| <= |bits|
    requires forall k :: 0 <= k < |out| ==> t[8 * k..8 * k + 8] == BitsOf(out[k], 8)
    requires forall j :: 0 <= j < |t| ==> bits[j] == t[j]
    ensures BytesFrom(bits, |out|) == out
  {
    forall k | 0 <= k < |out| ensures BytesFrom(bits, |out|)[k] == out[k] {
      ByteBack(bits, t, out, k);
    }
  }

  lemma ReadCodewordsBack(v: nat, out: seq<Byte>, mask: nat)
    requires IsVersion(v) && mask < 8 && |out| == CodewordCount(v)
    ensures var g := DarkModules(Symbol(v, BytesToBits(out), mask));
      IsSymbol(g) && VersionOf(g) == v && ReadCodewords(g) == out
  {
    var t := BytesToBits(out);
    var g := DarkModules(Symbol(v, t, mask));
    SymbolShape(v, t, mask);
    SymbolHolds(v, t, mask);
    SymbolReadsBack(g, t, out);
  }

  lemma SymbolReadsBack(g: Modules2, t: seq<bool>, out: seq<Byte>)
    requires IsSymbol(g) && Holds(|g|, DataOf(VersionOf(g)), Unmasked(g), t)
    requires t == BytesToBits(out) && |out| == CodewordCount(VersionOf(g))
    ensures ReadCodewords(g) == out
  {
    var bits := ReadBits(g);
    forall j | 0 <= j < |t| ensures bits[j] == t[j] { ReadBitsBack(g, t, j); }
    forall k | 0 <= k < |out| ensures t[8 * k..8 * k + 8] == BitsOf(out[k], 8) { BytesToBitsAt(out, k); }
    BytesFromBits(bits, t, out);
  }

  /** Lines 348 to 351. */
  method ToModules(g: Grid) returns (s: Modules2)
    requires forall r :: 0 <= r < |g| ==> |g[r]| == |g|
    ensures s == DarkModules(g)
  {
    s := [];
    for r := 0 to |g|
      invariant |s| == r && forall i :: 0 <= i < r ==> s[i] == DarkModules(g)[i]
    {
      var row: seq<bool> := [];
      for c := 0 to |g|
        invariant |row| == c && forall j :: 0 <= j < c ==> row[j] == (g[r][j] == 1)
      {
        row := row + [g[r][c] == 1];
      }
      assert row == DarkModules(g)[r];
      s := s + [row];
    }
  }

  /** Lines 322 to 329. */
  method Paint(v: nat, codewords: seq<Byte>) returns (mx: Matrix)
    requires IsVersion(v)
    ensures fresh(mx.m) && fresh(mx.fixed) && mx.Valid() && Painted(mx, v, BytesToBits(codewords))
  {
    mx := new Matrix(ModuleCount(v));
    mx.PlaceFunctions(v);
    forall r | 0 <= r < mx.n ensures !DataOf(v)(r, 6) { TimingColumnIsFunction(v, r); }
    mx.PlaceData(codewords, (r, c) => BaseValue(v, r, c), DataOf(v));
  }

  /** A finished symbol: exactly the modules that the codewords it carries, its version and its
      mask determine, the mask being the first of least penalty. */
  ghost predicate WellFormed(g: Modules2) {
    && IsSymbol(g)
    && var v, bits := VersionOf(g), BytesToBits(ReadCodewords(g));
       && g == DarkModules(Symbol(v, bits, ReadMask(g)))
       && FirstBest(j => if j < 8 then Score(v, bits, j) else 0, 8, ReadMask(g))
       && AllProtected(ReadCodewords(g), v)
  }

  /** Lines 320 to 351. */
  method Draw(v: nat, out: seq<Byte>) returns (g: Modules2)
    requires IsVersion(v) && |out| == CodewordCount(v) && AllProtected(out, v)
    ensures WellFormed(g) && VersionOf(g) == v && ReadCodewords(g) == out
  {
    ghost var bits := BytesToBits(out);
    ghost var sym := (j: nat) => if j < 8 then Symbol(v, bits, j) else [];
    ghost var score := (j: nat) => if j < 8 then Score(v, bits, j) else 0;
    var mx := Paint(v, out);
    var best, mask := ChooseMask(mx, v, bits, sym, score);
    assert best == Symbol(v, bits, mask);
    g := ToModules(best);
    SymbolShape(v, bits, mask);
    ReadCodewordsBack(v, out, mask);
  }

  /** `QrEncoder::encode`: it fails exactly above 213 bytes; otherwise reading the symbol gives
      the text back, in the smallest version that can hold it. */
  method Encode(text: seq<Byte>) returns (r: Option<Modules2>)
    ensures r.None? <==> |text| > 213
    ensures r.Some? ==> WellFormed(r.value) && ReadSymbol(r.value) == Some(text)
    ensures r.Some? ==> Fits(VersionOf(r.value), |text|)
    ensures r.Some? ==> forall u :: IsVersion(u) && u < VersionOf(r.value) ==> !Fits(u, |text|)
  {
    var version := ChooseVersion(|text|);
    if version.None? { return None; }
    var v := version.value;
    var gf := new ReedSolomon.Tables();
    var out := BuildCodewords(gf, text, v);
    var g := Draw(v, out);
    r := Some(g);
  }
}
