/** The module matrix and its painting loops: src/web/QrEncoder.cpp lines 166 to 254. */
module QrMatrix {
  import opened QrStream
  import opened QrLayout
  import opened QrWalk
  import opened QrCapacity

  class Matrix {
    const n: nat
    const m: array2<int>      // -1 unset, 0 light, 1 dark
    const fixed: array2<bool> // function module

    ghost predicate Valid() {
      m.Length0 == m.Length1 == fixed.Length0 == fixed.Length1 == n && m as object != fixed
    }

    ghost predicate Blank()
      requires Valid()
      reads m, fixed
    {
      && (forall r, c :: 0 <= r < n && 0 <= c < n ==> m[r, c] == -1)
      && (forall r, c :: 0 <= r < n && 0 <= c < n ==> !fixed[r, c])
    }

    constructor (size: nat)
      ensures Valid() && n == size && Blank() && fresh(m) && fresh(fixed)
    {
      n := size;
      m := new int[size, size]((r, c) => -1);
      fixed := new bool[size, size]((r, c) => false);
    }

    /** `placeFinder`. */
    method PlaceFinder(r0: int, c0: int)
      requires Valid()
      modifies m, fixed
      ensures forall r, c :: 0 <= r < n && 0 <= c < n ==>
        m[r, c] == if InFinderBox(r0, c0, r, c) then Dark(FinderDark(r - r0, c - c0)) else old(m[r, c])
      ensures forall r, c :: 0 <= r < n && 0 <= c < n ==>
        fixed[r, c] == (InFinderBox(r0, c0, r, c) || old(fixed[r, c]))
    {
      var dr := -1;
      while dr <= 7
        invariant -1 <= dr <= 8
        invariant forall r, c :: 0 <= r < n && 0 <= c < n ==>
          m[r, c] == if InFinderBox(r0, c0, r, c) && r - r0 < dr then Dark(FinderDark(r - r0, c - c0)) else old(m[r, c])
        invariant forall r, c :: 0 <= r < n && 0 <= c < n ==>
          fixed[r, c] == ((InFinderBox(r0, c0, r, c) && r - r0 < dr) || old(fixed[r, c]))
      {
        PlaceFinderRow(r0, c0, dr);
        dr := dr + 1;
      }
    }

    /** Lines 177 to 188. */
    method PlaceFinderRow(r0: int, c0: int, dr: int)
      requires Valid() && -1 <= dr <= 7
      modifies m, fixed
      ensures forall r, c :: 0 <= r < n && 0 <= c < n ==>
        m[r, c] == if InFinderBox(r0, c0, r, c) && r - r0 == dr then Dark(FinderDark(dr, c - c0)) else old(m[r, c])
      ensures forall r, c :: 0 <= r < n && 0 <= c < n ==>
        fixed[r, c] == ((InFinderBox(r0, c0, r, c) && r - r0 == dr) || old(fixed[r, c]))
    {
      var dc := -1;
      while dc <= 7
        invariant -1 <= dc <= 8
        invariant forall r, c :: 0 <= r < n && 0 <= c < n ==>
          m[r, c] == if r - r0 == dr && -1 <= c - c0 < dc then Dark(FinderDark(dr, c - c0)) else old(m[r, c])
        invariant forall r, c :: 0 <= r < n && 0 <= c < n ==>
          fixed[r, c] == ((r - r0 == dr && -1 <= c - c0 < dc) || old(fixed[r, c]))
      {
        var rr, cc := r0 + dr, c0 + dc;
        if 0 <= rr < n && 0 <= cc < n {
          m[rr, cc] := Dark(FinderDark(dr, dc));
          fixed[rr, cc] := true;
        }
        dc := dc + 1;
      }
    }

    /** Lines 203 to 207. */
    method PlaceSpot(r0: nat, c0: nat)
      requires Valid() && 2 <= r0 < n - 2 && 2 <= c0 < n - 2
      modifies m, fixed
      ensures forall r, c :: 0 <= r < n && 0 <= c < n ==>
        m[r, c] == if Near(r, r0) && Near(c, c0) then Dark(AlignDark(r - r0, c - c0)) else old(m[r, c])
      ensures forall r, c :: 0 <= r < n && 0 <= c < n ==>
        fixed[r, c] == ((Near(r, r0) && Near(c, c0)) || old(fixed[r, c]))
    {
      var dr := -2;
      while dr <= 2
        invariant -2 <= dr <= 3
        invariant forall r, c :: 0 <= r < n && 0 <= c < n ==>
          m[r, c] == if -2 <= r - r0 < dr && Near(c, c0) then Dark(AlignDark(r - r0, c - c0)) else old(m[r, c])
        invariant forall r, c :: 0 <= r < n && 0 <= c < n ==>
          fixed[r, c] == ((-2 <= r - r0 < dr && Near(c, c0)) || old(fixed[r, c]))
      {
        PlaceSpotRow(r0, c0, dr);
        dr := dr + 1;
      }
    }

    method PlaceSpotRow(r0: nat, c0: nat, dr: int)
      requires Valid() && 2 <= r0 < n - 2 && 2 <= c0 < n - 2 && -2 <= dr <= 2
      modifies m, fixed
      ensures forall r, c :: 0 <= r < n && 0 <= c < n ==>
        m[r, c] == if r - r0 == dr && Near(c, c0) then Dark(AlignDark(dr, c - c0)) else old(m[r, c])
      ensures forall r, c :: 0 <= r < n && 0 <= c < n ==>
        fixed[r, c] == ((r - r0 == dr && Near(c, c0)) || old(fixed[r, c]))
    {
      var dc := -2;
      while dc <= 2
        invariant -2 <= dc <= 3
        invariant forall r, c :: 0 <= r < n && 0 <= c < n ==>
          m[r, c] == if r - r0 == dr && -2 <= c - c0 < dc then Dark(AlignDark(dr, c - c0)) else old(m[r, c])
        invariant forall r, c :: 0 <= r < n && 0 <= c < n ==>
          fixed[r, c] == ((r - r0 == dr && -2 <= c - c0 < dc) || old(fixed[r, c]))
      {
        m[r0 + dr, c0 + dc] := Dark(AlignDark(dr, dc));
        fixed[r0 + dr, c0 + dc] := true;
        dc := dc + 1;
      }
    }

    /** `placeAlignment`. */
    method PlaceAlignment(v: nat)
      requires Valid() && IsVersion(v) && n == ModuleCount(v)
      modifies m, fixed
      ensures forall r, c :: 0 <= r < n && 0 <= c < n ==>
        m[r, c] == if InAlignment(v, r, c) then AlignValue(v, r, c) else old(m[r, c])
      ensures forall r, c :: 0 <= r < n && 0 <= c < n ==>
        fixed[r, c] == (InAlignment(v, r, c) || old(fixed[r, c]))
    {
      var pos := AlignPos(v);
      var a := 0;
      while a < |pos|
        invariant 0 <= a <= |pos|
        invariant forall r, c :: 0 <= r < n && 0 <= c < n ==>
          m[r, c] == if InAlignment(v, r, c) && NearIndex(v, r) < a then AlignValue(v, r, c) else old(m[r, c])
        invariant forall r, c :: 0 <= r < n && 0 <= c < n ==>
          fixed[r, c] == ((InAlignment(v, r, c) && NearIndex(v, r) < a) || old(fixed[r, c]))
      {
        PlaceAlignmentRow(v, a);
        a := a + 1;
      }
    }

    method PlaceAlignmentRow(v: nat, a: nat)
      requires Valid() && IsVersion(v) && n == ModuleCount(v) && a < |AlignPos(v)|
      modifies m, fixed
      ensures forall r, c :: 0 <= r < n && 0 <= c < n ==>
        m[r, c] == if InAlignment(v, r, c) && NearIndex(v, r) == a then AlignValue(v, r, c) else old(m[r, c])
      ensures forall r, c :: 0 <= r < n && 0 <= c < n ==>
        fixed[r, c] == ((InAlignment(v, r, c) && NearIndex(v, r) == a) || old(fixed[r, c]))
    {
      var pos := AlignPos(v);
      var b := 0;
      while b < |pos|
        invariant 0 <= b <= |pos|
        invariant forall r, c :: 0 <= r < n && 0 <= c < n ==>
          m[r, c] == if InAlignment(v, r, c) && NearIndex(v, r) == a && NearIndex(v, c) < b
                     then AlignValue(v, r, c) else old(m[r, c])
        invariant forall r, c :: 0 <= r < n && 0 <= c < n ==>
          fixed[r, c] == ((InAlignment(v, r, c) && NearIndex(v, r) == a && NearIndex(v, c) < b) || old(fixed[r, c]))
      {
        forall x ensures NearIndex(v, x) == a <==> Near(x, pos[a]) { NearUnique(v, x, a); }
        forall x ensures NearIndex(v, x) == b <==> Near(x, pos[b]) { NearUnique(v, x, b); }
        if !Skipped(n, pos[a], pos[b]) {
          AlignInside(v, a);
          AlignInside(v, b);
          PlaceSpot(pos[a], pos[b]);
        }
        b := b + 1;
      }
    }

    /** `placeTiming`. */
    method PlaceTiming()
      requires Valid() && n >= 21
      modifies m, fixed
      ensures forall r, c :: 0 <= r < n && 0 <= c < n ==>
        m[r, c] == if InTiming(n, r, c) && old(m[r, c]) == -1 then TimingValue(r, c) else old(m[r, c])
      ensures forall r, c :: 0 <= r < n && 0 <= c < n ==>
        fixed[r, c] == ((InTiming(n, r, c) && old(m[r, c]) == -1) || old(fixed[r, c]))
    {
      var i := 8;
      while i < n - 8
        invariant 8 <= i <= n - 8
        invariant forall r, c :: 0 <= r < n && 0 <= c < n ==>
          m[r, c] == if ((r == 6 && 8 <= c < i) || (c == 6 && 8 <= r < i)) && old(m[r, c]) == -1
                     then TimingValue(r, c) else old(m[r, c])
        invariant forall r, c :: 0 <= r < n && 0 <= c < n ==>
          fixed[r, c] == ((((r == 6 && 8 <= c < i) || (c == 6 && 8 <= r < i)) && old(m[r, c]) == -1) || old(fixed[r, c]))
      {
        var v := if i % 2 == 0 then 1 else 0;
        if m[6, i] == -1 { m[6, i] := v; fixed[6, i] := true; }
        if m[i, 6] == -1 { m[i, 6] := v; fixed[i, 6] := true; }
        i := i + 1;
      }
    }

    method ReserveCell(r0: nat, c0: nat)
      requires Valid() && r0 < n && c0 < n
      modifies m, fixed
      ensures forall r, c :: 0 <= r < n && 0 <= c < n ==>
        m[r, c] == if r == r0 && c == c0 && old(m[r, c]) == -1 then 0 else old(m[r, c])
      ensures forall r, c :: 0 <= r < n && 0 <= c < n ==>
        fixed[r, c] == ((r == r0 && c == c0 && old(m[r, c]) == -1) || old(fixed[r, c]))
    {
      if m[r0, c0] == -1 { m[r0, c0] := 0; fixed[r0, c0] := true; }
    }

    /** `reserveFormat`. */
    method ReserveFormat()
      requires Valid() && n >= 21
      modifies m, fixed
      ensures forall r, c :: 0 <= r < n && 0 <= c < n ==>
        m[r, c] == if r == n - 8 && c == 8 then 1
                   else if InFormat(n, r, c) && old(m[r, c]) == -1 then 0 else old(m[r, c])
      ensures forall r, c :: 0 <= r < n && 0 <= c < n ==>
        fixed[r, c] == ((r == n - 8 && c == 8) || (InFormat(n, r, c) && old(m[r, c]) == -1) || old(fixed[r, c]))
    {
      var i := 0;
      while i < 9
        invariant 0 <= i <= 9
        invariant forall r, c :: 0 <= r < n && 0 <= c < n ==>
          m[r, c] == if ((r == 8 && c < i) || (c == 8 && r < i)) && old(m[r, c]) == -1 then 0 else old(m[r, c])
        invariant forall r, c :: 0 <= r < n && 0 <= c < n ==>
          fixed[r, c] == ((((r == 8 && c < i) || (c == 8 && r < i)) && old(m[r, c]) == -1) || old(fixed[r, c]))
      {
        ReserveCell(8, i);
        ReserveCell(i, 8);
        i := i + 1;
      }
      ReserveEdges();
      m[n - 8, 8] := 1;
      fixed[n - 8, 8] := true;
    }

    /** Lines 226 to 229. */
    method ReserveEdges()
      requires Valid() && n >= 21
      modifies m, fixed
      ensures forall r, c :: 0 <= r < n && 0 <= c < n ==>
        m[r, c] == if ((r == 8 && c >= n - 8) || (c == 8 && r >= n - 8)) && old(m[r, c]) == -1 then 0 else old(m[r, c])
      ensures forall r, c :: 0 <= r < n && 0 <= c < n ==>
        fixed[r, c] == ((((r == 8 && c >= n - 8) || (c == 8 && r >= n - 8)) && old(m[r, c]) == -1) || old(fixed[r, c]))
    {
      var i := 0;
      while i < 8
        invariant 0 <= i <= 8
        invariant forall r, c :: 0 <= r < n && 0 <= c < n ==>
          m[r, c] == if ((r == 8 && c >= n - i) || (c == 8 && r >= n - i)) && old(m[r, c]) == -1 then 0 else old(m[r, c])
        invariant forall r, c :: 0 <= r < n && 0 <= c < n ==>
          fixed[r, c] == ((((r == 8 && c >= n - i) || (c == 8 && r >= n - i)) && old(m[r, c]) == -1) || old(fixed[r, c]))
      {
        ReserveCell(8, n - 1 - i);
        ReserveCell(n - 1 - i, 8);
        i := i + 1;
      }
    }

    /** Lines 323 to 328: every function module and nothing else is set. */
    method PlaceFunctions(v: nat)
      requires Valid() && IsVersion(v) && n == ModuleCount(v) && Blank()
      modifies m, fixed
      ensures forall r, c :: 0 <= r < n && 0 <= c < n ==> m[r, c] == BaseValue(v, r, c)
      ensures forall r, c :: 0 <= r < n && 0 <= c < n ==> fixed[r, c] == IsFunction(v, r, c)
    {
      PlaceFinders();
      PlaceAlignment(v);
      forall r, c | 0 <= r < n && 0 <= c < n && InAlignment(v, r, c) ensures !InFinder(n, r, c) {
        AlignAvoidsFinders(v, r, c);
      }
      PlaceTiming();
      ReserveFormat();
    }

    method PlaceFinders()
      requires Valid() && n >= 21 && Blank()
      modifies m, fixed
      ensures forall r, c :: 0 <= r < n && 0 <= c < n ==>
        m[r, c] == if InFinder(n, r, c) then FinderValue(n, r, c) else -1
      ensures forall r, c :: 0 <= r < n && 0 <= c < n ==> fixed[r, c] == InFinder(n, r, c)
    {
      PlaceFinder(0, 0);
      PlaceFinder(0, n - 7);
      PlaceFinder(n - 7, 0);
    }

    /** The matrix when the walk stands before step k of pair p: data modules already met hold
        their bit, everything else is as it was. */
    ghost predicate Walked(base: (int, int) -> int, isData: DataMap, bits: seq<bool>, p: nat, k: nat)
      requires Valid()
      reads m, fixed
    {
      && (forall r, c :: 0 <= r < n && 0 <= c < n ==>
           m[r, c] == if isData(r, c) && Before(PairAt(n, c), StepAt(n, r, c), p, k)
                      then CellBit(n, isData, bits, r, c) else base(r, c))
      && (forall r, c :: 0 <= r < n && 0 <= c < n ==> fixed[r, c] == !isData(r, c))
    }

    /** Lines 245 to 249 at one module. */
    method PlaceBit(row: nat, cc: nat, bits: seq<bool>, bi: nat,
                    ghost base: (int, int) -> int, ghost isData: DataMap, ghost p: nat, ghost k: nat)
      returns (next: nat)
      requires WalkReady(base, isData) && WalkStep(n, p, k)
      requires row == WalkRow(n, p, k) && cc == WalkCol(n, p, k)
      requires Walked(base, isData, bits, p, k) && bi == Filled(n, isData, bits, p, k)
      modifies m, fixed
      ensures Walked(base, isData, bits, p, k + 1) && next == Filled(n, isData, bits, p, k + 1)
    {
      WalkInverse(n, p, k);
      next := bi;
      if m[row, cc] == -1 {
        var b := 0;
        if bi < |bits| { b := Dark(bits[bi]); next := bi + 1; }
        m[row, cc] := b;
        fixed[row, cc] := false;
      }
      forall r, c | 0 <= r < n && 0 <= c < n && isData(r, c) && (r != row || c != cc)
        ensures Before(PairAt(n, c), StepAt(n, r, c), p, k) <==> Before(PairAt(n, c), StepAt(n, r, c), p, k + 1)
      {
        OthersUnmoved(n, p, k, r, c);
      }
    }

    /** What the walk relies on: unset modules are the data modules, none in the timing column. */
    ghost predicate WalkReady(base: (int, int) -> int, isData: DataMap) {
      && Valid() && WalkSize(n)
      && (forall r, c :: 0 <= r < n && 0 <= c < n ==> (isData(r, c) <==> base(r, c) == -1))
      && (forall r :: 0 <= r < n ==> !isData(r, 6))
    }

    /** Lines 242 to 251: one pair of columns. */
    method PlacePair(col: nat, upward: bool, bits: seq<bool>, bi: nat,
                     ghost base: (int, int) -> int, ghost isData: DataMap, ghost p: nat)
      returns (next: nat)
      requires WalkReady(base, isData) && p < (n - 1) / 2 && col == PairCol(n, p) && upward == (p % 2 == 0)
      requires Walked(base, isData, bits, p, 0) && bi == Filled(n, isData, bits, p, 0)
      modifies m, fixed
      ensures Walked(base, isData, bits, p + 1, 0) && next == Filled(n, isData, bits, p + 1, 0)
    {
      next := bi;
      var i := 0;
      while i < n
        invariant 0 <= i <= n
        invariant Walked(base, isData, bits, p, 2 * i) && next == Filled(n, isData, bits, p, 2 * i)
      {
        var row := if upward then n - 1 - i else i;
        next := PlaceBit(row, col, bits, next, base, isData, p, 2 * i);
        next := PlaceBit(row, col - 1, bits, next, base, isData, p, 2 * i + 1);
        i := i + 1;
      }
      forall r, c | 0 <= r < n && 0 <= c < n && isData(r, c)
        ensures Before(PairAt(n, c), StepAt(n, r, c), p, 2 * n) <==> Before(PairAt(n, c), StepAt(n, r, c), p + 1, 0)
      {
        WalkMeets(n, r, c);
      }
    }

    /** `placeData`: every data module holds the bit of its number in walk order, and no other
        module changes. */
    method PlaceData(codewords: seq<Byte>, ghost base: (int, int) -> int, ghost isData: DataMap)
      requires WalkReady(base, isData)
      requires forall r, c :: 0 <= r < n && 0 <= c < n ==> m[r, c] == base(r, c) && fixed[r, c] == !isData(r, c)
      modifies m, fixed
      ensures forall r, c :: 0 <= r < n && 0 <= c < n ==>
        m[r, c] == if isData(r, c) then CellBit(n, isData, BytesToBits(codewords), r, c) else base(r, c)
      ensures forall r, c :: 0 <= r < n && 0 <= c < n ==> fixed[r, c] == !isData(r, c)
    {
      var bits := UnpackBytes(codewords);
      var bi, upward, col := 0, true, n - 1;
      ghost var p := 0;
      forall r, c | 0 <= r < n && 0 <= c < n && isData(r, c)
        ensures !Before(PairAt(n, c), StepAt(n, r, c), 0, 0) && Before(PairAt(n, c), StepAt(n, r, c), (n - 1) / 2, 0)
      {
        WalkMeets(n, r, c);
      }
      while col > 0
        invariant 0 <= p <= (n - 1) / 2 && upward == (p % 2 == 0)
        invariant col == (if n - 1 - 2 * p >= 6 then n - 1 - 2 * p else n - 2 - 2 * p)
        invariant Walked(base, isData, bits, p, 0) && bi == Filled(n, isData, bits, p, 0)
        decreases col
      {
        if col == 6 { col := 5; }
        bi := PlacePair(col, upward, bits, bi, base, isData, p);
        upward := !upward;
        col := col - 2;
        p := p + 1;
      }
    }
  }

  /** Lines 235 to 237. */
  method UnpackBytes(codewords: seq<Byte>) returns (bits: seq<bool>)
    ensures bits == BytesToBits(codewords)
  {
    bits := [];
    var i := 0;
    while i < |codewords|
      invariant 0 <= i <= |codewords| && bits == BytesToBits(codewords[..i])
    {
      bits := Put(bits, codewords[i], 8);
      assert codewords[..i + 1][..i] == codewords[..i];
      i := i + 1;
    }
    assert codewords[..i] == codewords;
  }

  /** One step of the walk passes one module. */
  lemma OthersUnmoved(n: nat, p: nat, k: nat, r: nat, c: nat)
    requires WalkSize(n) && WalkStep(n, p, k) && r < n && c < n && c != 6
    requires r != WalkRow(n, p, k) || c != WalkCol(n, p, k)
    ensures Before(PairAt(n, c), StepAt(n, r, c), p, k) <==> Before(PairAt(n, c), StepAt(n, r, c), p, k + 1)
  {
    WalkMeets(n, r, c);
  }

  /** The bit whose number is the module's place in the walk. */
  ghost function CellBit(n: nat, isData: DataMap, bits: seq<bool>, r: nat, c: nat): int {
    var p, k := PairAt(n, c), StepAt(n, r, c);
    if p >= 0 && k >= 0 then Dark(BitFor(bits, Rank(n, isData, p, k))) else 0
  }

  /** Bits used up before step k of pair p. */
  ghost function Filled(n: nat, isData: DataMap, bits: seq<bool>, p: nat, k: nat): nat {
    if Rank(n, isData, p, k) < |bits| then Rank(n, isData, p, k) else |bits|
  }

  lemma AlignInside(v: nat, a: nat)
    requires IsVersion(v) && a < |AlignPos(v)|
    ensures 2 <= AlignPos(v)[a] < ModuleCount(v) - 2
  {
  }

  lemma AlignAvoidsFinders(v: nat, r: int, c: int)
    requires IsVersion(v) && InAlignment(v, r, c)
    ensures !InFinder(ModuleCount(v), r, c)
    ensures !(r == ModuleCount(v) - 8 && c == 8)
  {
  }
}
