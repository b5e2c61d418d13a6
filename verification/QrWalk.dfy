/** Counting along the zig-zag walk, for any choice of data modules. */
module QrWalk {
  import opened QrLayout

  /** Which modules carry data. */
  type DataMap = (int, int) -> bool

  ghost predicate WalkSize(n: nat) {
    n >= 9 && n % 2 == 1
  }

  predicate MeetsData(n: nat, isData: DataMap, p: nat, k: nat) {
    isData(WalkRow(n, p, k), WalkCol(n, p, k))
  }

  /** The number of data modules met before step k of pair p. */
  function Rank(n: nat, isData: DataMap, p: nat, k: nat): nat
    decreases p, k
  {
    if k > 0 then Rank(n, isData, p, k - 1) + (if MeetsData(n, isData, p, k - 1) then 1 else 0)
    else if p > 0 then Rank(n, isData, p - 1, 2 * n)
    else 0
  }

  predicate Before(p: int, k: int, q: int, l: int) {
    p < q || (p == q && k < l)
  }

  /** Capacity: the data modules the whole walk meets. */
  function Capacity(n: nat, isData: DataMap): nat
    requires n >= 1
  {
    Rank(n, isData, (n - 1) / 2, 0)
  }

  lemma {:induction false} RankMonotone(n: nat, isData: DataMap, p: nat, k: nat, q: nat, l: nat)
    requires k <= 2 * n && l <= 2 * n && ((p == q && k <= l) || p < q)
    ensures Rank(n, isData, p, k) <= Rank(n, isData, q, l)
    decreases q, l
  {
    if p == q && k == l {
    } else if l > 0 {
      RankMonotone(n, isData, p, k, q, l - 1);
    } else {
      RankMonotone(n, isData, p, k, q - 1, 2 * n);
    }
  }

  // ---------------------------------------------------------- reading along the walk

  /** The values of the data modules met before step k of pair p. */
  function Collect(n: nat, isData: DataMap, value: (int, int) -> bool, p: nat, k: nat): (r: seq<bool>)
    ensures |r| == Rank(n, isData, p, k)
    decreases p, k
  {
    if k > 0 then
      var s := Collect(n, isData, value, p, k - 1);
      if MeetsData(n, isData, p, k - 1) then s + [value(WalkRow(n, p, k - 1), WalkCol(n, p, k - 1))] else s
    else if p > 0 then Collect(n, isData, value, p - 1, 2 * n)
    else []
  }

  function BitFor(bits: seq<bool>, j: nat): bool {
    j < |bits| && bits[j]
  }

  /** Every data module holds the bit of its number in walk order. */
  ghost predicate HoldsAt(n: nat, isData: DataMap, value: (int, int) -> bool, bits: seq<bool>, p: nat, k: nat) {
    WalkStep(n, p, k) && MeetsData(n, isData, p, k) ==>
      value(WalkRow(n, p, k), WalkCol(n, p, k)) == BitFor(bits, Rank(n, isData, p, k))
  }

  ghost predicate Holds(n: nat, isData: DataMap, value: (int, int) -> bool, bits: seq<bool>) {
    forall p, k :: HoldsAt(n, isData, value, bits, p, k)
  }

  lemma {:induction false} CollectHeld(n: nat, isData: DataMap, value: (int, int) -> bool, bits: seq<bool>,
                                       p: nat, k: nat, j: nat)
    requires Holds(n, isData, value, bits)
    requires p <= (n - 1) / 2 && k <= 2 * n && (p == (n - 1) / 2 ==> k == 0)
    requires j < Rank(n, isData, p, k)
    ensures Collect(n, isData, value, p, k)[j] == BitFor(bits, j)
    decreases p, k
  {
    if k > 0 {
      assert HoldsAt(n, isData, value, bits, p, k - 1);
      if j < Rank(n, isData, p, k - 1) {
        CollectHeld(n, isData, value, bits, p, k - 1, j);
      }
    } else if p > 0 {
      CollectHeld(n, isData, value, bits, p - 1, 2 * n, j);
    }
  }

  // ------------------------------------------------------------- counting modules

  ghost function Rect(r0: nat, r1: nat, c0: nat, c1: nat): set<(nat, nat)> {
    set r: nat, c: nat | r0 <= r < r1 && c0 <= c < c1 :: (r, c)
  }

  lemma {:induction false} RowSize(r: nat, c0: nat, c1: nat)
    requires c0 <= c1
    ensures |Rect(r, r + 1, c0, c1)| == c1 - c0
  {
    if c0 == c1 {
      assert Rect(r, r + 1, c0, c1) == {};
    } else {
      RowSize(r, c0, c1 - 1);
      assert Rect(r, r + 1, c0, c1) == Rect(r, r + 1, c0, c1 - 1) + {(r, c1 - 1)};
    }
  }

  lemma RectGrows(r0: nat, h: nat, c0: nat, c1: nat)
    requires c0 <= c1
    ensures |Rect(r0, r0 + h + 1, c0, c1)| == |Rect(r0, r0 + h, c0, c1)| + (c1 - c0)
  {
    RowSize(r0 + h, c0, c1);
    var a, b := Rect(r0, r0 + h, c0, c1), Rect(r0 + h, r0 + h + 1, c0, c1);
    assert a !! b;
    assert Rect(r0, r0 + h + 1, c0, c1) == a + b;
  }

  lemma {:induction false} RectSize(r0: nat, h: nat, c0: nat, w: nat)
    ensures |Rect(r0, r0 + h, c0, c0 + w)| == h * w
  {
    if h == 0 {
      assert Rect(r0, r0 + h, c0, c0 + w) == {};
    } else {
      RectSize(r0, h - 1, c0, w);
      RectGrows(r0, h - 1, c0, c0 + w);
      MulStep(h, w);
    }
  }

  lemma MulStep(h: nat, w: nat)
    requires h >= 1
    ensures (h - 1) * w + w == h * w
  {
  }

  /** Data modules met before step k of pair p. */
  ghost function Met(n: nat, isData: DataMap, p: nat, k: nat): set<(nat, nat)> {
    set r: nat, c: nat |
      r < n && c < n && c != 6 && isData(r, c) && Before(PairAt(n, c), StepAt(n, r, c), p, k) :: (r, c)
  }

  /** The walk meets distinct modules, so rank counts a set. */
  lemma {:induction false} RankCounts(n: nat, isData: DataMap, p: nat, k: nat)
    requires WalkSize(n) && p <= (n - 1) / 2 && k <= 2 * n && (p == (n - 1) / 2 ==> k == 0)
    ensures |Met(n, isData, p, k)| == Rank(n, isData, p, k)
    decreases p, k
  {
    if k > 0 {
      RankCounts(n, isData, p, k - 1);
      MetStep(n, isData, p, k - 1);
    } else if p > 0 {
      RankCounts(n, isData, p - 1, 2 * n);
      assert Met(n, isData, p, 0) == Met(n, isData, p - 1, 2 * n) by { MetPair(n, isData, p); }
    } else {
      forall r: nat, c: nat | r < n && c < n && c != 6 ensures !Before(PairAt(n, c), StepAt(n, r, c), 0, 0) {
        WalkMeets(n, r, c);
      }
      assert Met(n, isData, 0, 0) == {};
    }
  }

  lemma MetStep(n: nat, isData: DataMap, p: nat, k: nat)
    requires WalkSize(n) && WalkStep(n, p, k)
    ensures |Met(n, isData, p, k + 1)| == |Met(n, isData, p, k)| + (if MeetsData(n, isData, p, k) then 1 else 0)
  {
    var r, c := WalkRow(n, p, k), WalkCol(n, p, k);
    WalkInverse(n, p, k);
    var a, b := Met(n, isData, p, k), Met(n, isData, p, k + 1);
    assert (r, c) !in a;
    forall x: nat, y: nat | (x, y) in b ensures (x, y) in a || (x, y) == (r as nat, c as nat) {
      WalkMeets(n, x, y);
    }
    if isData(r, c) {
      assert b == a + {(r as nat, c as nat)};
    } else {
      assert b == a;
    }
  }

  lemma MetPair(n: nat, isData: DataMap, p: nat)
    requires WalkSize(n) && 1 <= p
    ensures Met(n, isData, p, 0) == Met(n, isData, p - 1, 2 * n)
  {
    forall r: nat, c: nat | r < n && c < n && c != 6
      ensures Before(PairAt(n, c), StepAt(n, r, c), p, 0) <==> Before(PairAt(n, c), StepAt(n, r, c), p - 1, 2 * n)
    {
      WalkMeets(n, r, c);
    }
  }

  ghost function DataModules(n: nat, isData: DataMap): set<(nat, nat)> {
    set r: nat, c: nat | r < n && c < n && c != 6 && isData(r, c) :: (r, c)
  }

  /** Everything the walk does not meet, or meets as a function module. */
  ghost function Rest(n: nat, isData: DataMap): set<(nat, nat)> {
    set r: nat, c: nat | r < n && c < n && !(c != 6 && isData(r, c)) :: (r, c)
  }

  lemma AllMet(n: nat, isData: DataMap)
    requires WalkSize(n)
    ensures Met(n, isData, (n - 1) / 2, 0) == DataModules(n, isData)
  {
    forall r: nat, c: nat | r < n && c < n && c != 6
      ensures Before(PairAt(n, c), StepAt(n, r, c), (n - 1) / 2, 0)
    {
      WalkMeets(n, r, c);
    }
  }

  lemma CapacityCounts(n: nat, isData: DataMap)
    requires WalkSize(n)
    ensures |DataModules(n, isData)| == Capacity(n, isData)
  {
    RankCounts(n, isData, (n - 1) / 2, 0);
    AllMet(n, isData);
  }

  lemma Partition(n: nat, isData: DataMap)
    ensures |DataModules(n, isData)| + |Rest(n, isData)| == |Rect(0, n, 0, n)|
  {
    var a, b := DataModules(n, isData), Rest(n, isData);
    assert a !! b;
    assert a + b == Rect(0, n, 0, n);
  }

  lemma SquareSize(n: nat)
    ensures |Rect(0, n, 0, n)| == n * n
  {
    RectSize(0, n, 0, n);
  }

  /** Capacity is what the function modules leave of the n by n square. */
  lemma CapacityIsComplement(n: nat, isData: DataMap)
    requires WalkSize(n)
    ensures Capacity(n, isData) + |Rest(n, isData)| == n * n
  {
    CapacityCounts(n, isData);
    Partition(n, isData);
    SquareSize(n);
  }

  lemma UnionSize(a: set<(nat, nat)>, b: set<(nat, nat)>)
    ensures |a + b| <= |a| + |b|
    ensures a !! b ==> |a + b| == |a| + |b|
  {
  }
}
