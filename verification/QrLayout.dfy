/** Where the modules of a symbol are: function patterns, the zig-zag walk and its capacity.
    src/web/QrEncoder.cpp lines 165 to 254. */
module QrLayout {
  import opened QrStream

  // ------------------------------------------------------------- function patterns

  /** `kAlignPos`. */
  function AlignPos(v: nat): (p: seq<nat>)
    requires IsVersion(v)
    ensures |p| == (if v == 1 then 0 else if v <= 6 then 2 else 3)
  {
    match v
    case 1 => []
    case 2 => [6, 18]
    case 3 => [6, 22]
    case 4 => [6, 26]
    case 5 => [6, 30]
    case 6 => [6, 34]
    case 7 => [6, 22, 38]
    case 8 => [6, 24, 42]
    case 9 => [6, 26, 46]
    case _ => [6, 28, 50]
  }

  predicate InFinderBox(r0: int, c0: int, r: int, c: int) {
    -1 <= r - r0 <= 7 && -1 <= c - c0 <= 7
  }

  /** The 7 by 7 finder with its light separator. */
  predicate FinderDark(dr: int, dc: int) {
    && 0 <= dr <= 6 && 0 <= dc <= 6
    && (dr == 0 || dr == 6 || dc == 0 || dc == 6 || (2 <= dr <= 4 && 2 <= dc <= 4))
  }

  predicate AlignDark(dr: int, dc: int) {
    dr == -2 || dr == 2 || dc == -2 || dc == 2 || (dr == 0 && dc == 0)
  }

  /** Line 202: alignment patterns that would touch a finder are not drawn. */
  predicate Skipped(n: nat, r: nat, c: nat) {
    (r <= 8 && c <= 8) || (r <= 8 && c >= n - 9) || (r >= n - 9 && c <= 8)
  }

  predicate Near(x: int, center: nat) {
    -2 <= x - center <= 2
  }

  /** The alignment coordinate within two modules of x, as an index, or -1. */
  function NearIndex(v: nat, x: int): (i: int)
    requires IsVersion(v)
    ensures -1 <= i < |AlignPos(v)|
  {
    var p := AlignPos(v);
    if v >= 2 && Near(x, p[0]) then 0
    else if v >= 2 && Near(x, p[1]) then 1
    else if v >= 7 && Near(x, p[2]) then 2
    else -1
  }

  lemma NearUnique(v: nat, x: int, i: nat)
    requires IsVersion(v) && i < |AlignPos(v)|
    ensures NearIndex(v, x) == i <==> Near(x, AlignPos(v)[i])
  {
  }

  /** Row and column coordinates of alignment pattern (a, b), when it is drawn. */
  predicate InAlignment(v: nat, r: int, c: int)
    requires IsVersion(v)
  {
    var a, b := NearIndex(v, r), NearIndex(v, c);
    a >= 0 && b >= 0 && !Skipped(ModuleCount(v), AlignPos(v)[a], AlignPos(v)[b])
  }

  function Dark(d: bool): int {
    if d then 1 else 0
  }

  function AlignValue(v: nat, r: int, c: int): int
    requires IsVersion(v) && InAlignment(v, r, c)
  {
    Dark(AlignDark(r - AlignPos(v)[NearIndex(v, r)], c - AlignPos(v)[NearIndex(v, c)]))
  }

  predicate InTiming(n: nat, r: int, c: int) {
    (r == 6 && 8 <= c < n - 8) || (c == 6 && 8 <= r < n - 8)
  }

  function TimingValue(r: int, c: int): int {
    if r == 6 then Dark(c % 2 == 0) else Dark(r % 2 == 0)
  }

  predicate InFormat(n: nat, r: int, c: int) {
    (r == 8 && (0 <= c <= 8 || n - 8 <= c < n)) || (c == 8 && (0 <= r <= 8 || n - 8 <= r < n))
  }

  function FinderValue(n: nat, r: int, c: int): int {
    if InFinderBox(0, 0, r, c) then Dark(FinderDark(r, c))
    else if InFinderBox(0, n - 7, r, c) then Dark(FinderDark(r, c - (n - 7)))
    else Dark(FinderDark(r - (n - 7), c))
  }

  predicate InFinder(n: nat, r: int, c: int) {
    InFinderBox(0, 0, r, c) || InFinderBox(0, n - 7, r, c) || InFinderBox(n - 7, 0, r, c)
  }

  /** The matrix before data: -1 for data modules, and the reserved format cells still 0. */
  function BaseValue(v: nat, r: int, c: int): int
    requires IsVersion(v)
  {
    var n := ModuleCount(v);
    if r == n - 8 && c == 8 then 1
    else if InFinder(n, r, c) then FinderValue(n, r, c)
    else if InAlignment(v, r, c) then AlignValue(v, r, c)
    else if InTiming(n, r, c) then TimingValue(r, c)
    else if InFormat(n, r, c) then 0
    else -1
  }

  predicate IsFunction(v: nat, r: int, c: int)
    requires IsVersion(v)
  {
    BaseValue(v, r, c) != -1
  }

  lemma TimingColumnIsFunction(v: nat, r: nat)
    requires IsVersion(v) && r < ModuleCount(v)
    ensures IsFunction(v, r, 6)
  {
  }

  // ------------------------------------------------------------------- the zig-zag

  /** Right column of pair p, the timing column being skipped. */
  function PairCol(n: nat, p: nat): int {
    if n - 1 - 2 * p > 6 then n - 1 - 2 * p else n - 2 - 2 * p
  }

  function WalkRow(n: nat, p: nat, k: nat): int {
    if p % 2 == 0 then n - 1 - k / 2 else k / 2
  }

  function WalkCol(n: nat, p: nat, k: nat): int {
    PairCol(n, p) - k % 2
  }

  /** The pair and the step within it at which the walk meets a module. */
  function PairAt(n: nat, c: nat): int {
    (n - 1 - (if c > 6 then c else c + 1)) / 2
  }

  function StepAt(n: nat, r: nat, c: nat): int {
    2 * (if PairAt(n, c) % 2 == 0 then n - 1 - r else r) + (n - 1 - (if c > 6 then c else c + 1)) % 2
  }

  predicate WalkStep(n: nat, p: int, k: int) {
    0 <= p < (n - 1) / 2 && 0 <= k < 2 * n
  }

  /** The walk meets every module outside the timing column at exactly one step ... */
  lemma WalkMeets(n: nat, r: nat, c: nat)
    requires n >= 9 && n % 2 == 1 && r < n && c < n && c != 6
    ensures WalkStep(n, PairAt(n, c), StepAt(n, r, c))
    ensures WalkRow(n, PairAt(n, c), StepAt(n, r, c)) == r
    ensures WalkCol(n, PairAt(n, c), StepAt(n, r, c)) == c
  {
  }

  /** ... and every step meets such a module. */
  lemma WalkInverse(n: nat, p: nat, k: nat)
    requires n >= 9 && n % 2 == 1 && WalkStep(n, p, k)
    ensures 0 <= WalkRow(n, p, k) < n && 0 <= WalkCol(n, p, k) < n && WalkCol(n, p, k) != 6
    ensures PairAt(n, WalkCol(n, p, k)) == p
    ensures StepAt(n, WalkRow(n, p, k), WalkCol(n, p, k)) == k
  {
    var c := WalkCol(n, p, k);
    var x := n - 1 - (if c > 6 then c else c + 1);
    assert x == 2 * p + k % 2;
  }
}
