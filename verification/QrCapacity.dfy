/** Every version has room for its codewords: the function patterns, counted with overlaps, leave
    at least eight modules per codeword. */
module QrCapacity {
  import opened QrStream
  import opened QrBlocks
  import opened QrLayout
  import opened QrWalk

  type Modules = set<(nat, nat)>

  function DataOf(v: nat): DataMap
    requires IsVersion(v)
  {
    (r, c) => !IsFunction(v, r, c)
  }

  ghost function Spot(a: nat, b: nat): Modules
    requires a >= 2 && b >= 2
  {
    Rect(a - 2, a + 3, b - 2, b + 3)
  }

  ghost function FinderModules(n: nat): Modules
    requires n >= 21
  {
    Rect(0, 8, 0, 8) + Rect(0, 8, n - 8, n) + Rect(n - 8, n, 0, 8)
  }

  ghost function TimingModules(n: nat): Modules
    requires n >= 21
  {
    Rect(6, 7, 8, n - 8) + Rect(8, n - 8, 6, 7)
  }

  ghost function FormatModules(n: nat): Modules
    requires n >= 21
  {
    Rect(8, 9, 0, 6) + Rect(8, 9, 7, 9) + Rect(0, 6, 8, 9) + Rect(7, 8, 8, 9) +
    Rect(8, 9, n - 8, n) + Rect(n - 8, n, 8, 9)
  }

  ghost function AlignModules(v: nat): Modules
    requires IsVersion(v)
  {
    var p := AlignPos(v);
    if v == 1 then {}
    else if v <= 6 then Spot(p[1], p[1])
    else Spot(6, p[1]) + Spot(p[1], 6) + Spot(p[1], p[1]) + Spot(p[1], p[2]) + Spot(p[2], p[1]) + Spot(p[2], p[2])
  }

  lemma SpotSize(a: nat, b: nat)
    requires a >= 2 && b >= 2
    ensures |Spot(a, b)| == 25
  {
    RectSize(a - 2, 5, b - 2, 5);
  }

  lemma FinderSize(n: nat)
    requires n >= 21
    ensures |FinderModules(n)| <= 192
  {
    RectSize(0, 8, 0, 8);
    RectSize(0, 8, n - 8, 8);
    RectSize(n - 8, 8, 0, 8);
    UnionSize(Rect(0, 8, 0, 8), Rect(0, 8, n - 8, n));
    UnionSize(Rect(0, 8, 0, 8) + Rect(0, 8, n - 8, n), Rect(n - 8, n, 0, 8));
  }

  lemma TimingSize(n: nat)
    requires n >= 21
    ensures |TimingModules(n)| <= 2 * (n - 16)
  {
    RectSize(6, 1, 8, n - 16);
    RectSize(8, n - 16, 6, 1);
    UnionSize(Rect(6, 7, 8, n - 8), Rect(8, n - 8, 6, 7));
  }

  lemma FormatSize(n: nat)
    requires n >= 21
    ensures |FormatModules(n)| <= 31
  {
    var a, b, c := Rect(8, 9, 0, 6), Rect(8, 9, 7, 9), Rect(0, 6, 8, 9);
    var d, e, f := Rect(7, 8, 8, 9), Rect(8, 9, n - 8, n), Rect(n - 8, n, 8, 9);
    assert |a| == 6 by { RectSize(8, 1, 0, 6); }
    assert |b| == 2 by { RectSize(8, 1, 7, 2); }
    assert |c| == 6 by { RectSize(0, 6, 8, 1); }
    assert |d| == 1 by { RectSize(7, 1, 8, 1); }
    assert |e| == 8 by { RectSize(8, 1, n - 8, 8); }
    assert |f| == 8 by { RectSize(n - 8, 8, 8, 1); }
    UnionOfSix(a, b, c, d, e, f);
  }

  lemma UnionOfSix(a: Modules, b: Modules, c: Modules, d: Modules, e: Modules, f: Modules)
    ensures |a + b + c + d + e + f| <= |a| + |b| + |c| + |d| + |e| + |f|
  {
    UnionSize(a, b);
    UnionSize(a + b, c);
    UnionSize(a + b + c, d);
    UnionSize(a + b + c + d, e);
    UnionSize(a + b + c + d + e, f);
  }

  lemma AlignSize(v: nat)
    requires IsVersion(v)
    ensures |AlignModules(v)| <= (if v == 1 then 0 else if v <= 6 then 25 else 150)
  {
    var p := AlignPos(v);
    if 2 <= v <= 6 {
      SpotSize(p[1], p[1]);
    } else if v >= 7 {
      var a, b, c := Spot(6, p[1]), Spot(p[1], 6), Spot(p[1], p[1]);
      var d, e, f := Spot(p[1], p[2]), Spot(p[2], p[1]), Spot(p[2], p[2]);
      SpotSize(6, p[1]);
      SpotSize(p[1], 6);
      SpotSize(p[1], p[1]);
      SpotSize(p[1], p[2]);
      SpotSize(p[2], p[1]);
      SpotSize(p[2], p[2]);
      UnionOfSix(a, b, c, d, e, f);
    }
  }

  lemma AlignCovered(v: nat, r: nat, c: nat)
    requires IsVersion(v) && InAlignment(v, r, c)
    ensures (r, c) in AlignModules(v)
  {
    var p := AlignPos(v);
    var a, b := NearIndex(v, r), NearIndex(v, c);
    assert Near(r, p[a]) && Near(c, p[b]);
    assert (r, c) in Spot(p[a], p[b]);
  }

  lemma Covered(v: nat, r: nat, c: nat)
    requires IsVersion(v) && r < ModuleCount(v) && c < ModuleCount(v) && IsFunction(v, r, c)
    ensures var n := ModuleCount(v);
      (r, c) in FinderModules(n) + TimingModules(n) + FormatModules(n) + AlignModules(v)
  {
    if InAlignment(v, r, c) { AlignCovered(v, r, c); }
  }

  ghost function FunctionModules(v: nat): Modules
    requires IsVersion(v)
  {
    var n := ModuleCount(v);
    FinderModules(n) + TimingModules(n) + FormatModules(n) + AlignModules(v)
  }

  lemma FunctionSize(v: nat)
    requires IsVersion(v)
    ensures |FunctionModules(v)| <= 223 + 2 * (ModuleCount(v) - 16) + (if v == 1 then 0 else if v <= 6 then 25 else 150)
  {
    var n := ModuleCount(v);
    FinderSize(n);
    TimingSize(n);
    FormatSize(n);
    AlignSize(v);
    var a, b, c, d := FinderModules(n), TimingModules(n), FormatModules(n), AlignModules(v);
    UnionSize(a, b);
    UnionSize(a + b, c);
    UnionSize(a + b + c, d);
  }

  lemma RestSize(v: nat)
    requires IsVersion(v)
    ensures |Rest(ModuleCount(v), DataOf(v))| <= |FunctionModules(v)|
  {
    var n := ModuleCount(v);
    var rest := Rest(n, DataOf(v));
    forall x | x in rest ensures x in FunctionModules(v) {
      if x.1 == 6 { TimingColumnIsFunction(v, x.0); }
      Covered(v, x.0, x.1);
    }
    SubsetSize(rest, FunctionModules(v));
  }

  lemma SubsetSize(a: Modules, b: Modules)
    requires a <= b
    ensures |a| <= |b|
  {
    assert b == a + (b - a);
  }

  /** Every codeword bit is placed. */
  lemma EnoughModules(v: nat)
    requires IsVersion(v)
    ensures Capacity(ModuleCount(v), DataOf(v)) >= 8 * CodewordCount(v)
  {
    var n := ModuleCount(v);
    CapacityIsComplement(n, DataOf(v));
    RestSize(v);
    FunctionSize(v);
    Squares(v);
  }

  lemma Squares(v: nat)
    requires IsVersion(v)
    ensures var n := ModuleCount(v);
      n * n >= 8 * CodewordCount(v) + 223 + 2 * (n - 16) + (if v == 1 then 0 else if v <= 6 then 25 else 150)
  {
  }
}
