/** Version texts and std::string's operator<, which the updater compares them with
    (src/updater/UpdateManager.cpp line 61). */
module Versions {
  import opened Decimals

  /** Character by character, a proper prefix first. */
  predicate Less(a: string, b: string) {
    if b == "" then false
    else if a == "" then true
    else a[0] < b[0] || (a[0] == b[0] && Less(a[1..], b[1..]))
  }

  /** Text order is total: of two strings exactly one is less, or they are equal. */
  lemma {:induction false} LessIsTotal(a: string, b: string)
    ensures Less(a, b) ==> a != b && !Less(b, a)
    ensures Less(a, b) || a == b || Less(b, a)
    decreases |a|
  {
    if a != "" && b != "" {
      LessIsTotal(a[1..], b[1..]);
      assert a == [a[0]] + a[1..] && b == [b[0]] + b[1..];
    }
  }

  lemma {:induction false} LessIsTransitive(a: string, b: string, c: string)
    requires Less(a, b) && Less(b, c)
    ensures Less(a, c)
    decreases |a|
  {
    if a != "" && a[0] == b[0] == c[0] {
      LessIsTransitive(a[1..], b[1..], c[1..]);
    }
  }

  /** A common beginning does not matter. */
  lemma {:induction false} LessAfterPrefix(p: string, a: string, b: string)
    ensures Less(p + a, p + b) <==> Less(a, b)
  {
    if p == "" {
      assert p + a == a && p + b == b;
    } else {
      assert (p + a)[1..] == p[1..] + a && (p + b)[1..] == p[1..] + b;
      LessAfterPrefix(p[1..], a, b);
    }
  }

  /** Two different words of one length are ordered by themselves, whatever follows. */
  lemma {:induction false} LessBeforeRest(a: string, x: string, b: string, y: string)
    requires |a| == |b| && a != b
    ensures Less(a + x, b + y) <==> Less(a, b)
  {
    assert (a + x)[0] == a[0] && (b + y)[0] == b[0];
    if a[0] == b[0] {
      assert a == [a[0]] + a[1..] && b == [b[0]] + b[1..];
      assert (a + x)[1..] == a[1..] + x && (b + y)[1..] == b[1..] + y;
      LessBeforeRest(a[1..], x, b[1..], y);
    }
  }

  // ------------------------------------------------------------- decimal texts

  predicate IsDigits(s: string) {
    forall i :: 0 <= i < |s| ==> '0' <= s[i] <= '9'
  }

  lemma {:induction false} DigitsAreDigits(n: nat)
    ensures IsDigits(Digits(n))
  {
    if n >= 10 {
      DigitsAreDigits(n / 10);
    }
  }

  /** A shorter text is a smaller number, and texts of one length are ordered as their numbers. */
  lemma {:induction false} DigitsOrder(m: nat, n: nat)
    ensures |Digits(m)| < |Digits(n)| ==> m < n
    ensures |Digits(m)| == |Digits(n)| ==> (Less(Digits(m), Digits(n)) <==> m < n)
  {
    if m >= 10 && n >= 10 {
      DigitsOrder(m / 10, n / 10);
      if |Digits(m)| == |Digits(n)| {
        LastDigit(Digits(m / 10), m % 10, Digits(n / 10), n % 10);
        if Digits(m / 10) == Digits(n / 10) {
          DigitsInjective(m / 10, n / 10);
        }
      }
    } else if m < 10 && n < 10 {
      assert Digits(m) == [Digit(m)] && Digits(n) == [Digit(n)];
      assert Digits(m)[1..] == "" && Digits(n)[1..] == "";
    }
  }

  lemma LastDigit(a: string, c: nat, b: string, d: nat)
    requires |a| == |b| && c < 10 && d < 10
    ensures Less(a + [Digit(c)], b + [Digit(d)]) <==> Less(a, b) || (a == b && c < d)
  {
    if a == b {
      LessAfterPrefix(a, [Digit(c)], [Digit(d)]);
      LessIsTotal(a, a);
      assert [Digit(c)][1..] == "" && [Digit(d)][1..] == "";
    } else {
      LessBeforeRest(a, [Digit(c)], b, [Digit(d)]);
    }
  }

  // ------------------------------------------------------------- dotted versions

  function Dotted(v: seq<nat>): string
    requires v != []
  {
    if |v| == 1 then Digits(v[0]) else Digits(v[0]) + ("." + Dotted(v[1..]))
  }

  /** What follows the first component. */
  function AfterFirst(v: seq<nat>): (s: string)
    requires v != []
    ensures s == "" || s[0] == '.'
    ensures Dotted(v) == Digits(v[0]) + s
  {
    if |v| == 1 then assert Digits(v[0]) + "" == Digits(v[0]); "" else "." + Dotted(v[1..])
  }

  lemma DottedPair(a: nat, b: nat)
    ensures Dotted([a, b]) == Digits(a) + ("." + Digits(b))
  {
    assert [a, b][1..] == [b];
  }

  /** Component by component, a proper beginning first. */
  predicate Older(v: seq<nat>, w: seq<nat>) {
    if w == [] then false
    else if v == [] then true
    else v[0] < w[0] || (v[0] == w[0] && Older(v[1..], w[1..]))
  }

  /** Two components are ordered alike as text and as number: their texts are as long as each other,
      or the shorter does not exceed the beginning of the longer. */
  predicate OrderedAlike(a: string, b: string) {
    if |a| < |b| then !Less(b[..|a|], a)
    else if |b| < |a| then !Less(a[..|b|], b)
    else true
  }

  /** The first components that differ, if there are any, are ordered alike. */
  predicate FirstDifferenceAgrees(v: seq<nat>, w: seq<nat>) {
    if v == [] || w == [] then true
    else if v[0] != w[0] then OrderedAlike(Digits(v[0]), Digits(w[0]))
    else FirstDifferenceAgrees(v[1..], w[1..])
  }

  /** A shorter decimal text before a longer one, each followed by a dot or nothing. */
  lemma ShorterFirst(a: string, x: string, b: string, y: string)
    requires |a| < |b| && IsDigits(b) && (x == "" || x[0] == '.')
    ensures Less(a + x, b + y) <==> !Less(b[..|a|], a)
    ensures Less(b + y, a + x) <==> Less(b[..|a|], a)
  {
    var p, q := b[..|a|], b[|a|..];
    assert b + y == p + (q + y);
    LessIsTotal(p, a);
    if p == a {
      LessAfterPrefix(a, x, q + y);
      LessAfterPrefix(a, q + y, x);
      assert (q + y)[0] == b[|a|];
      assert '.' < '0';
    } else {
      LessBeforeRest(a, x, p, q + y);
      LessBeforeRest(p, q + y, a, x);
    }
  }

  lemma FirstComponents(v: seq<nat>, w: seq<nat>)
    requires v != [] && w != [] && v[0] != w[0]
    ensures (Less(Dotted(v), Dotted(w)) <==> v[0] < w[0]) <==> OrderedAlike(Digits(v[0]), Digits(w[0]))
  {
    var a, x, b, y := Digits(v[0]), AfterFirst(v), Digits(w[0]), AfterFirst(w);
    DigitsOrder(v[0], w[0]);
    DigitsOrder(w[0], v[0]);
    DigitsAreDigits(v[0]);
    DigitsAreDigits(w[0]);
    if |a| < |b| {
      ShorterFirst(a, x, b, y);
    } else if |b| < |a| {
      ShorterFirst(b, y, a, x);
    } else {
      if a == b {
        DigitsInjective(v[0], w[0]);
      }
      LessBeforeRest(a, x, b, y);
    }
  }

  /** Equal first components fall away. */
  lemma RestDecides(v: seq<nat>, w: seq<nat>)
    requires |v| > 1 && |w| > 1 && v[0] == w[0]
    ensures Less(Dotted(v), Dotted(w)) <==> Less(Dotted(v[1..]), Dotted(w[1..]))
  {
    LessAfterPrefix(Digits(v[0]), "." + Dotted(v[1..]), "." + Dotted(w[1..]));
    LessAfterPrefix(".", Dotted(v[1..]), Dotted(w[1..]));
  }

  /** Text order agrees with version order if and only if the first components that differ are ordered
      alike as text and as number. */
  lemma {:induction false} TextOrderIff(v: seq<nat>, w: seq<nat>)
    requires v != [] && w != []
    ensures (Less(Dotted(v), Dotted(w)) <==> Older(v, w)) <==> FirstDifferenceAgrees(v, w)
  {
    if v[0] != w[0] {
      FirstComponents(v, w);
    } else if |v| > 1 && |w| > 1 {
      RestDecides(v, w);
      TextOrderIff(v[1..], w[1..]);
    } else {
      LessAfterPrefix(Digits(v[0]), AfterFirst(v), AfterFirst(w));
    }
  }
}
