/** Numbers as text: std::to_string, %llu and %04x. */
module Decimals {

  function Digit(d: nat): char
    requires d < 16
  {
    if d < 10 then '0' + d as char else 'a' + (d - 10) as char
  }

  function Digits(n: nat): (s: string)
    ensures s != "" && '-' !in s
    ensures n < 10 <==> |s| == 1
  {
    if n < 10 then [Digit(n)] else Digits(n / 10) + [Digit(n % 10)]
  }

  function Decimal(n: int): string {
    if n < 0 then "-" + Digits(-n) else Digits(n)
  }

  /** %04x of a 16-bit number. */
  function Hex4(n: nat): (s: string)
    requires n < 0x10000
    ensures |s| == 4
  {
    [Digit(n / 4096), Digit(n / 256 % 16), Digit(n / 16 % 16), Digit(n % 16)]
  }

  lemma {:induction false} DigitsInjective(m: nat, n: nat)
    requires Digits(m) == Digits(n)
    ensures m == n
    decreases m
  {
    var s := Digits(m);
    if m < 10 || n < 10 {
      assert s == [Digit(m)] == [Digit(n)];
    } else {
      assert Digits(m / 10) == s[..|s| - 1] == Digits(n / 10);
      DigitsInjective(m / 10, n / 10);
      assert Digit(m % 10) == s[|s| - 1] == Digit(n % 10);
    }
  }

  /** Two words without the separator are told apart by the one that follows them. */
  lemma SplitAt(sep: char, a: string, x: string, b: string, y: string)
    requires sep !in a && sep !in b
    requires a + [sep] + x == b + [sep] + y
    ensures a == b && x == y
  {
    var s := a + [sep] + x;
    assert s[|a|] == sep && s[|b|] == sep;
    assert forall i :: 0 <= i < |a| ==> s[i] == a[i] != sep;
    assert forall i :: 0 <= i < |b| ==> s[i] == b[i] != sep;
    assert a == s[..|a|] == b;
    assert x == s[|a| + 1..] == y;
  }

  /** And by the one before them. */
  lemma SplitAtLast(sep: char, x: string, a: string, y: string, b: string)
    requires sep !in a && sep !in b
    requires x + [sep] + a == y + [sep] + b
    ensures a == b && x == y
  {
    var s := x + [sep] + a;
    var n := |s|;
    assert s[|x|] == sep && s[|y|] == sep;
    assert forall i :: |x| < i < n ==> s[i] == a[i - |x| - 1] != sep;
    assert forall i :: |y| < i < n ==> s[i] == b[i - |y| - 1] != sep;
    assert x == s[..|x|] == y;
    assert a == s[|x| + 1..] == b;
  }

  lemma {:induction false} DigitsOneLine(n: nat)
    ensures '\n' !in Digits(n)
  {
    if n >= 10 {
      DigitsOneLine(n / 10);
    }
  }

  lemma DecimalOneLine(n: int)
    ensures '\n' !in Decimal(n)
  {
    DigitsOneLine(if n < 0 then -n else n);
  }

  lemma DecimalInjective(m: int, n: int)
    requires Decimal(m) == Decimal(n)
    ensures m == n
  {
    FirstDash(m);
    FirstDash(n);
    var s := Decimal(m);
    if m < 0 {
      assert Digits(-m) == s[1..] == Digits(-n);
      DigitsInjective(-m, -n);
    } else {
      DigitsInjective(m, n);
    }
  }

  lemma FirstDash(m: int)
    ensures Decimal(m) != "" && (Decimal(m)[0] == '-' <==> m < 0)
  {
    if m >= 0 {
      assert Digits(m)[0] in Digits(m);
    }
  }

  /** The same for signed numbers, whose text may begin with a dash. */
  lemma SplitSigned(m: int, x: string, n: int, y: string)
    requires Decimal(m) + "-" + x == Decimal(n) + "-" + y
    ensures x == y
  {
    StartsWithDash(m, x);
    StartsWithDash(n, y);
    if m < 0 {
      SplitAt('-', Digits(-m), x, Digits(-n), y);
    } else {
      SplitAt('-', Digits(m), x, Digits(n), y);
    }
  }

  lemma StartsWithDash(m: int, x: string)
    ensures var s := Decimal(m) + "-" + x;
            && (s[0] == '-' <==> m < 0)
            && (m < 0 ==> s[1..] == Digits(-m) + "-" + x)
  {
    if m >= 0 {
      assert Digits(m)[0] in Digits(m);
    }
  }
}
