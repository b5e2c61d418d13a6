/** JSON values as the nlohmann library holds them. The text form stays abstract: a dump and a parse
    that undo each other. */
module Jsons {
  import opened Options
  import opened Powers

  const PRECISION: nat := 53

  /** Mantissa times a power of two. */
  datatype Dyadic = Dyadic(mantissa: int, exponent: int)
  {
    function Value(): real {
      if exponent >= 0 then (mantissa * Pow2(exponent)) as real
      else mantissa as real / Pow2(-exponent) as real
    }

    function Magnitude(): nat {
      if mantissa < 0 then -mantissa else mantissa
    }

    /** A finite double, in the one form with an odd mantissa or zero. */
    predicate Representable() {
      && (if mantissa == 0 then exponent == 0 else mantissa % 2 == 1)
      && Magnitude() < Pow2(PRECISION) && -1074 <= exponent < 1024
      && (exponent > 971 ==> Magnitude() < Pow2(1024 - exponent))
    }
  }

  type Double = d: Dyadic | d.Representable() witness Dyadic(0, 0)

  const ZERO: Double := Dyadic(0, 0)

  /** The integers the library holds: signed and unsigned 64-bit. */
  type Number = n: int | -INT64_LIMIT <= n < 2 * INT64_LIMIT

  datatype Json =
    | Null
    | Bool(flag: bool)
    | Int(number: Number)
    | Float(value: Double)
    | Str(text: string)
    | Array(items: seq<Json>)
    | Object(members: map<string, Json>)

  /** `nearest` is the conversion of an integer to a double. */
  datatype Codec = Codec(dump: Json -> string, parse: string -> Option<Json>, nearest: Number -> Double)
  {
    ghost predicate RoundTrips() {
      forall j {:trigger dump(j)} :: parse(dump(j)) == Some(j)
    }
  }

  const INT64_LIMIT := 0x8000_0000_0000_0000

  type Int64 = x: int | -INT64_LIMIT <= x < INT64_LIMIT

  /** static_cast to a signed 64-bit integer. */
  function ToInt64(n: int): Int64 {
    (n + INT64_LIMIT) % (2 * INT64_LIMIT) - INT64_LIMIT
  }

  lemma ToInt64Same(n: Int64)
    ensures ToInt64(n) == n
  {
  }

  const INT32_LIMIT := 0x8000_0000

  type Int32 = x: int | -INT32_LIMIT <= x < INT32_LIMIT

  function ToInt32(n: int): Int32 {
    (n + INT32_LIMIT) % (2 * INT32_LIMIT) - INT32_LIMIT
  }

  lemma ToInt32Same(n: Int32)
    ensures ToInt32(n) == n
  {
  }

  /** Truncation toward zero. */
  function Truncated(r: real): int {
    if r >= 0.0 then r.Floor else -((-r).Floor)
  }

  /** json::value(key, default): the default when the key is absent, None for the exception thrown
      when j is not an object or the value has another type. */
  function TextOr(j: Json, key: string, default: string): Option<string> {
    if !j.Object? then None
    else if key !in j.members then Some(default)
    else if j.members[key].Str? then Some(j.members[key].text) else None
  }

  function Int64Or(j: Json, key: string, default: Int64): Option<Int64> {
    if !j.Object? then None
    else if key !in j.members then Some(default)
    else match j.members[key]
      case Int(n) => Some(ToInt64(n))
      case Float(r) => Some(ToInt64(Truncated(r.Value())))
      case _ => None
  }

  /** For plain int the library also converts booleans. */
  function Int32Or(j: Json, key: string, default: Int32): Option<Int32> {
    if !j.Object? then None
    else if key !in j.members then Some(default)
    else match j.members[key]
      case Int(n) => Some(ToInt32(n))
      case Float(r) => Some(ToInt32(Truncated(r.Value())))
      case Bool(b) => Some(if b then 1 else 0)
      case _ => None
  }

  function BoolOr(j: Json, key: string, default: bool): Option<bool> {
    if !j.Object? then None
    else if key !in j.members then Some(default)
    else if j.members[key].Bool? then Some(j.members[key].flag) else None
  }

  function DoubleOr(j: Json, key: string, default: Double, nearest: Number -> Double): Option<Double> {
    if !j.Object? then None
    else if key !in j.members then Some(default)
    else match j.members[key]
      case Int(n) => Some(nearest(n))
      case Float(r) => Some(r)
      case _ => None
  }
}

/** The round-trip law can be met: a prefix code for JSON values, and the parser it determines. */
module JsonCodecs {
  import opened Options
  import opened Jsons

  ghost function Unary(n: nat): (s: string)
    ensures |s| == n + 1
  {
    if n == 0 then "." else "1" + Unary(n - 1)
  }

  ghost function Signed(n: int): string {
    if n < 0 then "-" + Unary(-n) else "+" + Unary(n)
  }

  ghost function Quoted(s: string): string {
    Unary(|s|) + s
  }

  ghost function Encode(j: Json): (s: string)
    ensures s != ""
    decreases j, 1, 0
  {
    match j
    case Null => "n"
    case Bool(b) => if b then "t" else "f"
    case Int(n) => "i" + Signed(n)
    case Float(d) => "d" + (Signed(d.mantissa) + Signed(d.exponent))
    case Str(t) => "s" + Quoted(t)
    case Array(items) => "a" + (Unary(|items|) + EncodeItems(j, |items|))
    case Object(members) => var keys := KeysOf(members); "o" + (Unary(|keys|) + EncodeMembers(j, keys, |keys|))
  }

  /** The last n items of an array. */
  ghost function EncodeItems(j: Json, n: nat): string
    requires j.Array? && n <= |j.items|
    decreases j, 0, n
  {
    if n == 0 then "" else Encode(j.items[|j.items| - n]) + EncodeItems(j, n - 1)
  }

  /** An object's keys in some order. */
  ghost function KeysOf(m: map<string, Json>): (keys: seq<string>)
    ensures forall k :: k in keys <==> k in m
    decreases |m|
  {
    if m == map[] then []
    else
      var k :| k in m;
      [k] + KeysOf(m - {k})
  }

  /** The members under the last n keys. */
  ghost function EncodeMembers(j: Json, keys: seq<string>, n: nat): string
    requires j.Object? && n <= |keys| && forall k :: k in keys ==> k in j.members
    decreases j, 0, n
  {
    if n == 0 then ""
    else
      var k := keys[|keys| - n];
      assert j.members[k] in j.members.Values;
      Quoted(k) + (Encode(j.members[k]) + EncodeMembers(j, keys, n - 1))
  }

  // ------------------------------------------------------------- it is a prefix code

  lemma Assoc(a: string, b: string, c: string)
    ensures (a + b) + c == a + (b + c)
  {
  }

  /** Equal texts have equal first letters and equal rests. */
  lemma Untag(c: string, a: string, d: string, b: string, x: string, y: string)
    requires |c| == |d| == 1 && (c + a) + x == (d + b) + y
    ensures c == d && a + x == b + y
  {
    Assoc(c, a, x);
    Assoc(d, b, y);
    var s := (c + a) + x;
    assert s[..1] == c && s[..1] == d;
    assert s[1..] == a + x && s[1..] == b + y;
  }

  lemma {:induction false} UnaryPrefix(n: nat, m: nat, x: string, y: string)
    requires Unary(n) + x == Unary(m) + y
    ensures n == m && x == y
  {
    var a, b := if n == 0 then "" else Unary(n - 1), if m == 0 then "" else Unary(m - 1);
    var c, d := if n == 0 then "." else "1", if m == 0 then "." else "1";
    assert Unary(n) == c + a && Unary(m) == d + b;
    Untag(c, a, d, b, x, y);
    if n > 0 {
      assert c[0] == '1';
      assert m > 0;
      UnaryPrefix(n - 1, m - 1, x, y);
    } else {
      assert c[0] == '.';
      assert m == 0 && a + x == x && b + y == y;
    }
  }

  lemma SignedPrefix(n: int, m: int, x: string, y: string)
    requires Signed(n) + x == Signed(m) + y
    ensures n == m && x == y
  {
    var c, d := if n < 0 then "-" else "+", if m < 0 then "-" else "+";
    var p, q := if n < 0 then -n else n, if m < 0 then -m else m;
    Untag(c, Unary(p), d, Unary(q), x, y);
    assert c[0] == d[0];
    UnaryPrefix(p, q, x, y);
  }

  lemma QuotedPrefix(s: string, t: string, x: string, y: string)
    requires Quoted(s) + x == Quoted(t) + y
    ensures s == t && x == y
  {
    Assoc(Unary(|s|), s, x);
    Assoc(Unary(|t|), t, y);
    UnaryPrefix(|s|, |t|, s + x, t + y);
    assert s == (s + x)[..|s|] && t == (t + y)[..|t|];
    assert x == (s + x)[|s|..] && y == (t + y)[|t|..];
  }

  ghost function Tag(j: Json): (c: string)
    ensures |c| == 1
  {
    match j
    case Null => "n"
    case Bool(b) => if b then "t" else "f"
    case Int(_) => "i"
    case Float(_) => "d"
    case Str(_) => "s"
    case Array(_) => "a"
    case Object(_) => "o"
  }

  ghost function Body(j: Json): string {
    match j
    case Null => ""
    case Bool(_) => ""
    case Int(n) => Signed(n)
    case Float(d) => Signed(d.mantissa) + Signed(d.exponent)
    case Str(t) => Quoted(t)
    case Array(items) => Unary(|items|) + EncodeItems(j, |items|)
    case Object(members) => var keys := KeysOf(members); Unary(|keys|) + EncodeMembers(j, keys, |keys|)
  }

  lemma TagBody(j: Json)
    ensures Encode(j) == Tag(j) + Body(j)
  {
  }

  lemma SameTag(j: Json, k: Json)
    requires Tag(j) == Tag(k)
    ensures j.Null? == k.Null? && j.Bool? == k.Bool? && j.Int? == k.Int? && j.Float? == k.Float?
    ensures j.Str? == k.Str? && j.Array? == k.Array? && j.Object? == k.Object?
    ensures j.Null? || j.Bool? ==> j == k
  {
    assert Tag(j)[0] == Tag(k)[0];
  }

  lemma {:induction false} Prefix(j: Json, k: Json, x: string, y: string)
    requires Encode(j) + x == Encode(k) + y
    ensures j == k && x == y
    decreases j, 1, 0
  {
    TagBody(j);
    TagBody(k);
    Untag(Tag(j), Body(j), Tag(k), Body(k), x, y);
    SameTag(j, k);
    match j
    case Null => assert Body(j) + x == x && Body(k) + y == y;
    case Bool(_) => assert Body(j) + x == x && Body(k) + y == y;
    case Int(n) => SignedPrefix(n, k.number, x, y);
    case Float(d) =>
      var e := k.value;
      Assoc(Signed(d.mantissa), Signed(d.exponent), x);
      Assoc(Signed(e.mantissa), Signed(e.exponent), y);
      SignedPrefix(d.mantissa, e.mantissa, Signed(d.exponent) + x, Signed(e.exponent) + y);
      SignedPrefix(d.exponent, e.exponent, x, y);
    case Str(t) => QuotedPrefix(t, k.text, x, y);
    case Array(items) =>
      var n, m := |items|, |k.items|;
      Assoc(Unary(n), EncodeItems(j, n), x);
      Assoc(Unary(m), EncodeItems(k, m), y);
      UnaryPrefix(n, m, EncodeItems(j, n) + x, EncodeItems(k, m) + y);
      ItemsPrefix(j, k, n, x, y);
      assert items[0..] == items && k.items[0..] == k.items;
    case Object(members) =>
      var p, q := KeysOf(members), KeysOf(k.members);
      Assoc(Unary(|p|), EncodeMembers(j, p, |p|), x);
      Assoc(Unary(|q|), EncodeMembers(k, q, |q|), y);
      UnaryPrefix(|p|, |q|, EncodeMembers(j, p, |p|) + x, EncodeMembers(k, q, |q|) + y);
      MembersPrefix(j, p, k, q, |p|, x, y);
      assert p == q;
      SameObject(j, k, p);
  }

  lemma {:induction false} ItemsPrefix(j: Json, k: Json, n: nat, x: string, y: string)
    requires j.Array? && k.Array? && |j.items| == |k.items| && n <= |j.items|
    requires EncodeItems(j, n) + x == EncodeItems(k, n) + y
    ensures j.items[|j.items| - n..] == k.items[|j.items| - n..] && x == y
    decreases j, 0, n
  {
    var i := |j.items| - n;
    if n == 0 {
      assert EncodeItems(j, n) + x == x && EncodeItems(k, n) + y == y;
    } else {
      var a, b := Encode(j.items[i]), Encode(k.items[i]);
      Assoc(a, EncodeItems(j, n - 1), x);
      Assoc(b, EncodeItems(k, n - 1), y);
      Prefix(j.items[i], k.items[i], EncodeItems(j, n - 1) + x, EncodeItems(k, n - 1) + y);
      ItemsPrefix(j, k, n - 1, x, y);
      assert j.items[i..] == [j.items[i]] + j.items[i + 1..];
      assert k.items[i..] == [k.items[i]] + k.items[i + 1..];
    }
  }

  lemma MemberSplit(p: string, v: string, a: string, x: string, q: string, w: string, b: string, y: string)
    requires (Quoted(p) + (v + a)) + x == (Quoted(q) + (w + b)) + y
    ensures p == q && v + (a + x) == w + (b + y)
  {
    Assoc(Quoted(p), v + a, x);
    Assoc(Quoted(q), w + b, y);
    QuotedPrefix(p, q, (v + a) + x, (w + b) + y);
    Assoc(v, a, x);
    Assoc(w, b, y);
  }

  ghost predicate SameFrom(j: Json, p: seq<string>, k: Json, q: seq<string>, i: nat)
    requires j.Object? && k.Object? && |p| == |q|
  {
    forall h :: i <= h < |p| ==>
      p[h] == q[h] && p[h] in j.members && p[h] in k.members && j.members[p[h]] == k.members[p[h]]
  }

  lemma {:induction false} MembersPrefix(j: Json, p: seq<string>, k: Json, q: seq<string>, n: nat, x: string, y: string)
    requires j.Object? && k.Object? && |p| == |q| && n <= |p|
    requires (forall h :: h in p ==> h in j.members) && (forall h :: h in q ==> h in k.members)
    requires EncodeMembers(j, p, n) + x == EncodeMembers(k, q, n) + y
    ensures SameFrom(j, p, k, q, |p| - n) && x == y
    decreases j, 0, n
  {
    if n == 0 {
      assert EncodeMembers(j, p, n) + x == x && EncodeMembers(k, q, n) + y == y;
    } else {
      var i := |p| - n;
      assert p[i] in p && q[i] in q;
      var v, w := j.members[p[i]], k.members[q[i]];
      var a, b := EncodeMembers(j, p, n - 1), EncodeMembers(k, q, n - 1);
      MemberSplit(p[i], Encode(v), a, x, q[i], Encode(w), b, y);
      assert v in j.members.Values;
      Prefix(v, w, a + x, b + y);
      MembersPrefix(j, p, k, q, n - 1, x, y);
    }
  }

  lemma SameObject(j: Json, k: Json, keys: seq<string>)
    requires j.Object? && k.Object? && SameFrom(j, keys, k, keys, 0)
    requires (forall h :: h in keys <==> h in j.members) && (forall h :: h in keys <==> h in k.members)
    ensures j == k
  {
    forall h | h in j.members
      ensures h in k.members && j.members[h] == k.members[h]
    {
      var i :| 0 <= i < |keys| && keys[i] == h;
    }
    assert j.members == k.members;
  }

  /** So there is a codec whose parser undoes its dump on every value. */
  lemma SomeCodecRoundTrips() returns (c: Codec)
    ensures c.RoundTrips()
  {
    var dump := (j: Json) => Encode(j);
    var parse := (s: string) => if exists j :: Encode(j) == s then var j :| Encode(j) == s; Some(j) else None;
    c := Codec(dump, parse, _ => ZERO);
    forall j: Json
      ensures c.parse(c.dump(j)) == Some(j)
    {
      var k :| Encode(k) == Encode(j) && parse(Encode(j)) == Some(k);
      Prefix(j, k, "", "");
    }
  }
}
