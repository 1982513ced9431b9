/**
 What several modules share: options and results, bytes, characters, 64-bit words and their encoding,
 lines and decimal numbers, and sorting without duplicates.
 */
module Bytes {
  datatype Option<+T> = None | Some(value: T)
  datatype Result<+T> = Ok(value: T) | Err

  type byte = b: int | 0 <= b < 256
  const U64_MAX: int := 0xFFFF_FFFF_FFFF_FFFF
  type u64 = x: int | 0 <= x <= 0xFFFF_FFFF_FFFF_FFFF

  const LF: byte := 10
  const CR: byte := 13
  const PLUS: byte := 43

  /** The bytes of an ASCII literal without NUL. */
  function Ascii(s: string): (r: seq<byte>)
    requires forall i :: 0 <= i < |s| ==> 0 < s[i] as int < 128
    ensures |r| == |s|
    ensures forall i :: 0 <= i < |s| ==> r[i] == s[i] as int && r[i] != 0
  {
    seq(|s|, i requires 0 <= i < |s| => s[i] as int)
  }

  /** Unicode White_Space. */
  predicate IsWhitespace(c: char) {
    var x := c as int;
    9 <= x <= 13 || x == 0x20 || x == 0x85 || x == 0xA0 || x == 0x1680 || 0x2000 <= x <= 0x200A
    || x == 0x2028 || x == 0x2029 || x == 0x202F || x == 0x205F || x == 0x3000
  }

  function Zeros(n: nat): (r: seq<byte>)
    ensures |r| == n && forall i :: 0 <= i < n ==> r[i] == 0
  {
    seq(n, _ => 0)
  }

  predicate AllZero(s: seq<byte>) {
    forall i :: 0 <= i < |s| ==> s[i] == 0
  }

  lemma AppendAssociative<T>(a: seq<T>, b: seq<T>, c: seq<T>)
    ensures a + (b + c) == a + b + c
  {
  }

  function Min(a: int, b: int): int { if a <= b then a else b }

  function Max(a: int, b: int): int { if a <= b then b else a }

  function Pow256(n: nat): (r: nat)
    ensures r > 0
  {
    if n == 0 then 1 else 256 * Pow256(n - 1)
  }

  function Pow10(n: nat): nat { if n == 0 then 1 else 10 * Pow10(n - 1) }

  /** The n low-order bytes of x, least significant first. */
  function ToLE(x: nat, n: nat): (r: seq<byte>)
    ensures |r| == n
  {
    if n == 0 then [] else [x % 256] + ToLE(x / 256, n - 1)
  }

  function FromLE(s: seq<byte>): nat {
    if s == [] then 0 else s[0] + 256 * FromLE(s[1..])
  }

  lemma {:induction false} FromToLE(x: nat, n: nat)
    requires x < Pow256(n)
    ensures FromLE(ToLE(x, n)) == x
  {
    if n > 0 {
      FromToLE(x / 256, n - 1);
      assert ToLE(x, n)[1..] == ToLE(x / 256, n - 1);
    }
  }

  lemma {:induction false} ToFromLE(s: seq<byte>)
    ensures FromLE(s) < Pow256(|s|)
    ensures ToLE(FromLE(s), |s|) == s
  {
    if s != [] {
      ToFromLE(s[1..]);
      assert FromLE(s) / 256 == FromLE(s[1..]);
    }
  }

  lemma Pow256Eight()
    ensures Pow256(8) == U64_MAX + 1
  {
    assert Pow256(1) == 256;
    assert Pow256(2) == 65536;
    assert Pow256(4) == 256 * 256 * Pow256(2);
    assert Pow256(6) == 256 * 256 * Pow256(4);
    assert Pow256(8) == 256 * 256 * Pow256(6);
  }

  // ---- text ----

  predicate IsDigit(b: byte) { 48 <= b <= 57 }

  predicate AllDigits(s: seq<byte>) { forall i :: 0 <= i < |s| ==> IsDigit(s[i]) }

  function Decimal(n: nat): (r: seq<byte>)
    ensures |r| > 0 && AllDigits(r)
  {
    if n < 10 then [48 + n] else Decimal(n / 10) + [48 + n % 10]
  }

  /** Index just past the last newline, 0 when there is none. */
  function CompleteLength(s: seq<byte>): (r: nat)
    ensures r <= |s|
    ensures r > 0 ==> s[r - 1] == LF
    ensures forall i :: r <= i < |s| ==> s[i] != LF
  {
    if s == [] then 0
    else if s[|s| - 1] == LF then |s|
    else CompleteLength(s[..|s| - 1])
  }

  /** Index of the first newline, |s| when there is none. */
  function FirstNewline(s: seq<byte>): (r: nat)
    ensures r <= |s|
    ensures r < |s| ==> s[r] == LF
    ensures forall i :: 0 <= i < r ==> s[i] != LF
  {
    if s == [] || s[0] == LF then 0 else 1 + FirstNewline(s[1..])
  }

  function StripCR(line: seq<byte>): seq<byte> {
    if line != [] && line[|line| - 1] == CR then line[..|line| - 1] else line
  }

  predicate StartsWith(s: seq<byte>, prefix: seq<byte>) {
    |prefix| <= |s| && s[..|prefix|] == prefix
  }

  // ---- sorting ----

  predicate StrictlyAscending(xs: seq<nat>) { forall i, j :: 0 <= i < j < |xs| ==> xs[i] < xs[j] }

  function InsertUnique(xs: seq<nat>, x: nat): seq<nat> {
    if xs == [] || x < xs[0] then [x] + xs
    else if x == xs[0] then xs
    else [xs[0]] + InsertUnique(xs[1..], x)
  }

  /** Sorting and removing duplicates. */
  function SortedUnique(xs: seq<nat>): seq<nat> {
    if xs == [] then [] else InsertUnique(SortedUnique(xs[1..]), xs[0])
  }

  lemma {:induction false} InsertUniqueSpec(xs: seq<nat>, x: nat)
    requires StrictlyAscending(xs)
    ensures StrictlyAscending(InsertUnique(xs, x))
    ensures forall y :: y in InsertUnique(xs, x) <==> y == x || y in xs
  {
    if xs != [] && x > xs[0] {
      InsertUniqueSpec(xs[1..], x);
      var rest := InsertUnique(xs[1..], x);
      forall y | y in rest
        ensures xs[0] < y
      {
        if y != x { assert y in xs[1..]; }
      }
      assert xs == [xs[0]] + xs[1..];
      ConsAscending(xs[0], rest);
    }
  }

  lemma ConsAscending(first: nat, rest: seq<nat>)
    requires StrictlyAscending(rest) && forall y :: y in rest ==> first < y
    ensures StrictlyAscending([first] + rest)
  {
    assert forall j :: 0 <= j < |rest| ==> rest[j] in rest;
  }

  lemma {:induction false} SortedUniqueSpec(xs: seq<nat>)
    ensures StrictlyAscending(SortedUnique(xs))
    ensures forall y :: y in SortedUnique(xs) <==> y in xs
  {
    if xs != [] {
      SortedUniqueSpec(xs[1..]);
      InsertUniqueSpec(SortedUnique(xs[1..]), xs[0]);
      assert xs == [xs[0]] + xs[1..];
    }
  }
}
