/**
 * The text formats the analyzer relies on: .NET's upper-case hexadecimal
 * format ("X2", "X8"), decimal rendering of counts, string.Join and the
 * character replacement used on BitConverter output.
 */
module Formatting {

  /** An upper-case hexadecimal digit, as the "X" format specifier writes it. */
  predicate IsHexDigit(c: char) {
    '0' <= c <= '9' || 'A' <= c <= 'F'
  }

  predicate AllHexDigits(s: string) {
    forall i :: 0 <= i < |s| ==> IsHexDigit(s[i])
  }

  predicate IsDecimalDigit(c: char) {
    '0' <= c <= '9'
  }

  predicate AllDecimalDigits(s: string) {
    forall i :: 0 <= i < |s| ==> IsDecimalDigit(s[i])
  }

  function HexValue(c: char): (d: nat)
    requires IsHexDigit(c)
    ensures d < 16
  {
    if c <= '9' then c as int - '0' as int else c as int - 'A' as int + 10
  }

  function HexDigit(d: nat): (c: char)
    requires d < 16
    ensures IsHexDigit(c) && HexValue(c) == d
  {
    if d < 10 then ('0' as int + d) as char else ('A' as int + d - 10) as char
  }

  function Pow16(k: nat): (p: nat)
    ensures p > 0
  {
    if k == 0 then 1 else 16 * Pow16(k - 1)
  }

  /** The `width` lowest hexadecimal digits of n, most significant first. */
  function Hex(n: nat, width: nat): (s: string)
    ensures |s| == width && AllHexDigits(s)
  {
    if width == 0 then "" else Hex(n / 16, width - 1) + [HexDigit(n % 16)]
  }

  /** Reads a string of hexadecimal digits back as a number. */
  function ParseHex(s: string): nat
    requires AllHexDigits(s)
  {
    if s == [] then 0 else 16 * ParseHex(s[..|s| - 1]) + HexValue(s[|s| - 1])
  }

  lemma {:induction false} ParseHexOfHex(n: nat, width: nat)
    requires n < Pow16(width)
    ensures ParseHex(Hex(n, width)) == n
  {
    if width > 0 {
      var s := Hex(n, width);
      assert s[..|s| - 1] == Hex(n / 16, width - 1);
      ParseHexOfHex(n / 16, width - 1);
    }
  }

  const TwoTo32: nat := 0x1_0000_0000

  lemma Pow16Of8()
    ensures Pow16(8) == TwoTo32
  {
  }

  /** The "X8" format of a value below 2^32: exactly eight upper-case hex digits. */
  function Hex8(n: nat): (s: string)
    requires n < TwoTo32
    ensures |s| == 8 && AllHexDigits(s) && ParseHex(s) == n
  {
    Pow16Of8();
    ParseHexOfHex(n, 8);
    Hex(n, 8)
  }

  lemma Hex8Injective(a: nat, b: nat)
    requires a < TwoTo32 && b < TwoTo32 && Hex8(a) == Hex8(b)
    ensures a == b
  {
  }

  function DecimalDigit(d: nat): (c: char)
    requires d < 10
    ensures IsDecimalDigit(c)
  {
    ('0' as int + d) as char
  }

  function ParseDecimal(s: string): nat
    requires AllDecimalDigits(s)
  {
    if s == [] then 0 else 10 * ParseDecimal(s[..|s| - 1]) + (s[|s| - 1] as int - '0' as int)
  }

  /** The invariant-culture decimal rendering of a non-negative count. */
  function Decimal(n: nat): (s: string)
    ensures |s| > 0 && AllDecimalDigits(s) && ParseDecimal(s) == n
  {
    if n < 10 then
      [DecimalDigit(n)]
    else
      var s := Decimal(n / 10) + [DecimalDigit(n % 10)];
      assert s[..|s| - 1] == Decimal(n / 10);
      s
  }

  /** string.Join: the elements in order, with `sep` between neighbours. */
  function Join(sep: string, xs: seq<string>): string
  {
    if |xs| == 0 then "" else if |xs| == 1 then xs[0] else xs[0] + sep + Join(sep, xs[1..])
  }

  lemma {:induction false} JoinSnoc(sep: string, xs: seq<string>, x: string)
    requires |xs| > 0
    ensures Join(sep, xs + [x]) == Join(sep, xs) + sep + x
  {
    if |xs| > 1 {
      assert (xs + [x])[1..] == xs[1..] + [x];
      JoinSnoc(sep, xs[1..], x);
    } else {
      assert xs + [x] == [xs[0], x];
      assert [xs[0], x][1..] == [x];
    }
  }

  /**
   * Joining two-character strings with a one-character separator puts
   * element i at positions 3i and 3i+1 and the separator at 3i+2.
   */
  lemma {:induction false} JoinOfPairs(sep: char, xs: seq<string>)
    requires |xs| > 0
    requires forall i :: 0 <= i < |xs| ==> |xs[i]| == 2
    ensures |Join([sep], xs)| == 3 * |xs| - 1
    ensures forall k :: 0 <= k < |Join([sep], xs)| ==>
              Join([sep], xs)[k] == if k % 3 == 2 then sep else xs[k / 3][k % 3]
  {
    if |xs| > 1 {
      var rest := Join([sep], xs[1..]);
      JoinOfPairs(sep, xs[1..]);
      var s := Join([sep], xs);
      assert s == xs[0] + [sep] + rest;
      forall k | 0 <= k < |s|
        ensures s[k] == if k % 3 == 2 then sep else xs[k / 3][k % 3]
      {
        if k >= 3 {
          assert s[k] == rest[k - 3];
          assert (k - 3) % 3 == k % 3 && (k - 3) / 3 == k / 3 - 1;
        }
      }
    }
  }

  /** string.Replace of one character by another. */
  function ReplaceChar(s: string, from: char, to: char): (r: string)
    ensures |r| == |s|
  {
    seq(|s|, k requires 0 <= k < |s| => if s[k] == from then to else s[k])
  }
}
