/** Bytes and decimal numbers as they appear in the Redis protocol and in the append only file. */
module Bytes {
  type Byte = x: int | 0 <= x < 256

  const CR: Byte := 13
  const LF: Byte := 10
  const MINUS: Byte := 45
  const PLUS: Byte := 43
  const STAR: Byte := 42
  const DOLLAR: Byte := 36
  const COLON: Byte := 58
  const CRLF: seq<Byte> := [CR, LF]

  /** isspace of the C locale. */
  predicate IsSpace(b: Byte) { b == 32 || 9 <= b <= 13 }

  /** The low 32 bits as a signed number, as a conversion to int keeps them. */
  function AsInt(v: int): int {
    var w := v % 0x1_0000_0000;
    if w >= 0x8000_0000 then w - 0x1_0000_0000 else w
  }

  predicate IsDigit(b: Byte) { 48 <= b <= 57 }

  predicate AllDigits(s: seq<Byte>) { forall i :: 0 <= i < |s| ==> IsDigit(s[i]) }

  /** The decimal digits of n, without leading zeros. */
  function Dec(n: nat): (s: seq<Byte>)
    ensures |s| >= 1 && AllDigits(s)
  {
    if n < 10 then [48 + n] else Dec(n / 10) + [48 + n % 10]
  }

  /** The number a string of digits denotes. */
  function Val(s: seq<Byte>): nat
    requires AllDigits(s)
  {
    if s == [] then 0 else Val(s[..|s| - 1]) * 10 + (s[|s| - 1] - 48)
  }

  lemma {:induction false} ValDec(n: nat)
    ensures Val(Dec(n)) == n
  {
    if n >= 10 {
      ValDec(n / 10);
      assert Dec(n)[..|Dec(n)| - 1] == Dec(n / 10);
    }
  }

  /** A digit string of d digits denotes less than 10^d. */
  function Pow10(d: nat): (p: nat)
    ensures p >= 1
  {
    if d == 0 then 1 else 10 * Pow10(d - 1)
  }

  lemma {:induction false} DecLength(n: nat, d: nat)
    requires d >= 1 && n < Pow10(d)
    ensures |Dec(n)| <= d
  {
    if n >= 10 {
      assert n / 10 < Pow10(d - 1);
      DecLength(n / 10, d - 1);
    }
  }

  lemma {:induction false} DecLeading(n: nat)
    requires n > 0
    ensures Dec(n)[0] != 48
  {
    if n >= 10 { DecLeading(n / 10); }
  }

  /** Positive as soon as the first digit is. */
  lemma {:induction false} ValPositive(s: seq<Byte>)
    requires AllDigits(s) && s != [] && s[0] != 48
    ensures Val(s) > 0
  {
    if |s| > 1 { ValPositive(s[..|s| - 1]); }
  }
}
