/**
 * The few pieces of JavaScript number semantics the page relies on, stated on
 * exact reals and integers: the truncating remainder operator `%`,
 * `Math.round`, the decimal `toString` of an integral Number,
 * `padStart(2, "0")`, `parseInt(s, 16)` and the ToInt32 conversion behind the
 * bitwise operators.
 */
module JsNumber {
  import opened Wrappers

  /** ToInteger-style truncation toward zero. */
  function Trunc(x: real): (r: int)
    ensures x >= 0.0 ==> r as real <= x < r as real + 1.0
    ensures x < 0.0 ==> r as real - 1.0 < x <= r as real
  {
    if x >= 0.0 then x.Floor else -((-x).Floor)
  }

  /**
   * JavaScript `x % 24`: the remainder takes the sign of the dividend (a
   * result of -0 compares equal to 0, so it is written 0 here).
   */
  function Rem24(x: real): (r: real)
    ensures x >= 0.0 ==> 0.0 <= r < 24.0
    ensures x < 0.0 ==> -24.0 < r <= 0.0
    ensures 24.0 * ((x - r) / 24.0).Floor as real == x - r
  {
    x - 24.0 * Trunc(x / 24.0) as real
  }

  /** JavaScript `x % 1`: the fractional part, with the sign of x. */
  function Rem1(x: real): (r: real)
    ensures x >= 0.0 ==> 0.0 <= r < 1.0
    ensures x < 0.0 ==> -1.0 < r <= 0.0
    ensures (x - r).Floor as real == x - r
  {
    x - Trunc(x) as real
  }

  /** The remainder of a value already in [0, 24) is the value itself. */
  lemma Rem24OfRange(x: real)
    requires 0.0 <= x < 24.0
    ensures Rem24(x) == x
  {
  }

  /** Adding one day to a non-negative hour does not change `% 24`. */
  lemma Rem24Periodic(x: real)
    requires x >= 0.0
    ensures Rem24(x + 24.0) == Rem24(x)
  {
    assert (x + 24.0) / 24.0 == x / 24.0 + 1.0;
    assert (x / 24.0 + 1.0).Floor == (x / 24.0).Floor + 1;
  }

  /** `Math.round`: the nearest integer, ties going toward +infinity. */
  function Round(x: real): (r: int)
    ensures r as real - 0.5 <= x < r as real + 0.5
  {
    (x + 0.5).Floor
  }

  /** Round is the only integer within half a unit below and above. */
  lemma RoundUnique(x: real, n: int)
    requires n as real - 0.5 <= x < n as real + 0.5
    ensures Round(x) == n
  {
  }

  predicate IsDigit(c: char) {
    '0' <= c <= '9'
  }

  function Digit(d: nat): (c: char)
    requires d < 10
    ensures IsDigit(c) && DigitValue(c) == d
  {
    ('0' as int + d) as char
  }

  function DigitValue(c: char): int {
    c as int - '0' as int
  }

  /** Decimal digits of a non-negative integer, no leading zeros. */
  function NatToString(n: nat): (s: string)
    ensures |s| >= 1
    ensures forall i :: 0 <= i < |s| ==> IsDigit(s[i])
    ensures n < 10 <==> |s| == 1
    ensures 10 <= n < 100 <==> |s| == 2
  {
    if n < 10 then [Digit(n)] else NatToString(n / 10) + [Digit(n % 10)]
  }

  /** The value a string of decimal digits denotes. */
  function ParseDecimal(s: string): int {
    if s == [] then 0 else ParseDecimal(s[..|s| - 1]) * 10 + DigitValue(s[|s| - 1])
  }

  /** Writing a natural number in decimal and reading it back gives it again. */
  lemma {:induction false} NatToStringRoundTrip(n: nat)
    ensures ParseDecimal(NatToString(n)) == n
  {
    if n >= 10 {
      NatToStringRoundTrip(n / 10);
      var s := NatToString(n);
      assert s[..|s| - 1] == NatToString(n / 10);
    }
  }

  /** `String(n)` for an integral Number (below 1e21 in magnitude). */
  function IntToString(n: int): (s: string)
    ensures |s| >= 1
    ensures n >= 0 ==> s == NatToString(n)
    ensures n < 0 ==> s[0] == '-' && s[1..] == NatToString(-n)
  {
    if n < 0 then "-" + NatToString(-n) else NatToString(n)
  }

  /** `s.padStart(2, "0")`. */
  function PadStart2(s: string): (r: string)
    ensures |r| == if |s| >= 2 then |s| else 2
    ensures |s| >= 2 ==> r == s
    ensures |s| < 2 ==> r[2 - |s|..] == s && forall i :: 0 <= i < 2 - |s| ==> r[i] == '0'
  {
    if |s| >= 2 then s else if |s| == 1 then ['0'] + s else "00"
  }

  /** A number below 100, padded, is exactly its tens digit then its units digit. */
  lemma PaddedTwoDigits(n: nat)
    requires n < 100
    ensures PadStart2(NatToString(n)) == [Digit(n / 10), Digit(n % 10)]
  {
    if n >= 10 {
      assert NatToString(n / 10) == [Digit(n / 10)];
    }
  }

  /** The longest prefix of s whose characters all satisfy p. */
  function TakeWhile(s: string, p: char -> bool): (r: string)
    ensures |r| <= |s| && r == s[..|r|]
    ensures forall i :: 0 <= i < |r| ==> p(r[i])
    ensures |r| < |s| ==> !p(s[|r|])
    decreases |s|
  {
    if s == [] || !p(s[0]) then [] else [s[0]] + TakeWhile(s[1..], p)
  }

  /** A run of p-characters followed by a non-p character (or nothing) is taken whole. */
  lemma TakeWhileRun(a: string, t: string, p: char -> bool)
    requires forall i :: 0 <= i < |a| ==> p(a[i])
    requires t == [] || !p(t[0])
    ensures TakeWhile(a + t, p) == a
  {
    var r := TakeWhile(a + t, p);
    assert r == (a + t)[..|a|];
  }

  /**
   * The white space `parseInt` skips: the ECMAScript WhiteSpace and
   * LineTerminator code points.
   */
  predicate IsJsWhiteSpace(c: char) {
    var k := c as int;
    k == 0x09 || k == 0x0A || k == 0x0B || k == 0x0C || k == 0x0D || k == 0x20 ||
    k == 0xA0 || k == 0x1680 || (0x2000 <= k <= 0x200A) || k == 0x2028 || k == 0x2029 ||
    k == 0x202F || k == 0x205F || k == 0x3000 || k == 0xFEFF
  }

  /** s without its leading white space. */
  function TrimStart(s: string): (r: string)
    ensures |r| <= |s| && r == s[|s| - |r|..]
    ensures forall i :: 0 <= i < |s| - |r| ==> IsJsWhiteSpace(s[i])
    ensures r != [] ==> !IsJsWhiteSpace(r[0])
    decreases |s|
  {
    if s != [] && IsJsWhiteSpace(s[0]) then TrimStart(s[1..]) else s
  }

  predicate IsHexDigit(c: char) {
    ('0' <= c <= '9') || ('a' <= c <= 'f') || ('A' <= c <= 'F')
  }

  function HexDigitValue(c: char): (d: int)
    requires IsHexDigit(c)
    ensures 0 <= d < 16
  {
    if c <= '9' then c as int - '0' as int
    else if c <= 'F' then c as int - 'A' as int + 10
    else c as int - 'a' as int + 10
  }

  /** The value of a string of hex digits, most significant first. */
  function HexValue(s: string): (v: int)
    requires forall i :: 0 <= i < |s| ==> IsHexDigit(s[i])
    ensures v >= 0
  {
    if s == [] then 0 else HexValue(s[..|s| - 1]) * 16 + HexDigitValue(s[|s| - 1])
  }

  /** The sign parseInt accepts: whether it is '-', and the rest. */
  function SplitSign(t: string): (bool, string) {
    if t != [] && (t[0] == '-' || t[0] == '+') then (t[0] == '-', t[1..]) else (false, t)
  }

  /** With radix 16, parseInt drops a leading "0x" or "0X". */
  function DropHexPrefix(u: string): string {
    if |u| >= 2 && u[0] == '0' && (u[1] == 'x' || u[1] == 'X') then u[2..] else u
  }

  /**
   * `parseInt(s, 16)`, with None for NaN: skip leading white space, take one
   * optional sign, drop a "0x" or "0X" prefix, then read the longest run of
   * hex digits; NaN when that run is empty.
   */
  function ParseIntHex(s: string): (r: Option<int>)
  {
    var (neg, u) := SplitSign(TrimStart(s));
    var z := TakeWhile(DropHexPrefix(u), IsHexDigit);
    if z == [] then None else Some(if neg then -HexValue(z) else HexValue(z))
  }

  /** parseInt reads a string made only of hex digits as its value. */
  lemma ParseIntHexDigits(s: string)
    requires s != [] && forall i :: 0 <= i < |s| ==> IsHexDigit(s[i])
    ensures ParseIntHex(s) == Some(HexValue(s))
  {
    UnsignedDigits(s);
    TakeWhileRun(s, [], IsHexDigit);
    assert s + [] == s;
  }

  /** A string starting with a hex digit has no white space, sign or "0x" for parseInt to drop. */
  lemma UnsignedDigits(s: string)
    requires s != [] && IsHexDigit(s[0]) && (|s| >= 2 ==> IsHexDigit(s[1]))
    ensures TrimStart(s) == s && SplitSign(s) == (false, s) && DropHexPrefix(s) == s
  {
    assert !IsJsWhiteSpace(s[0]);
  }

  /** The 32-bit pattern of an integer, read as a signed value (ToInt32). */
  function ToInt32(n: int): (r: int)
    ensures -0x8000_0000 <= r < 0x8000_0000
    ensures (n - r) % 0x1_0000_0000 == 0
    ensures -0x8000_0000 <= n < 0x8000_0000 ==> r == n
  {
    var u := n % 0x1_0000_0000;
    if u >= 0x8000_0000 then u - 0x1_0000_0000 else u
  }
}
