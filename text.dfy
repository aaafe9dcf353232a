/** Decimal rendering shared by the disassembler and the sprite table. */
module Text {
  const DecimalDigits := "0123456789"

  /** The decimal digits of `n`, without leading zeros. */
  function Decimal(n: nat): (s: string)
    ensures |s| >= 1
    ensures forall k :: 0 <= k < |s| ==> '0' <= s[k] <= '9'
  {
    if n < 10 then [DecimalDigits[n]] else Decimal(n / 10) + [DecimalDigits[n % 10]]
  }

  /** JavaScript's `String(v)` for an integer: a minus sign before the digits of a negative one. */
  function IntText(v: int): (s: string)
    ensures |s| >= 1 && (s[0] == '-' <==> v < 0)
  {
    if v < 0 then "-" + Decimal(-v) else Decimal(v)
  }
}
