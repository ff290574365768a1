/** Hexadecimal digits in either case. */
module Hexadecimal {
  import opened Prelude
  import opened Decimal

  function HexValue(c: char): (n: Option<nat>)
    ensures n.Some? ==> n.value < 16
  {
    if '0' <= c <= '9' then Some(c as int - '0' as int)
    else if 'a' <= c <= 'f' then Some(c as int - 'a' as int + 10)
    else if 'A' <= c <= 'F' then Some(c as int - 'A' as int + 10)
    else None
  }

  function LowerHex(n: nat): (c: char)
    requires n < 16
    ensures HexValue(c) == Some(n) && c < 128 as char
  {
    if n < 10 then DigitOf(n) else ('a' as int + (n - 10)) as char
  }

  function UpperHex(n: nat): (c: char)
    requires n < 16
    ensures HexValue(c) == Some(n) && c != '&' && c != '='
  {
    if n < 10 then DigitOf(n) else ('A' as int + (n - 10)) as char
  }
}
