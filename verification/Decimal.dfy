/** Decimal numbers as text: printing, and reading them back. */
module Decimal {
  import opened Prelude

  const I64_MAX: int := 0x7fff_ffff_ffff_ffff
  const I64_MIN: int := -0x8000_0000_0000_0000

  predicate IsDigit(c: char) {
    '0' <= c <= '9'
  }

  predicate AllDigits(s: string) {
    forall i | 0 <= i < |s| :: IsDigit(s[i])
  }

  function DigitOf(n: nat): (c: char)
    requires n < 10
    ensures IsDigit(c) && c as int == '0' as int + n
  {
    ('0' as int + n) as char
  }

  function Print(n: nat): (s: string)
    ensures s != "" && AllDigits(s)
  {
    if n < 10 then [DigitOf(n)] else Print(n / 10) + [DigitOf(n % 10)]
  }

  function PrintInt(n: int): string {
    if n < 0 then "-" + Print(-n) else Print(n)
  }

  function Value(s: string): nat
    requires AllDigits(s)
  {
    if s == "" then 0 else 10 * Value(s[..|s| - 1]) + (s[|s| - 1] as int - '0' as int)
  }

  lemma {:induction false} ValueOfPrint(n: nat)
    ensures Value(Print(n)) == n
  {
    if n >= 10 {
      ValueOfPrint(n / 10);
      assert Print(n)[..|Print(n)| - 1] == Print(n / 10);
    } else {
      assert Print(n)[..0] == "";
    }
  }

  lemma PrintIsInjective(m: nat, n: nat)
    ensures Print(m) == Print(n) <==> m == n
  {
    ValueOfPrint(m);
    ValueOfPrint(n);
  }

  /** Reading a signed 64-bit number: an optional sign, then at least one digit, and the value in range. */
  function ParseI64(s: string): Option<int> {
    var unsigned := if s != "" && (s[0] == '-' || s[0] == '+') then s[1..] else s;
    if unsigned == "" || !AllDigits(unsigned) then None
    else
      var v: int := Value(unsigned);
      var n := if s[0] == '-' then -v else v;
      if I64_MIN <= n <= I64_MAX then Some(n) else None
  }

  lemma ParsePrinted(n: int)
    ensures ParseI64(PrintInt(n)) == if I64_MIN <= n <= I64_MAX then Some(n) else None
  {
    hide Print, Value;
    if n < 0 {
      ValueOfPrint(-n);
      assert PrintInt(n)[1..] == Print(-n);
    } else {
      ValueOfPrint(n);
      assert IsDigit(Print(n)[0]);
    }
  }

  /** Reading by example: signs, empty texts, other characters. */
  lemma NumbersByExample()
    ensures ParseI64("+5") == Some(5) && ParseI64("-5") == Some(-5) && ParseI64("05") == Some(5)
    ensures ParseI64("") == None && ParseI64("-") == None && ParseI64("+") == None && ParseI64("5x") == None
  {
    assert "+5"[1..] == "5" && "-5"[1..] == "5" && "5"[..0] == "" && "05"[..1] == "0" && "0"[..0] == "";
    assert "-"[1..] == "" && "+"[1..] == "";
    assert Value("5") == 5 && Value("0") == 0 && Value("05") == 5;
    assert !IsDigit("5x"[1]);
    hide Value;
  }

  /** And the ends of the range. */
  lemma RangeByExample()
    ensures ParseI64(PrintInt(9_223_372_036_854_775_807)) == Some(9_223_372_036_854_775_807)
    ensures ParseI64(PrintInt(-9_223_372_036_854_775_808)) == Some(-9_223_372_036_854_775_808)
    ensures ParseI64(PrintInt(9_223_372_036_854_775_808)) == None
    ensures ParseI64(PrintInt(-9_223_372_036_854_775_809)) == None
  {
    hide PrintInt, ParseI64;
    ParsePrinted(9_223_372_036_854_775_807);
    ParsePrinted(-9_223_372_036_854_775_808);
    ParsePrinted(9_223_372_036_854_775_808);
    ParsePrinted(-9_223_372_036_854_775_809);
  }
}
