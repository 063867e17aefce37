/** Decimal numerals as strconv and fmt write and read them. */
module Numerals {
  import opened Prelude

  function DigitChar(d: nat): (c: char)
    requires d < 10
    ensures '0' <= c <= '9'
  {
    ('0' as int + d) as char
  }

  predicate IsDigit(c: char) {
    '0' <= c <= '9'
  }

  function DigitValue(c: char): nat
    requires IsDigit(c)
  {
    c as int - '0' as int
  }

  function Decimal(n: nat): (s: string)
    ensures |s| > 0 && forall c <- s :: IsDigit(c)
  {
    if n < 10 then [DigitChar(n)] else Decimal(n / 10) + [DigitChar(n % 10)]
  }

  function IntText(n: int): string {
    if n < 0 then "-" + Decimal(-n) else Decimal(n)
  }

  /** The value of a digit string; None if it is empty or holds another character. */
  function DigitsValue(s: string): Option<nat> {
    if |s| == 0 || !IsDigit(s[|s| - 1]) then None
    else if |s| == 1 then Some(DigitValue(s[0]))
    else
      match DigitsValue(s[..|s| - 1])
      case None => None
      case Some(high) => Some(high * 10 + DigitValue(s[|s| - 1]))
  }

  lemma {:induction false} DigitsValueOfDecimal(n: nat)
    ensures DigitsValue(Decimal(n)) == Some(n)
  {
    if n >= 10 {
      DigitsValueOfDecimal(n / 10);
      assert Decimal(n)[..|Decimal(n)| - 1] == Decimal(n / 10);
    }
  }

  lemma DecimalInjective(m: nat, n: nat)
    requires Decimal(m) == Decimal(n)
    ensures m == n
  {
    DigitsValueOfDecimal(m);
    DigitsValueOfDecimal(n);
  }

  const INT64_LIMIT: int := 0x8000_0000_0000_0000

  /** strconv.Atoi and ParseInt(s, 10, 64): an optional sign, then digits, within 64 bits. */
  function Atoi(s: string): Option<int> {
    var negative := |s| > 0 && s[0] == '-';
    var digits := if |s| > 0 && (s[0] == '-' || s[0] == '+') then s[1..] else s;
    match DigitsValue(digits)
    case None => None
    case Some(n) =>
      var value: int := if negative then 0 - n else n;
      if -INT64_LIMIT <= value < INT64_LIMIT then Some(value) else None
  }

  lemma AtoiOfDecimal(n: nat)
    requires n < INT64_LIMIT
    ensures Atoi(Decimal(n)) == Some(n)
  {
    DigitsValueOfDecimal(n);
    assert IsDigit(Decimal(n)[0]);
  }

  /** Every 64-bit integer is read back from its text, and no other integer is read at all. */
  lemma AtoiOfIntText(n: int)
    ensures Atoi(IntText(n)) ==
            if -0x8000_0000_0000_0000 <= n < 0x8000_0000_0000_0000 then Some(n) else None
    ensures 0 <= n < 0x8000_0000_0000_0000 ==> Atoi("+" + IntText(n)) == Some(n)
  {
    var digits := Decimal(if n < 0 then -n else n);
    DigitsValueOfDecimal(if n < 0 then -n else n);
    assert IsDigit(digits[0]);
    assert ("-" + digits)[1..] == digits && ("+" + digits)[1..] == digits;
  }

  /** What holds no digits, or something else than a sign and digits, is no number. */
  lemma AtoiNone(s: string)
    requires s in {"", "-", "+"} || exists i :: 0 < i < |s| && !IsDigit(s[i])
    ensures Atoi(s) == None
  {
    if i :| 0 < i < |s| && !IsDigit(s[i]) {
      NoDigits(s, i);
      NoDigits(s[1..], i - 1);
    }
  }

  lemma {:induction false} NoDigits(s: string, i: nat)
    requires i < |s| && !IsDigit(s[i])
    ensures DigitsValue(s) == None
  {
    if i < |s| - 1 {
      NoDigits(s[..|s| - 1], i);
    }
  }
}
