/** Decimal text of an offense identifier, as Python's `str(int)` writes it
    inside an f-string, and the parse that reads it back. */
module Decimal {

  import opened Wrappers

  predicate IsDigit(c: char) {
    '0' <= c <= '9'
  }

  predicate AllDigits(s: string) {
    forall i :: 0 <= i < |s| ==> IsDigit(s[i])
  }

  function DigitChar(d: nat): (c: char)
    requires d < 10
    ensures IsDigit(c) && c as int - '0' as int == d
  {
    ('0' as int + d) as char
  }

  /** Digits of `n`, most significant first, without leading zeros. */
  function NatText(n: nat): (s: string)
    ensures |s| > 0 && AllDigits(s)
    ensures |s| > 1 ==> s[0] != '0'
    decreases n
  {
    if n < 10 then [DigitChar(n)] else NatText(n / 10) + [DigitChar(n % 10)]
  }

  /** `str(id)`: a minus sign for negative values, then the digits. */
  function IdText(id: int): (s: string)
    ensures |s| > 0
    ensures id >= 0 <==> IsDigit(s[0])
    ensures forall c :: c in s ==> c == '-' || IsDigit(c)
  {
    if id < 0 then "-" + NatText(-id) else NatText(id)
  }

  /** Value of a string of decimal digits. */
  function DigitsValue(s: string): nat
    requires AllDigits(s)
  {
    if s == [] then 0 else DigitsValue(s[..|s| - 1]) * 10 + (s[|s| - 1] as int - '0' as int)
  }

  /** Reads an identifier back from its decimal text (Python's `int(s)` on canonical text). */
  function ParseId(s: string): Option<int> {
    if |s| > 0 && s[0] == '-' && |s| > 1 && AllDigits(s[1..]) then Some(-(DigitsValue(s[1..]) as int))
    else if |s| > 0 && AllDigits(s) then Some(DigitsValue(s))
    else None
  }

  lemma {:induction false} NatTextValue(n: nat)
    ensures DigitsValue(NatText(n)) == n
    decreases n
  {
    if n >= 10 {
      var s := NatText(n);
      assert s[..|s| - 1] == NatText(n / 10);
      NatTextValue(n / 10);
    }
  }

  /** Decimal text round-trips: the text written for an identifier reads back as that identifier. */
  lemma ParseIdText(id: int)
    ensures ParseId(IdText(id)) == Some(id)
  {
    if id < 0 {
      var s := IdText(id);
      assert s[1..] == NatText(-id);
      NatTextValue(-id);
    } else {
      NatTextValue(id);
    }
  }

  /** Distinct identifiers have distinct texts, so a deep link names exactly one offense. */
  lemma IdTextInjective(a: int, b: int)
    ensures IdText(a) == IdText(b) ==> a == b
  {
    ParseIdText(a);
    ParseIdText(b);
  }
}
