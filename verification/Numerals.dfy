// Numbers written in base b with the digits 0-9a-z, and read back.
module Numerals {
  import opened Wrappers

  predicate Base(b: int) { 2 <= b <= 36 }

  function Digit(d: nat): char
    requires d < 36
  {
    if d < 10 then ('0' as int + d) as char else ('a' as int + d - 10) as char
  }

  function DigitValue(c: char): Option<nat> {
    if '0' <= c <= '9' then Some(c as int - '0' as int)
    else if 'a' <= c <= 'z' then Some(c as int - 'a' as int + 10)
    else None
  }

  // The numeral of v: most significant digit first, no leading zero.
  function Numeral(v: nat, b: int): (s: string)
    requires Base(b)
    ensures |s| >= 1
    decreases v
  {
    if v < b then [Digit(v)]
    else
      QuotientShrinks(v, b);
      Numeral(v / b, b) + [Digit(v % b)]
  }

  function Signed(v: int, b: int): (s: string)
    requires Base(b)
  {
    if v < 0 then "-" + Numeral(-v, b) else Numeral(v, b)
  }

  function Read(s: string, b: int): Option<nat>
    requires Base(b)
  {
    if |s| == 0 then None
    else
      var d := DigitValue(s[|s| - 1]);
      if d.None? || d.value >= b then None
      else if |s| == 1 then d
      else
        var high := Read(s[..|s| - 1], b);
        if high.None? then None else Some(high.value * b + d.value)
  }

  function ReadSigned(s: string, b: int): Option<int>
    requires Base(b)
  {
    if |s| > 0 && s[0] == '-' then
      var m := Read(s[1..], b);
      if m.None? then None else Some(0 - m.value as int)
    else
      var m := Read(s, b);
      if m.None? then None else Some(m.value as int)
  }

  // The digits are 0-9 and a-z.
  lemma DigitIs(d: nat)
    requires d < 36
    ensures Digit(d) == "0123456789abcdefghijklmnopqrstuvwxyz"[d]
    ensures DigitValue(Digit(d)) == Some(d)
  {
  }

  lemma QuotientShrinks(v: nat, b: int)
    requires 2 <= b <= v
    ensures 0 < v / b < v
  {
  }

  lemma QuotientAndRemainder(v: nat, b: int)
    requires 2 <= b
    ensures v == v / b * b + v % b
  {
  }

  lemma {:induction false} ReadNumeral(v: nat, b: int)
    requires Base(b)
    ensures Read(Numeral(v, b), b) == Some(v)
    decreases v
  {
    if v >= b {
      QuotientShrinks(v, b);
      QuotientAndRemainder(v, b);
      ReadNumeral(v / b, b);
      assert Numeral(v, b)[..|Numeral(v, b)| - 1] == Numeral(v / b, b);
    }
  }

  predicate IsDigit(c: char) { DigitValue(c).Some? }

  lemma {:induction false} NumeralDigits(v: nat, b: int)
    requires Base(b)
    ensures forall c :: c in Numeral(v, b) ==> IsDigit(c)
    ensures v > 0 ==> Numeral(v, b)[0] != '0'
    decreases v
  {
    if v >= b {
      QuotientShrinks(v, b);
      NumeralDigits(v / b, b);
    }
  }

  lemma ReadSignedSigned(v: int, b: int)
    requires Base(b)
    ensures ReadSigned(Signed(v, b), b) == Some(v)
  {
    if v < 0 {
      ReadNumeral(-v, b);
      assert Signed(v, b)[1..] == Numeral(-v, b);
    } else {
      ReadNumeral(v, b);
      NumeralDigits(v, b);
      assert Signed(v, b)[0] in Numeral(v, b);
    }
  }

  // Every character of a signed numeral is a digit or the sign.
  lemma SignedCharacters(v: int, b: int)
    requires Base(b)
    ensures forall c :: c in Signed(v, b) ==> IsDigit(c) || c == '-'
  {
    NumeralDigits(if v < 0 then -v else v, b);
  }

  function Power2(k: nat): nat {
    if k == 0 then 1 else 2 * Power2(k - 1)
  }

  lemma HalfQuotient(v: nat, b: int)
    requires 2 <= b
    ensures v / b <= v / 2
  {
    QuotientAndRemainder(v, b);
    assert v / b * 2 <= v / b * b;
  }

  // A number of at most k bits has at most k digits, in every base.
  lemma {:induction false} NumeralLength(v: nat, b: int, k: nat)
    requires Base(b) && k >= 1 && v < Power2(k)
    ensures |Numeral(v, b)| <= k
    decreases k
  {
    if v >= b {
      QuotientShrinks(v, b);
      HalfQuotient(v, b);
      NumeralLength(v / b, b, k - 1);
    }
  }
}
