// The signal-safe number printer of src/csapp.c, working in place on a
// NUL-terminated char buffer.
module Sio {
  import opened Wrappers
  import opened Seqs
  import opened Numerals

  // A C `long`: 64 bits, two's complement.
  const LONG_MIN: int := -0x8000_0000_0000_0000
  const LONG_MAX: int := 0x7fff_ffff_ffff_ffff

  predicate IsLong(v: int) { LONG_MIN <= v <= LONG_MAX }

  // -v on a long: negating the least value wraps around to itself.
  function Negate(v: int): int
    requires IsLong(v)
  {
    if v == LONG_MIN then LONG_MIN else -v
  }

  // The C operators / and %, which truncate toward zero.
  function Quotient(v: int, b: int): int
    requires b > 0
  {
    if v >= 0 then v / b else -(-v / b)
  }

  function Remainder(v: int, b: int): int
    requires b > 0
  {
    if v >= 0 then v % b else -(-v % b)
  }

  function Printed(c: int): char
    requires -36 < c < 36
  {
    if c < 10 then ('0' as int + c) as char else ('a' as int + c - 10) as char
  }

  // What sio_ltoa leaves in the buffer. For the least long the digit loop runs
  // once on a negative number and prints one character.
  function Text(v: int, b: int): string
    requires IsLong(v) && Base(b)
  {
    if v == LONG_MIN then ['-', Printed(Remainder(v, b))] else Signed(v, b)
  }

  // The printed text reads back as the number, except for the least long.
  lemma RoundTrip(v: int, b: int)
    requires IsLong(v) && Base(b)
    ensures ReadSigned(Text(v, b), b) == Some(v) <==> v != LONG_MIN
  {
    if v == LONG_MIN {
      assert Text(v, b)[1..] == [Printed(Remainder(v, b))];
    } else {
      ReadSignedSigned(v, b);
    }
  }

  // No leading zero, except in "0" itself and, for the least long, in the "-0" of the
  // bases that divide it.
  lemma NoLeadingZero(v: int, b: int)
    requires IsLong(v) && Base(b)
    ensures v == 0 ==> Text(v, b) == "0"
    ensures v > 0 ==> Text(v, b)[0] != '0' && Text(v, b)[0] != '-'
    ensures v < 0 ==> |Text(v, b)| >= 2 && Text(v, b)[0] == '-'
    ensures v < 0 ==> (Text(v, b)[1] == '0' <==> v == LONG_MIN && Remainder(v, b) == 0)
  {
    if v != LONG_MIN {
      NumeralDigits(if v < 0 then -v else v, b);
      if v > 0 {
        assert Text(v, b)[0] in Numeral(v, b);
      }
    }
  }

  // What is printed for the least long: a sign and one character, the last digit counted
  // down from '0'.
  lemma LeastLong(b: int)
    requires Base(b)
    ensures |Text(LONG_MIN, b)| == 2 && Text(LONG_MIN, b)[0] == '-'
    ensures Text(LONG_MIN, b)[1] as int == '0' as int - 0x8000_0000_0000_0000 % b
  {
  }

  lemma {:induction false} Power2Sum(j: nat, k: nat)
    ensures Power2(j + k) == Power2(j) * Power2(k)
  {
    if j > 0 {
      Power2Sum(j - 1, k);
    }
  }

  lemma PowersOfTwo()
    ensures Power2(63) == 0x8000_0000_0000_0000
  {
    assert Power2(7) == 2 * Power2(6) && Power2(6) == 2 * Power2(5) && Power2(5) == 2 * Power2(4);
    assert Power2(4) == 2 * Power2(3) && Power2(3) == 2 * Power2(2) && Power2(2) == 2 * Power2(1);
    Power2Sum(7, 7);
    Power2Sum(14, 7);
    Power2Sum(21, 21);
    Power2Sum(42, 21);
  }

  // At most 63 digits, a sign and the terminator.
  lemma TextLength(v: int, b: int)
    requires IsLong(v) && Base(b)
    ensures 1 <= |Text(v, b)| <= 64
  {
    if v != LONG_MIN {
      PowersOfTwo();
      NumeralLength(if v < 0 then -v else v, b, 63);
    }
  }

  lemma TextHasNoTerminator(v: int, b: int)
    requires IsLong(v) && Base(b)
    ensures '\0' !in Text(v, b)
  {
    if v != LONG_MIN {
      SignedCharacters(v, b);
    }
  }

  function Reversed(s: string): (r: string)
    ensures |r| == |s|
    ensures forall k :: 0 <= k < |s| ==> r[k] == s[|s| - 1 - k]
  {
    if s == [] then [] else Reversed(s[1..]) + [s[0]]
  }

  lemma ReversedTwice(s: string)
    ensures Reversed(Reversed(s)) == s
  {
  }

  // The number of characters before the first NUL of a buffer.
  function StrLen(s: seq<char>): nat {
    FirstIndex(s, c => c == '\0')
  }

  method SioStrlen(s: array<char>) returns (i: nat)
    requires '\0' in s[..]
    ensures i == StrLen(s[..]) && i < s.Length
  {
    i := 0;
    while s[i] != '\0'
      invariant i < s.Length
      invariant i <= StrLen(s[..]) < s.Length
      decreases s.Length - i
    {
      assert s[..][i] != '\0';
      i := i + 1;
    }
  }

  method SioReverse(s: array<char>)
    requires '\0' in s[..]
    modifies s
    ensures StrLen(old(s[..])) < s.Length
    ensures s[..StrLen(old(s[..]))] == Reversed(old(s[..StrLen(s[..])]))
    ensures forall k :: StrLen(old(s[..])) <= k < s.Length ==> s[k] == old(s[k])
  {
    var n := SioStrlen(s);
    var i, j := 0, n - 1;
    while i < j
      invariant 0 <= i <= n && j == n - 1 - i
      invariant i <= j + 1
      invariant forall k :: 0 <= k < i || j < k < n ==> s[k] == old(s[n - 1 - k])
      invariant forall k :: i <= k <= j || n <= k < s.Length ==> s[k] == old(s[k])
    {
      var c := s[i];
      s[i] := s[j];
      s[j] := c;
      i := i + 1;
      j := j - 1;
    }
    ghost var was := old(s[..n]);
    assert forall k :: 0 <= k < n ==> s[k] == Reversed(was)[k];
  }

  // The characters the digit loop emits for v, least significant first.
  function Emitted(v: int, b: int): (s: string)
    requires Base(b)
    ensures |s| >= 1
    decreases if v > 0 then v else 0
  {
    var c := [Printed(Remainder(v, b))];
    if Quotient(v, b) > 0 then
      QuotientShrinks(v, b);
      c + Emitted(Quotient(v, b), b)
    else c
  }

  lemma EmittedCons(v: nat, b: int)
    requires Base(b) && v >= b
    ensures Emitted(v, b) == [Digit(v % b)] + Emitted(v / b, b)
  {
    QuotientShrinks(v, b);
  }

  lemma NumeralSnoc(v: nat, b: int)
    requires Base(b) && v >= b
    ensures Numeral(v, b) == Numeral(v / b, b) + [Digit(v % b)]
  {
  }

  lemma SmallEmitted(v: nat, b: int)
    requires Base(b) && v < b
    ensures Emitted(v, b) == Numeral(v, b) == [Digit(v)]
  {
    assert v / b == 0 && v % b == v;
  }

  lemma ReversedCons(c: char, s: string)
    ensures Reversed([c] + s) == Reversed(s) + [c]
  {
    assert ([c] + s)[1..] == s;
  }

  lemma {:induction false} EmittedIsNumeral(v: nat, b: int)
    requires Base(b)
    ensures Reversed(Emitted(v, b)) == Numeral(v, b)
    decreases v
  {
    if v >= b {
      QuotientShrinks(v, b);
      EmittedIsNumeral(v / b, b);
      EmittedCons(v, b);
      NumeralSnoc(v, b);
      ReversedCons(Digit(v % b), Emitted(v / b, b));
    } else {
      SmallEmitted(v, b);
    }
  }

  lemma EmitNext(v: int, b: int, done: string, out: string)
    requires Base(b) && done + Emitted(v, b) == out
    ensures done + [Printed(Remainder(v, b))] <= out
    ensures Quotient(v, b) > 0 ==> done + [Printed(Remainder(v, b))] + Emitted(Quotient(v, b), b) == out
    ensures Quotient(v, b) <= 0 ==> done + [Printed(Remainder(v, b))] == out
  {
  }

  // What the loop and the sign leave in the buffer, before the reversal.
  function Unreversed(v: int, b: int): string
    requires IsLong(v) && Base(b)
  {
    if v < 0 then Emitted(Negate(v), b) + "-" else Emitted(v, b)
  }

  lemma UnreversedIsText(v: int, b: int)
    requires IsLong(v) && Base(b)
    ensures Reversed(Unreversed(v, b)) == Text(v, b)
  {
    if v < 0 {
      ReversedSnoc(Emitted(Negate(v), b), '-');
    }
    if v != LONG_MIN {
      EmittedIsNumeral(if v < 0 then -v else v, b);
    }
  }

  lemma {:induction false} ReversedSnoc(s: string, c: char)
    ensures Reversed(s + [c]) == [c] + Reversed(s)
  {
    if s != [] {
      assert (s + [c])[1..] == s[1..] + [c];
      ReversedSnoc(s[1..], c);
    }
  }

  // The do-while loop of sio_ltoa.
  method EmitDigits(v0: int, s: array<char>, b: int) returns (i: nat)
    requires Base(b) && |Emitted(v0, b)| <= s.Length
    modifies s
    ensures i == |Emitted(v0, b)|
    ensures s[..i] == Emitted(v0, b)
    ensures forall k :: i <= k < s.Length ==> s[k] == old(s[k])
  {
    var v := v0;
    ghost var out := Emitted(v0, b);
    ghost var done: string := "";
    assert done + Emitted(v, b) == out;
    var more := true;
    i := 0;
    while more                               // do { ... } while ((v /= b) > 0)
      invariant 0 <= i <= |out| && more == (i < |out|)
      invariant done == s[..i]
      invariant forall k :: i <= k < s.Length ==> s[k] == old(s[k])
      invariant if more then done + Emitted(v, b) == out else done == out
      decreases |out| - i
    {
      EmitNext(v, b, done, out);
      var c := Remainder(v, b);
      s[i] := Printed(c);
      i := i + 1;
      done := done + [Printed(c)];
      v := Quotient(v, b);
      more := v > 0;
    }
  }

  method SioLtoa(v0: int, s: array<char>, b: int)
    requires IsLong(v0) && Base(b)
    requires |Text(v0, b)| < s.Length
    modifies s
    ensures s[..|Text(v0, b)|] == Text(v0, b)
    ensures s[|Text(v0, b)|] == '\0'
    ensures forall k :: |Text(v0, b)| < k < s.Length ==> s[k] == old(s[k])
  {
    var v := v0;
    var neg := v < 0;
    if neg {
      v := Negate(v);
    }
    UnreversedIsText(v0, b);
    TextHasNoTerminator(v0, b);
    var i := EmitDigits(v, s, b);
    SignAndReverse(s, i, neg, Text(v0, b));
  }

  // The tail of sio_ltoa: sign, terminator, reversal.
  method SignAndReverse(s: array<char>, n: nat, neg: bool, ghost text: string)
    requires n <= |text| < s.Length && '\0' !in text
    requires Reversed(s[..n] + if neg then "-" else "") == text
    modifies s
    ensures s[..|text|] == text
    ensures s[|text|] == '\0'
    ensures forall k :: |text| < k < s.Length ==> s[k] == old(s[k])
  {
    var i := n;
    ghost var done := s[..n] + if neg then "-" else "";
    if neg {
      s[i] := '-';
      i := i + 1;
    }
    s[i] := '\0';
    assert s[..i] == done;
    forall k | 0 <= k < i ensures s[..][k] != '\0' {
      assert s[k] == done[k] == text[i - 1 - k];
    }
    assert s[..][i] == '\0';
    assert StrLen(s[..]) == i;
    SioReverse(s);
  }

  // The 128-byte buffer of sio_putl holds every long; what is written out is its text.
  method SioPutl(v: int) returns (written: string)
    requires IsLong(v)
    ensures written == Text(v, 10)
  {
    var s := new char[128];
    TextLength(v, 10);
    SioLtoa(v, s, 10);
    TextHasNoTerminator(v, 10);
    assert s[..][|Text(v, 10)|] == '\0';
    var n := SioStrlen(s);
    assert forall k :: 0 <= k < |Text(v, 10)| ==> s[..][k] == Text(v, 10)[k] && s[..][k] in Text(v, 10);
    assert n == |Text(v, 10)|;
    written := s[..n];
  }
}
