/** Timestamp identifiers: 53 bits of microseconds and a 10-bit clock id, written as
    13 digits of a base-32 alphabet whose character order is its digit order. */
module Tid {
  import opened Common
  import opened Order

  const ALPHABET: string := "234567abcdefghijklmnopqrstuvwxyz"
  const TWO_53: nat := 0x20_0000_0000_0000
  const TWO_63: nat := 0x8000_0000_0000_0000

  function Digit(d: nat): char
    requires d < 32
  {
    ALPHABET[d]
  }

  function DigitValue(c: char): int {
    if c <= '7' then c as int - '2' as int else c as int - 'a' as int + 6
  }

  predicate IsDigit(c: char) {
    '2' <= c <= '7' || 'a' <= c <= 'z'
  }

  function Pow32(n: nat): nat {
    if n == 0 then 1 else 32 * Pow32(n - 1)
  }

  /** The n low base-32 digits of v, most significant first. */
  function Digits(v: nat, n: nat): (s: string)
    ensures |s| == n
  {
    if n == 0 then [] else Digits(v / 32, n - 1) + [Digit(v % 32)]
  }

  /** The number a digit text denotes. */
  function Integer(s: string): int {
    if s == [] then 0 else Integer(s[..|s| - 1]) * 32 + DigitValue(s[|s| - 1])
  }

  function Packed(micros: int, clock: nat): nat {
    micros % TWO_53 * 1024 + clock % 1024
  }

  function Text(micros: int, clock: nat): string {
    Digits(Packed(micros, clock), 13)
  }

  function Micros(s: string): int { Integer(s) / 1024 % TWO_53 }

  function ClockId(s: string): int { Integer(s) % 1024 }

  /** A TID whose top bit is clear, as the TID syntax asks. */
  ghost predicate Canonical(s: string) {
    |s| == 13 && (forall i :: 0 <= i < 13 ==> IsDigit(s[i])) && Integer(s) < TWO_63
  }

  /** Build the text the way the publishing script does: 13 times, take the low five
      bits and shift; then turn the digits round. */
  method Encode(micros: int, clock: nat) returns (s: string)
    requires clock < 1024
    ensures s == Text(micros, clock)
  {
    var v: nat := micros % TWO_53 * 1024 + clock;
    v := v % TWO_63;
    var out: string := [];
    ghost var v0 := v;
    assert v0 == Packed(micros, clock);
    for i := 0 to 13
      invariant |out| == i
      invariant Digits(v0, 13) == Digits(v, 13 - i) + Reversed(out)
    {
      assert Digits(v, 13 - i) == Digits(v / 32, 12 - i) + [Digit(v % 32)];
      ghost var was := out;
      out := out + [ALPHABET[v % 32]];
      assert Reversed(out) == [ALPHABET[v % 32]] + Reversed(was);
      v := v / 32;
    }
    s := Reversed(out);
  }

  // ----- proofs -----

  lemma DigitRoundTrip(d: nat)
    requires d < 32
    ensures IsDigit(Digit(d)) && DigitValue(Digit(d)) == d
  {
    assert ALPHABET[d] == if d < 6 then ('2' as int + d) as char else ('a' as int + d - 6) as char;
  }

  lemma {:induction false} DigitsDecode(v: nat, n: nat)
    requires v < Pow32(n)
    ensures Integer(Digits(v, n)) == v
    ensures forall i :: 0 <= i < n ==> IsDigit(Digits(v, n)[i])
  {
    if n > 0 {
      DigitsDecode(v / 32, n - 1);
      DigitRoundTrip(v % 32);
      assert Digits(v, n)[..n - 1] == Digits(v / 32, n - 1);
    }
  }

  lemma {:induction false} DigitsEncode(s: string)
    requires forall i :: 0 <= i < |s| ==> IsDigit(s[i])
    ensures 0 <= Integer(s) < Pow32(|s|)
    ensures Digits(Integer(s), |s|) == s
  {
    if s != [] {
      var t := s[..|s| - 1];
      DigitsEncode(t);
      var d := DigitValue(s[|s| - 1]);
      assert 0 <= d < 32 && Digit(d) == s[|s| - 1];
      assert Integer(s) / 32 == Integer(t) && Integer(s) % 32 == d;
      assert s == t + [s[|s| - 1]];
    }
  }

  /** Text order of n-digit numbers is number order. */
  lemma {:induction false} DigitsOrder(a: nat, b: nat, n: nat)
    requires a < Pow32(n) && b < Pow32(n)
    ensures Less(Digits(a, n), Digits(b, n)) <==> a < b
  {
    if n > 0 {
      LastDigitOrder(a, b);
      var s, t := Digits(a / 32, n - 1), Digits(b / 32, n - 1);
      var x, y := [Digit(a % 32)], [Digit(b % 32)];
      DigitsOrder(a / 32, b / 32, n - 1);
      DigitsDecode(a / 32, n - 1);
      DigitsDecode(b / 32, n - 1);
      if s == t {
        LessSamePrefix(s, x, y);
        DigitOrder(a % 32, b % 32);
      } else {
        LessHeads(s, t, x, y);
      }
    }
  }

  lemma LastDigitOrder(a: nat, b: nat)
    ensures a < b <==> a / 32 < b / 32 || (a / 32 == b / 32 && a % 32 < b % 32)
  {
  }

  lemma DigitOrder(d: nat, e: nat)
    requires d < 32 && e < 32
    ensures Less([Digit(d)], [Digit(e)]) <==> d < e
  {
    DigitRoundTrip(d);
    DigitRoundTrip(e);
  }

  lemma PackedBounds(micros: nat, clock: nat)
    requires micros < TWO_53 && clock < 1024
    ensures Packed(micros, clock) == micros * 1024 + clock < TWO_63
    ensures Packed(micros, clock) / 1024 == micros && Packed(micros, clock) % 1024 == clock
  {
  }

  /** 13 digits hold every 63-bit number. */
  lemma ThirteenDigits(n: nat)
    requires n == 13
    ensures TWO_63 <= Pow32(n)
  {
    assert Pow32(13) == 0x2_0000_0000_0000_0000;
  }

  lemma TextDecodes(micros: nat, clock: nat)
    requires micros < TWO_53 && clock < 1024
    ensures Integer(Text(micros, clock)) == Packed(micros, clock) < TWO_63
    ensures forall i :: 0 <= i < 13 ==> IsDigit(Text(micros, clock)[i])
  {
    var n: nat :| n == 13;
    PackedBounds(micros, clock);
    ThirteenDigits(n);
    DigitsDecode(Packed(micros, clock), n);
  }

  /** 13 digits hold every packed value, so both fields come back and the 63-bit mask
      is the identity. */
  lemma TextRoundTrip(micros: nat, clock: nat)
    requires micros < TWO_53 && clock < 1024
    ensures |Text(micros, clock)| == 13 && Canonical(Text(micros, clock))
    ensures Micros(Text(micros, clock)) == micros && ClockId(Text(micros, clock)) == clock
    ensures Packed(micros, clock) % TWO_63 == Packed(micros, clock)
  {
    TextDecodes(micros, clock);
    PackedBounds(micros, clock);
  }

  lemma Unpack(v: nat)
    requires v < TWO_63
    ensures v / 1024 < TWO_53 && v / 1024 % TWO_53 == v / 1024
    ensures Packed(v / 1024 % TWO_53, v % 1024) == v
  {
    PackedBounds(v / 1024, v % 1024);
  }

  lemma CanonicalIsText(s: string)
    requires Canonical(s)
    ensures 0 <= Micros(s) < TWO_53 && 0 <= ClockId(s) < 1024
    ensures Text(Micros(s), ClockId(s)) == s
  {
    DigitsEncode(s);
    Unpack(Integer(s));
  }

  /** Sorting TID texts sorts by time, then by clock id. */
  lemma TextOrder(m: nat, c: nat, m': nat, c': nat)
    requires m < TWO_53 && m' < TWO_53 && c < 1024 && c' < 1024
    ensures Less(Text(m, c), Text(m', c')) <==> m < m' || (m == m' && c < c')
  {
    var n: nat :| n == 13;
    PackedBounds(m, c);
    PackedBounds(m', c');
    ThirteenDigits(n);
    DigitsOrder(Packed(m, c), Packed(m', c'), n);
  }
}
