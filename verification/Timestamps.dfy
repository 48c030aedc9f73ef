/** Instants written as text, and what comparing the texts says about the instants.

    Expiry columns hold RFC 3339 seconds; the event log holds RFC 3339 with a fraction whose
    trailing zeros are dropped. Both are compared as strings. */
module Timestamps {
  import opened Order

  /** A UTC instant of the years 0 to 9999. */
  datatype Instant = Instant(year: nat, month: nat, day: nat, hour: nat, minute: nat, second: nat, nano: nat)

  predicate Leap(y: nat) {
    y % 4 == 0 && (y % 100 != 0 || y % 400 == 0)
  }

  function DaysIn(y: nat, m: nat): nat {
    if m == 2 then (if Leap(y) then 29 else 28)
    else if m == 4 || m == 6 || m == 9 || m == 11 then 30
    else 31
  }

  /** Days of year y before month m. */
  function DaysBeforeMonth(y: nat, m: nat): nat {
    if m <= 1 then 0 else DaysBeforeMonth(y, m - 1) + DaysIn(y, m - 1)
  }

  function DaysBeforeYear(y: nat): nat {
    if y == 0 then 0 else DaysBeforeYear(y - 1) + DaysBeforeMonth(y - 1, 13)
  }

  predicate Valid(t: Instant) {
    && t.year <= 9999 && 1 <= t.month <= 12 && 1 <= t.day <= DaysIn(t.year, t.month)
    && t.hour < 24 && t.minute < 60 && t.second < 60 && t.nano < 1_000_000_000
  }

  function DayNumber(t: Instant): int {
    DaysBeforeYear(t.year) + DaysBeforeMonth(t.year, t.month) + t.day - 1
  }

  function SecondOfDay(t: Instant): nat {
    t.hour * 3600 + t.minute * 60 + t.second
  }

  /** Whole seconds since the start of year 0. */
  function Seconds(t: Instant): int {
    DayNumber(t) * 86400 + SecondOfDay(t)
  }

  // ----- the texts -----

  function Pow10(n: nat): nat {
    if n == 0 then 1 else 10 * Pow10(n - 1)
  }

  function Digit(d: nat): char
    requires d < 10
  {
    '0' + d as char
  }

  /** The n low decimal digits of v. */
  function Decimal(v: nat, n: nat): (s: string)
    ensures |s| == n
  {
    if n == 0 then [] else Decimal(v / 10, n - 1) + [Digit(v % 10)]
  }

  function DateText(t: Instant): string {
    Decimal(t.year, 4) + ("-" + (Decimal(t.month, 2) + ("-" + Decimal(t.day, 2))))
  }

  function TimeText(t: Instant): string {
    Decimal(t.hour, 2) + (":" + (Decimal(t.minute, 2) + (":" + Decimal(t.second, 2))))
  }

  function SecondText(t: Instant): string {
    DateText(t) + ("T" + TimeText(t))
  }

  /** Seconds precision: the expiry columns. */
  function Rfc3339(t: Instant): string {
    SecondText(t) + "Z"
  }

  function Trim(s: string): string {
    if s == [] || s[|s| - 1] != '0' then s else Trim(s[..|s| - 1])
  }

  /** The fraction's digits without trailing zeros; none for a whole second. */
  function Fraction(t: Instant): string {
    Trim(Decimal(t.nano, 9))
  }

  function Tail(digits: string): string {
    (if digits == "" then "" else "." + digits) + "Z"
  }

  /** Nanoseconds precision with trailing zeros dropped: the event log. */
  function Rfc3339Nano(t: Instant): string {
    SecondText(t) + Tail(Fraction(t))
  }

  // ----- calendar order -----

  lemma {:induction false} MonthsAscend(y: nat, m: nat, m': nat)
    requires 1 <= m < m'
    ensures DaysBeforeMonth(y, m) + DaysIn(y, m) <= DaysBeforeMonth(y, m')
  {
    if m + 1 < m' {
      MonthsAscend(y, m, m' - 1);
    }
  }

  lemma {:induction false} YearsAscend(y: nat, y': nat)
    requires y < y'
    ensures DaysBeforeYear(y) + DaysBeforeMonth(y, 13) <= DaysBeforeYear(y')
  {
    if y + 1 < y' {
      YearsAscend(y, y' - 1);
    }
  }

  ghost predicate DateBefore(a: Instant, b: Instant) {
    a.year < b.year || (a.year == b.year && (a.month < b.month || (a.month == b.month && a.day < b.day)))
  }

  ghost predicate SameDate(a: Instant, b: Instant) {
    a.year == b.year && a.month == b.month && a.day == b.day
  }

  lemma DateBeforeDays(a: Instant, b: Instant)
    requires Valid(a) && Valid(b) && DateBefore(a, b)
    ensures DayNumber(a) < DayNumber(b)
  {
    MonthsAscend(a.year, a.month, 13);
    if a.year < b.year {
      YearsAscend(a.year, b.year);
    } else if a.month < b.month {
      MonthsAscend(a.year, a.month, b.month);
    }
  }

  lemma DaysOrder(a: Instant, b: Instant)
    requires Valid(a) && Valid(b)
    ensures DateBefore(a, b) <==> DayNumber(a) < DayNumber(b)
    ensures SameDate(a, b) <==> DayNumber(a) == DayNumber(b)
  {
    if DateBefore(a, b) {
      DateBeforeDays(a, b);
    } else if DateBefore(b, a) {
      DateBeforeDays(b, a);
    }
  }

  ghost predicate TimeBefore(a: Instant, b: Instant) {
    a.hour < b.hour || (a.hour == b.hour && (a.minute < b.minute || (a.minute == b.minute && a.second < b.second)))
  }

  ghost predicate SameTime(a: Instant, b: Instant) {
    a.hour == b.hour && a.minute == b.minute && a.second == b.second
  }

  lemma SecondsOrder(a: Instant, b: Instant)
    requires Valid(a) && Valid(b)
    ensures Seconds(a) < Seconds(b) <==> DateBefore(a, b) || (SameDate(a, b) && TimeBefore(a, b))
    ensures Seconds(a) == Seconds(b) <==> SameDate(a, b) && SameTime(a, b)
  {
    DaysOrder(a, b);
    assert TimeBefore(a, b) <==> SecondOfDay(a) < SecondOfDay(b);
    assert SameTime(a, b) <==> SecondOfDay(a) == SecondOfDay(b);
    assert SecondOfDay(a) < 86400 && SecondOfDay(b) < 86400;
  }

  // ----- text order -----

  /** Comparing concatenations with heads of one length. */
  lemma LessConcat(a: string, b: string, s: string, t: string)
    requires |a| == |b|
    ensures Less(a + s, b + t) <==> Less(a, b) || (a == b && Less(s, t))
    ensures a + s == b + t <==> a == b && s == t
  {
    if a == b {
      LessSamePrefix(a, s, t);
      LessTotal(a, a);
    } else {
      LessHeads(a, b, s, t);
    }
    if a + s == b + t {
      assert a == (a + s)[..|a|] && s == (a + s)[|a|..];
      assert b == (b + t)[..|a|] && t == (b + t)[|a|..];
    }
  }

  lemma LastDigit(a: nat, b: nat)
    ensures a < b <==> a / 10 < b / 10 || (a / 10 == b / 10 && a % 10 < b % 10)
    ensures a == b <==> a / 10 == b / 10 && a % 10 == b % 10
  {
  }

  lemma {:induction false} DecimalOrder(a: nat, b: nat, n: nat)
    requires a < Pow10(n) && b < Pow10(n)
    ensures Less(Decimal(a, n), Decimal(b, n)) <==> a < b
    ensures Decimal(a, n) == Decimal(b, n) <==> a == b
  {
    if n > 0 {
      LastDigit(a, b);
      DecimalOrder(a / 10, b / 10, n - 1);
      LessConcat(Decimal(a / 10, n - 1), Decimal(b / 10, n - 1), [Digit(a % 10)], [Digit(b % 10)]);
    }
  }

  /** A field, a separator, and the rest. */
  lemma FieldOrder(a: nat, b: nat, n: nat, sep: string, s: string, t: string)
    requires a < Pow10(n) && b < Pow10(n)
    ensures Less(Decimal(a, n) + (sep + s), Decimal(b, n) + (sep + t)) <==> a < b || (a == b && Less(s, t))
    ensures Decimal(a, n) + (sep + s) == Decimal(b, n) + (sep + t) <==> a == b && s == t
  {
    DecimalOrder(a, b, n);
    LessConcat(Decimal(a, n), Decimal(b, n), sep + s, sep + t);
    LessConcat(sep, sep, s, t);
    LessTotal(sep, sep);
  }

  lemma FieldSizes()
    ensures Pow10(2) == 100 && Pow10(4) == 10000 && Pow10(9) == 1_000_000_000
  {
  }

  lemma DateTextOrder(a: Instant, b: Instant)
    requires Valid(a) && Valid(b)
    ensures Less(DateText(a), DateText(b)) <==> DateBefore(a, b)
    ensures DateText(a) == DateText(b) <==> SameDate(a, b)
  {
    FieldSizes();
    DecimalOrder(a.day, b.day, 2);
    FieldOrder(a.month, b.month, 2, "-", Decimal(a.day, 2), Decimal(b.day, 2));
    FieldOrder(a.year, b.year, 4, "-", Decimal(a.month, 2) + ("-" + Decimal(a.day, 2)),
        Decimal(b.month, 2) + ("-" + Decimal(b.day, 2)));
  }

  lemma TimeTextOrder(a: Instant, b: Instant)
    requires Valid(a) && Valid(b)
    ensures Less(TimeText(a), TimeText(b)) <==> TimeBefore(a, b)
    ensures TimeText(a) == TimeText(b) <==> SameTime(a, b)
  {
    FieldSizes();
    DecimalOrder(a.second, b.second, 2);
    FieldOrder(a.minute, b.minute, 2, ":", Decimal(a.second, 2), Decimal(b.second, 2));
    FieldOrder(a.hour, b.hour, 2, ":", Decimal(a.minute, 2) + (":" + Decimal(a.second, 2)),
        Decimal(b.minute, 2) + (":" + Decimal(b.second, 2)));
  }

  lemma SecondTextOrder(a: Instant, b: Instant)
    requires Valid(a) && Valid(b)
    ensures |SecondText(a)| == |SecondText(b)|
    ensures Less(SecondText(a), SecondText(b)) <==> Seconds(a) < Seconds(b)
    ensures SecondText(a) == SecondText(b) <==> Seconds(a) == Seconds(b)
  {
    SecondsOrder(a, b);
    DateTextOrder(a, b);
    TimeTextOrder(a, b);
    LessConcat(DateText(a), DateText(b), "T" + TimeText(a), "T" + TimeText(b));
    LessConcat("T", "T", TimeText(a), TimeText(b));
    LessTotal("T", "T");
  }

  /** Expiry tests compare whole seconds: text order of RFC 3339 is time order. */
  lemma ExpiryTextOrder(a: Instant, b: Instant)
    requires Valid(a) && Valid(b)
    ensures Less(Rfc3339(a), Rfc3339(b)) <==> Seconds(a) < Seconds(b)
    ensures Rfc3339(a) == Rfc3339(b) <==> Seconds(a) == Seconds(b)
  {
    SecondTextOrder(a, b);
    LessConcat(SecondText(a), SecondText(b), "Z", "Z");
    LessTotal("Z", "Z");
  }

  // ----- fractions -----

  ghost predicate AllDigits(s: string) {
    forall i :: 0 <= i < |s| ==> '0' <= s[i] <= '9'
  }

  ghost predicate Zeros(s: string) {
    forall i :: 0 <= i < |s| ==> s[i] == '0'
  }

  lemma {:induction false} DecimalDigits(v: nat, n: nat)
    ensures AllDigits(Decimal(v, n))
  {
    if n > 0 { DecimalDigits(v / 10, n - 1); }
  }

  lemma {:induction false} TrimSplits(s: string)
    ensures Trim(s) <= s && Zeros(s[|Trim(s)|..])
  {
    if s != [] && s[|s| - 1] == '0' {
      TrimSplits(s[..|s| - 1]);
      assert s[|Trim(s)|..] == s[..|s| - 1][|Trim(s)|..] + ['0'];
    }
  }

  lemma {:induction false} TrimZeros(s: string, z: string)
    requires Zeros(z)
    ensures Trim(s + z) == Trim(s)
  {
    if z == [] {
      assert s + z == s;
    } else {
      var t := s + z;
      assert t[..|t| - 1] == s + z[..|z| - 1];
      TrimZeros(s, z[..|z| - 1]);
    }
  }

  /** If neither head is a prefix of the other, what follows does not matter. */
  lemma {:induction false} LessNoPrefix(p: string, q: string, s: string, t: string)
    requires !(p <= q) && !(q <= p)
    ensures Less(p + s, q + t) <==> Less(p, q)
  {
    assert p != [] && q != [];
    assert (p + s)[1..] == p[1..] + s && (q + t)[1..] == q[1..] + t;
    if p[0] == q[0] {
      assert p == [p[0]] + p[1..] && q == [q[0]] + q[1..];
      LessNoPrefix(p[1..], q[1..], s, t);
    }
  }

  lemma {:induction false} ZerosLeast(s: string, z: string)
    requires |s| == |z| && AllDigits(s) && Zeros(z)
    ensures !Less(s, z)
  {
    if s != [] { ZerosLeast(s[1..], z[1..]); }
  }

  /** Digits that go on sort before digits that stop, because every digit precedes 'Z'. */
  lemma LongerSortsFirst(p: string, q: string)
    requires p < q && AllDigits(q)
    ensures Less(Tail(q), Tail(p)) && !Less(Tail(p), Tail(q))
  {
    if p == "" {
      assert Tail(q)[0] == '.' && Tail(p)[0] == 'Z';
    } else {
      var rest := q[|p|..];
      assert Tail(p) == ("." + p) + "Z" && Tail(q) == ("." + p) + (rest + "Z");
      LessSamePrefix("." + p, "Z", rest + "Z");
      LessSamePrefix("." + p, rest + "Z", "Z");
    }
  }

  /** Two instants of one second: the texts are in time order unless the earlier instant's
      digits are a prefix of the later one's, and then they are in the opposite order. */
  lemma SameSecondOrder(a: Instant, b: Instant)
    requires Valid(a) && Valid(b) && Seconds(a) == Seconds(b) && a.nano < b.nano
    ensures Less(Rfc3339Nano(a), Rfc3339Nano(b)) <==> !(Fraction(a) <= Fraction(b))
    ensures Less(Rfc3339Nano(b), Rfc3339Nano(a)) <==> Fraction(a) <= Fraction(b)
  {
    SecondTextOrder(a, b);
    LessSamePrefix(SecondText(a), Tail(Fraction(a)), Tail(Fraction(b)));
    LessSamePrefix(SecondText(a), Tail(Fraction(b)), Tail(Fraction(a)));
    FractionOrder(a.nano, b.nano);
  }

  lemma FractionOrder(m: nat, n: nat)
    requires m < n < 1_000_000_000
    ensures var p, q := Trim(Decimal(m, 9)), Trim(Decimal(n, 9));
      (Less(Tail(p), Tail(q)) <==> !(p <= q)) && (Less(Tail(q), Tail(p)) <==> p <= q)
  {
    var x, y := Decimal(m, 9), Decimal(n, 9);
    var p, q := Trim(x), Trim(y);
    FieldSizes();
    DecimalOrder(m, n, 9);
    DecimalDigits(m, 9);
    DecimalDigits(n, 9);
    TrimSplits(x);
    TrimSplits(y);
    LaterIsNoPrefix(x, y, p, q);
    if p <= q {
      LongerSortsFirst(p, q);
    } else {
      NoPrefixTails(x, y, p, q);
    }
  }

  lemma LaterIsNoPrefix(x: string, y: string, p: string, q: string)
    requires |x| == |y| && Less(x, y) && AllDigits(x)
    requires p <= x && q <= y && Zeros(x[|p|..]) && Zeros(y[|q|..])
    ensures !(q <= p)
  {
    if q <= p {
      var s, z := x[|q|..], y[|q|..];
      assert x == q + s && y == q + z;
      LessSamePrefix(q, s, z);
      ZerosLeast(s, z);
    }
  }

  lemma NoPrefixTails(x: string, y: string, p: string, q: string)
    requires |x| == |y| && Less(x, y)
    requires p <= x && q <= y && !(p <= q) && !(q <= p)
    ensures Less(Tail(p), Tail(q)) && !Less(Tail(q), Tail(p))
  {
    assert x == p + x[|p|..] && y == q + y[|q|..];
    LessNoPrefix(p, q, x[|p|..], y[|q|..]);
    LessNoPrefix(p, q, "Z", "Z");
    assert Tail(p) == "." + (p + "Z") && Tail(q) == "." + (q + "Z");
    LessSamePrefix(".", p + "Z", q + "Z");
    LessTotal(Tail(p), Tail(q));
  }

  /** In different seconds the event log's text order is time order. */
  lemma LogTextOrder(a: Instant, b: Instant)
    requires Valid(a) && Valid(b) && Seconds(a) != Seconds(b)
    ensures Less(Rfc3339Nano(a), Rfc3339Nano(b)) <==> Seconds(a) < Seconds(b)
  {
    SecondTextOrder(a, b);
    LessConcat(SecondText(a), SecondText(b), Tail(Fraction(a)), Tail(Fraction(b)));
  }

  lemma HalfFraction()
    ensures Trim(Decimal(500_000_000, 9)) == "5"
  {
    assert Decimal(500_000_000, 9) == "5" + "00000000";
    TrimZeros("5", "00000000");
  }

  lemma FiftyFiveFraction()
    ensures Trim(Decimal(550_000_000, 9)) == "55"
  {
    assert Decimal(550_000_000, 9) == "55" + "0000000";
    TrimZeros("55", "0000000");
  }

  /** Half a second sorts after fifty-five hundredths of the same second. */
  lemma HalfSecondExample(t: Instant)
    requires Valid(t)
    ensures Less(Rfc3339Nano(t.(nano := 550_000_000)), Rfc3339Nano(t.(nano := 500_000_000)))
  {
    HalfFraction();
    FiftyFiveFraction();
    SameSecondOrder(t.(nano := 500_000_000), t.(nano := 550_000_000));
  }

  // ----- what a text says -----

  /** The number written in these digits. */
  function Value(s: string): int {
    if s == [] then 0 else Value(s[..|s| - 1]) * 10 + (s[|s| - 1] as int - '0' as int)
  }

  lemma {:induction false} DecimalValue(v: nat, n: nat)
    requires v < Pow10(n)
    ensures Value(Decimal(v, n)) == v
  {
    if n > 0 {
      DecimalValue(v / 10, n - 1);
    }
  }

  lemma SmallPowers()
    ensures Pow10(2) == 100 && Pow10(4) == 10000 && Pow10(9) == 1_000_000_000
  {
    assert Pow10(1) == 10 && Pow10(3) == 1000 && Pow10(5) == 100000 && Pow10(6) == 1000000;
    assert Pow10(7) == 10000000 && Pow10(8) == 100000000;
  }

  /** Date and time parts, digit by digit position. */
  ghost predicate ReadsAs(s: string, year: nat, month: nat, day: nat, hour: nat, minute: nat, second: nat) {
    && |s| == 19 && s[4] == '-' && s[7] == '-' && s[10] == 'T' && s[13] == ':' && s[16] == ':'
    && Value(s[0..4]) == year && Value(s[5..7]) == month && Value(s[8..10]) == day
    && Value(s[11..13]) == hour && Value(s[14..16]) == minute && Value(s[17..19]) == second
  }

  lemma SecondTextReads(t: Instant)
    requires Valid(t)
    ensures ReadsAs(SecondText(t), t.year, t.month, t.day, t.hour, t.minute, t.second)
  {
    SmallPowers();
    DecimalValue(t.year, 4);
    DecimalValue(t.month, 2);
    DecimalValue(t.day, 2);
    DecimalValue(t.hour, 2);
    DecimalValue(t.minute, 2);
    DecimalValue(t.second, 2);
    hide Value, Decimal, Pow10;
    Fields(Decimal(t.year, 4), Decimal(t.month, 2), Decimal(t.day, 2), Decimal(t.hour, 2), Decimal(t.minute, 2),
      Decimal(t.second, 2));
  }

  /** Fields of fixed lengths with marks between them. */
  lemma Fields(y: string, mo: string, d: string, h: string, mi: string, sec: string)
    requires |y| == 4 && |mo| == |d| == |h| == |mi| == |sec| == 2
    ensures var s := (y + ("-" + (mo + ("-" + d)))) + ("T" + (h + (":" + (mi + (":" + sec)))));
      && |s| == 19 && s[4] == '-' && s[7] == '-' && s[10] == 'T' && s[13] == ':' && s[16] == ':'
      && s[0..4] == y && s[5..7] == mo && s[8..10] == d && s[11..13] == h && s[14..16] == mi && s[17..19] == sec
  {
    Three(y, mo, d, "-");
    Three(h, mi, sec, ":");
    var date, time := y + ("-" + (mo + ("-" + d))), h + (":" + (mi + (":" + sec)));
    var s := date + ("T" + time);
    assert s[..10] == date && s[11..] == time;
    assert s[0..4] == date[0..4] && s[5..7] == date[5..7] && s[8..10] == date[8..10];
    assert s[11..13] == time[0..2] && s[14..16] == time[3..5] && s[17..19] == time[6..8];
  }

  lemma Three(a: string, b: string, c: string, mark: string)
    requires |b| == |c| == 2 && |mark| == 1
    ensures var s := a + (mark + (b + (mark + c)));
      && |s| == |a| + 6 && s[|a|] == mark[0] && s[|a| + 3] == mark[0]
      && s[..|a|] == a && s[|a| + 1..|a| + 3] == b && s[|a| + 4..|a| + 6] == c
  {
  }

  /** So many zeros. */
  function ZeroText(n: nat): string {
    if n == 0 then [] else ZeroText(n - 1) + "0"
  }

  lemma {:induction false} TrimPads(s: string) returns (n: nat)
    ensures Trim(s) + ZeroText(n) == s && (Trim(s) == [] || Trim(s)[|Trim(s)| - 1] != '0')
  {
    n := 0;
    if s != [] && s[|s| - 1] == '0' {
      n := TrimPads(s[..|s| - 1]);
      assert Trim(s) + (ZeroText(n) + "0") == (Trim(s) + ZeroText(n)) + "0";
      n := n + 1;
    }
  }

  /** Both texts can be read back: date and time in fixed places, then for the log a point and the
      nanoseconds without their trailing zeros unless there are none, then Z. */
  lemma TextsRead(t: Instant) returns (digits: string, zeros: nat)
    requires Valid(t)
    ensures Rfc3339(t) == SecondText(t) + "Z"
    ensures Rfc3339Nano(t) == SecondText(t) + (if digits == "" then "" else "." + digits) + "Z"
    ensures ReadsAs(SecondText(t), t.year, t.month, t.day, t.hour, t.minute, t.second)
    ensures |digits + ZeroText(zeros)| == 9 && Value(digits + ZeroText(zeros)) == t.nano
    ensures digits == "" || digits[|digits| - 1] != '0'
  {
    SecondTextReads(t);
    SmallPowers();
    DecimalValue(t.nano, 9);
    digits := Fraction(t);
    zeros := TrimPads(Decimal(t.nano, 9));
  }
}
