/** UTC timestamps, the RFC 3339 text that the event store keeps for them, and why comparing
    that text compares the times even though the number of fraction digits varies. */
module Timestamps {
  import opened Text

  const BILLION := 1_000_000_000

  /** A calendar date, seconds since midnight and nanoseconds; a leap second is written as
      second 59 of its minute with a billion or more nanoseconds. */
  datatype DateTime = DateTime(year: int, month: int, day: int, secs: int, frac: int)

  predicate IsLeapYear(year: int) {
    year % 4 == 0 && (year % 100 != 0 || year % 400 == 0)
  }

  function DaysInMonth(year: int, month: int): (n: int)
    ensures 28 <= n <= 31
  {
    if month == 2 then (if IsLeapYear(year) then 29 else 28)
    else if month == 4 || month == 6 || month == 9 || month == 11 then 30
    else 31
  }

  const MIN_YEAR := -262143
  const MAX_YEAR := 262142

  predicate Valid(t: DateTime) {
    && MIN_YEAR <= t.year <= MAX_YEAR
    && 1 <= t.month <= 12 && 1 <= t.day <= DaysInMonth(t.year, t.month)
    && 0 <= t.secs < 86400 && 0 <= t.frac < 2 * BILLION
    && (t.frac >= BILLION ==> t.secs % 60 == 59)
  }

  /** The years that print with exactly four digits and no sign. */
  predicate FourDigitYear(t: DateTime) {
    0 <= t.year <= 9999
  }

  /** Time order: year, month, day, second, nanosecond. */
  predicate Before(a: DateTime, b: DateTime) {
    a.year < b.year || (a.year == b.year && (
      a.month < b.month || (a.month == b.month && (
        a.day < b.day || (a.day == b.day && (
          a.secs < b.secs || (a.secs == b.secs && a.frac < b.frac)))))))
  }

  // ----- printing -----

  function Digit(d: int): char
    requires 0 <= d <= 9
  {
    ('0' as int + d) as char
  }

  /** The last `w` decimal digits of `n`. */
  function Pad(n: nat, w: nat): (s: string)
    ensures |s| == w
  {
    if w == 0 then "" else Pad(n / 10, w - 1) + [Digit(n % 10)]
  }

  function Width(n: nat): nat {
    if n < 10 then 1 else 1 + Width(n / 10)
  }

  /** Years outside 0 to 9999 carry a sign and at least four digits. */
  function YearText(year: int): string {
    if 0 <= year <= 9999 then Pad(year, 4)
    else
      var n := if year < 0 then -year else year;
      [if year < 0 then '-' else '+'] + Pad(n, if Width(n) < 4 then 4 else Width(n))
  }

  const OFFSET := "+00:00"

  /** The fraction in as few groups of three digits as hold it, then the offset. */
  function FracText(n: int): string
    requires 0 <= n < BILLION
  {
    (if n == 0 then ""
     else if n % 1_000_000 == 0 then "." + Pad(n / 1_000_000, 3)
     else if n % 1_000 == 0 then "." + Pad(n / 1_000, 6)
     else "." + Pad(n, 9)) + OFFSET
  }

  /** The printed second, 60 within a leap second. */
  function ShownSecond(t: DateTime): int {
    t.secs % 60 + (if t.frac >= BILLION then 1 else 0)
  }

  function ClockText(t: DateTime): string
    requires Valid(t)
  {
    Pad(t.secs / 3600, 2) + (":" + (Pad(t.secs / 60 % 60, 2) + (":" + (Pad(ShownSecond(t), 2)
    + FracText(t.frac % BILLION)))))
  }

  function DateText(t: DateTime): string
    requires Valid(t)
  {
    "-" + (Pad(t.month, 2) + ("-" + (Pad(t.day, 2) + ("T" + ClockText(t)))))
  }

  /** `to_rfc3339` of a UTC time. */
  function Format(t: DateTime): string
    requires Valid(t)
  {
    YearText(t.year) + DateText(t)
  }

  // ----- order of digit strings -----

  function Ten(w: nat): (t: nat)
    ensures t > 0
  {
    if w == 0 then 1 else 10 * Ten(w - 1)
  }

  lemma {:induction false} PadOrder(a: nat, b: nat, w: nat)
    requires a < Ten(w) && b < Ten(w)
    ensures Less(Pad(a, w), Pad(b, w)) <==> a < b
    ensures Pad(a, w) == Pad(b, w) <==> a == b
  {
    if w > 0 {
      var x, y := Pad(a / 10, w - 1), Pad(b / 10, w - 1);
      PadOrder(a / 10, b / 10, w - 1);
      if x == y {
        LessCommonPrefix(x, [Digit(a % 10)], [Digit(b % 10)]);
      } else {
        LessSameLength(x, y, [Digit(a % 10)], [Digit(b % 10)]);
      }
      if Pad(a, w) == Pad(b, w) {
        assert Pad(a, w)[..w - 1] == x && Pad(b, w)[..w - 1] == y;
        assert Pad(a, w)[w - 1] == Digit(a % 10) && Pad(b, w)[w - 1] == Digit(b % 10);
      }
    }
  }

  /** A fixed-width field decides the order unless it is equal. */
  lemma FieldOrder(a: nat, b: nat, w: nat, x: string, y: string)
    requires a < Ten(w) && b < Ten(w)
    ensures Less(Pad(a, w) + x, Pad(b, w) + y) <==> a < b || (a == b && Less(x, y))
  {
    PadOrder(a, b, w);
    if a == b {
      LessCommonPrefix(Pad(a, w), x, y);
    } else {
      LessSameLength(Pad(a, w), Pad(b, w), x, y);
    }
  }

  lemma SmallTens()
    ensures Ten(2) == 100 && Ten(3) == 1000 && Ten(4) == 10_000
  {
    assert Ten(1) == 10;
    assert Ten(2) == 100;
    assert Ten(3) == 1000;
  }

  lemma LastThreeDigits(n: nat)
    ensures n / 10 / 10 / 10 == n / 1000
    ensures var m := n % 1000; m / 10 % 10 == n / 10 % 10 && m / 10 / 10 % 10 == n / 10 / 10 % 10 && m % 10 == n % 10
  {
  }

  /** The last three digits of a field are a field of their own. */
  lemma PadLastThree(n: nat, w: nat)
    ensures Pad(n, w + 3) == Pad(n / 1000, w) + Pad(n % 1000, 3)
  {
    var m := n % 1000;
    LastThreeDigits(n);
    var last := [Digit(n / 10 / 10 % 10), Digit(n / 10 % 10), Digit(n % 10)];
    assert Pad(m, 3) == last by {
      assert Pad(m / 10 / 10 / 10, 0) == "";
      assert Pad(m / 10 / 10, 1) == [Digit(n / 10 / 10 % 10)];
      assert Pad(m / 10, 2) == [Digit(n / 10 / 10 % 10), Digit(n / 10 % 10)];
    }
    assert Pad(n, w + 3) == Pad(n / 10, w + 2) + [Digit(n % 10)];
    assert Pad(n / 10, w + 2) == Pad(n / 10 / 10, w + 1) + [Digit(n / 10 % 10)];
    assert Pad(n / 10 / 10, w + 1) == Pad(n / 1000, w) + [Digit(n / 10 / 10 % 10)];
  }

  // ----- order of fractions -----

  /** The groups after the first, ending as soon as only zeros are left. */
  function Groups(n2: nat, n3: nat): string {
    if n2 == 0 && n3 == 0 then OFFSET
    else Pad(n2, 3) + (if n3 == 0 then OFFSET else Pad(n3, 3) + OFFSET)
  }

  lemma FracGroups(n: int)
    requires 0 < n < BILLION
    ensures FracText(n) == "." + (Pad(n / 1_000_000, 3) + Groups(n / 1000 % 1000, n % 1000))
  {
    SmallTens();
    var n1, n2, n3 := n / 1_000_000, n / 1000 % 1000, n % 1000;
    PadLastThree(n / 1000, 3);
    PadLastThree(n, 6);
    assert n / 1000 / 1000 == n1;
    assert Pad(n / 1000, 6) == Pad(n1, 3) + Pad(n2, 3);
    assert Pad(n, 9) == Pad(n / 1000, 6) + Pad(n3, 3);
    if n % 1_000_000 == 0 {
      assert n2 == 0 && n3 == 0;
      assert "." + Pad(n1, 3) + OFFSET == "." + (Pad(n1, 3) + OFFSET);
    } else if n % 1000 == 0 {
      assert n3 == 0 && n2 != 0;
      assert "." + (Pad(n1, 3) + Pad(n2, 3)) + OFFSET == "." + (Pad(n1, 3) + (Pad(n2, 3) + OFFSET));
    } else {
      assert "." + (Pad(n1, 3) + Pad(n2, 3) + Pad(n3, 3)) + OFFSET
          == "." + (Pad(n1, 3) + (Pad(n2, 3) + (Pad(n3, 3) + OFFSET)));
    }
  }

  /** The offset sorts before any further digit. */
  lemma OffsetFirst(n: nat, w: nat, x: string)
    requires w > 0
    ensures Less(OFFSET, Pad(n, w) + x) && !Less(Pad(n, w) + x, OFFSET)
  {
    PadDigits(n, w);
    assert (Pad(n, w) + x)[0] == Pad(n, w)[0];
  }

  lemma {:induction false} PadDigits(n: nat, w: nat)
    ensures forall i | 0 <= i < w :: '0' <= Pad(n, w)[i] <= '9'
  {
    if w > 0 { PadDigits(n / 10, w - 1); }
  }

  lemma GroupsOrder(a2: nat, a3: nat, b2: nat, b3: nat)
    requires a2 < 1000 && a3 < 1000 && b2 < 1000 && b3 < 1000
    ensures Less(Groups(a2, a3), Groups(b2, b3)) <==> a2 < b2 || (a2 == b2 && a3 < b3)
  {
    SmallTens();
    var x := if a3 == 0 then OFFSET else Pad(a3, 3) + OFFSET;
    var y := if b3 == 0 then OFFSET else Pad(b3, 3) + OFFSET;
    LessTrichotomy(OFFSET, OFFSET);
    OffsetFirst(a2, 3, x);
    OffsetFirst(b2, 3, y);
    FieldOrder(a2, b2, 3, x, y);
    OffsetFirst(a3, 3, OFFSET);
    OffsetFirst(b3, 3, OFFSET);
    FieldOrder(a3, b3, 3, OFFSET, OFFSET);
  }

  /** Fractions of different lengths still sort as the numbers they stand for. */
  lemma FracOrder(a: int, b: int)
    requires 0 <= a < BILLION && 0 <= b < BILLION
    ensures Less(FracText(a), FracText(b)) <==> a < b
  {
    if a > 0 && b > 0 {
      SomeFracOrder(a, b);
    } else {
      LessTrichotomy(OFFSET, OFFSET);
      assert "" + OFFSET == OFFSET;
      if a > 0 { FracGroups(a); }
      if b > 0 { FracGroups(b); }
    }
  }

  lemma SomeFracOrder(a: int, b: int)
    requires 0 < a < BILLION && 0 < b < BILLION
    ensures Less(FracText(a), FracText(b)) <==> a < b
  {
    SmallTens();
    FracGroups(a);
    FracGroups(b);
    var a1, a2, a3 := a / 1_000_000, a / 1000 % 1000, a % 1000;
    var b1, b2, b3 := b / 1_000_000, b / 1000 % 1000, b % 1000;
    LessCommonPrefix(".", Pad(a1, 3) + Groups(a2, a3), Pad(b1, 3) + Groups(b2, b3));
    FieldOrder(a1, b1, 3, Groups(a2, a3), Groups(b2, b3));
    GroupsOrder(a2, a3, b2, b3);
    ThreeGroups(a);
    ThreeGroups(b);
  }

  lemma ThreeGroups(a: nat)
    ensures a == a / 1_000_000 * 1_000_000 + a / 1000 % 1000 * 1000 + a % 1000
  {
    var k := a / 1000;
    assert a == k * 1000 + a % 1000;
    assert k == k / 1000 * 1000 + k % 1000;
    assert k / 1000 == a / 1_000_000;
  }

  // ----- order of whole timestamps -----

  predicate ClockBefore(a: DateTime, b: DateTime) {
    a.secs < b.secs || (a.secs == b.secs && a.frac < b.frac)
  }

  /** Comparing the printed hour, minute, second and fraction compares the clock times. */
  lemma ShownClock(a: DateTime, b: DateTime)
    requires Valid(a) && Valid(b)
    ensures var ha, hb, ma, mb := a.secs / 3600, b.secs / 3600, a.secs / 60 % 60, b.secs / 60 % 60;
            var sa, sb, fa, fb := ShownSecond(a), ShownSecond(b), a.frac % BILLION, b.frac % BILLION;
            ClockBefore(a, b) <==>
            ha < hb || (ha == hb && (ma < mb || (ma == mb && (sa < sb || (sa == sb && fa < fb)))))
  {
    var ha, hb, ma, mb := a.secs / 3600, b.secs / 3600, a.secs / 60 % 60, b.secs / 60 % 60;
    assert a.secs == ha * 3600 + ma * 60 + a.secs % 60;
    assert b.secs == hb * 3600 + mb * 60 + b.secs % 60;
    assert a.frac % BILLION == if a.frac >= BILLION then a.frac - BILLION else a.frac;
    assert b.frac % BILLION == if b.frac >= BILLION then b.frac - BILLION else b.frac;
  }

  lemma ClockOrder(a: DateTime, b: DateTime)
    requires Valid(a) && Valid(b)
    ensures Less(ClockText(a), ClockText(b)) <==> ClockBefore(a, b)
  {
    SmallTens();
    ShownClock(a, b);
    var ha, hb, ma, mb := a.secs / 3600, b.secs / 3600, a.secs / 60 % 60, b.secs / 60 % 60;
    var fa, fb := FracText(a.frac % BILLION), FracText(b.frac % BILLION);
    FracOrder(a.frac % BILLION, b.frac % BILLION);
    var sa, sb := Pad(ShownSecond(a), 2) + fa, Pad(ShownSecond(b), 2) + fb;
    FieldOrder(ShownSecond(a), ShownSecond(b), 2, fa, fb);
    LessCommonPrefix(":", sa, sb);
    FieldOrder(ma, mb, 2, ":" + sa, ":" + sb);
    LessCommonPrefix(":", Pad(ma, 2) + (":" + sa), Pad(mb, 2) + (":" + sb));
    FieldOrder(ha, hb, 2, ":" + (Pad(ma, 2) + (":" + sa)), ":" + (Pad(mb, 2) + (":" + sb)));
  }

  lemma DateOrder(a: DateTime, b: DateTime)
    requires Valid(a) && Valid(b)
    ensures Less(DateText(a), DateText(b)) <==> Before(a.(year := 0), b.(year := 0))
  {
    SmallTens();
    ClockOrder(a, b);
    LessCommonPrefix("T", ClockText(a), ClockText(b));
    var da, db := Pad(a.day, 2) + ("T" + ClockText(a)), Pad(b.day, 2) + ("T" + ClockText(b));
    FieldOrder(a.day, b.day, 2, "T" + ClockText(a), "T" + ClockText(b));
    LessCommonPrefix("-", da, db);
    FieldOrder(a.month, b.month, 2, "-" + da, "-" + db);
    LessCommonPrefix("-", Pad(a.month, 2) + ("-" + da), Pad(b.month, 2) + ("-" + db));
  }

  lemma BeforeTotal(a: DateTime, b: DateTime)
    ensures Before(a, b) || a == b || Before(b, a)
    ensures !(Before(a, b) && Before(b, a)) && !Before(a, a)
  {
  }

  lemma FourDigitOrder(a: DateTime, b: DateTime)
    requires Valid(a) && Valid(b) && FourDigitYear(a) && FourDigitYear(b)
    ensures Less(Format(a), Format(b)) <==> Before(a, b)
  {
    SmallTens();
    DateOrder(a, b);
    FieldOrder(a.year, b.year, 4, DateText(a), DateText(b));
  }

  /** Against a time in years 0 to 9999, text order is time order in both directions and equal
      texts are equal times, for every other time except one after year 9999, whose text always
      sorts first. */
  lemma TextOrderIsTimeOrder(a: DateTime, b: DateTime)
    requires Valid(a) && Valid(b) && FourDigitYear(b)
    ensures a.year <= 9999 ==>
              && (Less(Format(a), Format(b)) <==> Before(a, b))
              && (Less(Format(b), Format(a)) <==> Before(b, a))
              && (Format(a) == Format(b) <==> a == b)
    ensures a.year > 9999 ==> Less(Format(a), Format(b)) && Before(b, a)
  {
    LessTrichotomy(Format(a), Format(b));
    BeforeTotal(a, b);
    if FourDigitYear(a) {
      FourDigitOrder(a, b);
      FourDigitOrder(b, a);
    } else {
      PadDigits(b.year, 4);
      assert Format(b)[0] == Pad(b.year, 4)[0];
      assert Format(a)[0] == '-' || Format(a)[0] == '+';
    }
  }

  /** What `timestamp >= since` means between texts, for a time of years 0 to 9999: not before, but
      that a `since` after year 9999 excludes nothing. */
  predicate Reaches(t: DateTime, since: DateTime) {
    since.year > 9999 || !Before(t, since)
  }

  lemma TextReaches(t: DateTime, since: DateTime)
    requires Valid(t) && FourDigitYear(t) && Valid(since)
    ensures !Less(Format(t), Format(since)) <==> Reaches(t, since)
  {
    TextOrderIsTimeOrder(since, t);
    LessTrichotomy(Format(t), Format(since));
  }

  // ----- parsing -----

  predicate IsDigit(c: char) {
    '0' <= c <= '9'
  }

  predicate AllDigits(s: string) {
    forall c | c in s :: IsDigit(c)
  }

  function Number(s: string): (n: nat)
    requires AllDigits(s)
  {
    if s == "" then 0
    else
      assert s[|s| - 1] in s;
      Number(s[..|s| - 1]) * 10 + (s[|s| - 1] as int - '0' as int)
  }

  /** The longest run of leading digits. */
  function DigitRun(s: string): (n: nat)
    ensures n <= |s| && AllDigits(s[..n])
    ensures n < |s| ==> !IsDigit(s[n])
  {
    if s == "" || !IsDigit(s[0]) then 0
    else
      var n := DigitRun(s[1..]);
      assert s[..n + 1] == [s[0]] + s[1..][..n];
      n + 1
  }

  /** Nanoseconds and remaining text of an optional fraction; digits past the ninth are dropped. */
  function ParseFraction(s: string): Option<(nat, string)> {
    if s == "" || s[0] != '.' then Some((0, s))
    else
      var n := DigitRun(s[1..]);
      if n == 0 then None
      else
        var kept := if n < 9 then n else 9;
        assert s[1..][..kept] == s[1..][..n][..kept];
        Some((Number(s[1..][..kept]) * Ten(9 - kept), s[1..][n..]))
  }

  /** The positions of a date and time in front of the fraction. */
  predicate HasShape(s: string) {
    && |s| >= 19
    && s[4] == '-' && s[7] == '-' && s[10] == 'T' && s[13] == ':' && s[16] == ':'
    && AllDigits(s[..4]) && AllDigits(s[5..7]) && AllDigits(s[8..10])
    && AllDigits(s[11..13]) && AllDigits(s[14..16]) && AllDigits(s[17..19])
  }

  /** The time with these fields, if there is one; second 60 is a leap second. */
  function Assemble(year: int, month: int, day: int, hour: int, minute: int, second: int,
          nanos: int): Option<DateTime> {
    if hour > 23 || minute > 59 || second > 60 then None
    else
      var leap := second == 60;
      var t := DateTime(year, month, day, hour * 3600 + minute * 60 + (if leap then 59 else second),
                        nanos + (if leap then BILLION else 0));
      if Valid(t) then Some(t) else None
  }

  /** `parse_from_rfc3339` for texts at offset zero. */
  function Parse(s: string): Option<DateTime> {
    if !HasShape(s) then None
    else
      var fraction := ParseFraction(s[19..]);
      if fraction.None? || fraction.value.1 != OFFSET then None
      else Assemble(Number(s[..4]), Number(s[5..7]), Number(s[8..10]),
                    Number(s[11..13]), Number(s[14..16]), Number(s[17..19]), fraction.value.0)
  }

  lemma AssembleFields(t: DateTime)
    requires Valid(t)
    ensures Assemble(t.year, t.month, t.day, t.secs / 3600, t.secs / 60 % 60, ShownSecond(t), t.frac % BILLION) ==
              Some(t)
  {
    assert t.secs == t.secs / 3600 * 3600 + t.secs / 60 % 60 * 60 + t.secs % 60;
    assert t.frac % BILLION == if t.frac >= BILLION then t.frac - BILLION else t.frac;
  }

  lemma {:induction false} NumberOfPad(n: nat, w: nat)
    requires n < Ten(w)
    ensures AllDigits(Pad(n, w)) && Number(Pad(n, w)) == n
  {
    PadDigits(n, w);
    if w > 0 {
      NumberOfPad(n / 10, w - 1);
      assert Pad(n, w)[..w - 1] == Pad(n / 10, w - 1);
    }
  }

  lemma {:induction false} NumberBound(s: string)
    requires AllDigits(s)
    ensures Number(s) < Ten(|s|)
  {
    if s != "" {
      assert s[|s| - 1] in s;
      NumberBound(s[..|s| - 1]);
    }
  }

  /** Whatever can be read has a four-digit year. */
  lemma ParsedIsFourDigit(s: string)
    requires Parse(s).Some?
    ensures Valid(Parse(s).value) && FourDigitYear(Parse(s).value)
  {
    SmallTens();
    NumberBound(s[..4]);
  }

  lemma {:induction false} RunOfDigits(d: string, x: string)
    requires AllDigits(d) && (x != "" ==> !IsDigit(x[0]))
    ensures DigitRun(d + x) == |d|
  {
    if d == "" {
      assert d + x == x;
    } else {
      RunOfDigits(d[1..], x);
      assert (d + x)[1..] == d[1..] + x;
    }
  }

  lemma ParseFractionOf(d: string)
    requires AllDigits(d) && 0 < |d| <= 9
    ensures ParseFraction("." + d + OFFSET) == Some((Number(d) * Ten(9 - |d|), OFFSET))
  {
    RunOfDigits(d, OFFSET);
    FractionSplit("." + d + OFFSET, d, OFFSET);
  }

  lemma FractionSplit(s: string, d: string, x: string)
    requires AllDigits(d) && 0 < |d| <= 9 && s == "." + d + x && DigitRun(d + x) == |d|
    ensures ParseFraction(s) == Some((Number(d) * Ten(9 - |d|), x))
  {
    assert s[1..] == d + x;
    assert s[1..][..|d|] == d;
    assert s[1..][|d|..] == x;
  }

  lemma MoreTens()
    ensures Ten(0) == 1 && Ten(6) == 1_000_000 && Ten(9) == BILLION
  {
    SmallTens();
    assert Ten(5) == 100_000;
    assert Ten(6) == 1_000_000;
    assert Ten(7) == 10_000_000;
    assert Ten(8) == 100_000_000;
  }

  lemma FractionRoundTrip(n: int)
    requires 0 <= n < BILLION
    ensures ParseFraction(FracText(n)) == Some((n, OFFSET))
  {
    SmallTens();
    MoreTens();
    if n == 0 {
      assert "" + OFFSET == OFFSET;
    } else {
      var w, v := if n % 1_000_000 == 0 then 3 else if n % 1000 == 0 then 6 else 9,
                  if n % 1_000_000 == 0 then n / 1_000_000 else if n % 1000 == 0 then n / 1000 else n;
      NumberOfPad(v, w);
      ParseFractionOf(Pad(v, w));
    }
  }

  /** Reading a printed time gives it back exactly when its year prints with four digits; the
      text of any other year is refused. */
  lemma ParseUndoesFormat(t: DateTime)
    requires Valid(t)
    ensures Parse(Format(t)) == if FourDigitYear(t) then Some(t) else None
  {
    SmallTens();
    var s := Format(t);
    if FourDigitYear(t) {
      FormatPieces(t);
      AssembleFields(t);
      FractionRoundTrip(t.frac % BILLION);
      NumberOfPad(t.year, 4);
      NumberOfPad(t.month, 2);
      NumberOfPad(t.day, 2);
      NumberOfPad(t.secs / 3600, 2);
      NumberOfPad(t.secs / 60 % 60, 2);
      NumberOfPad(ShownSecond(t), 2);
    } else {
      if |s| >= 19 {
        assert s[..4][0] == s[0] && s[0] in s[..4];
        assert s[0] == '-' || s[0] == '+';
      }
    }
  }

  /** The first moment of year 10000 is later than that of 2020, sorts before it and cannot be read
      back. */
  lemma YearTenThousand()
    ensures var late, early := DateTime(10000, 1, 1, 0, 0), DateTime(2020, 1, 1, 0, 0);
            && Valid(late) && Valid(early) && Before(early, late)
            && Less(Format(late), Format(early)) && Parse(Format(late)).None?
  {
    var late, early := DateTime(10000, 1, 1, 0, 0), DateTime(2020, 1, 1, 0, 0);
    TextOrderIsTimeOrder(late, early);
    ParseUndoesFormat(late);
  }

  lemma FormatPieces(t: DateTime)
    requires Valid(t) && FourDigitYear(t)
    ensures var s := Format(t);
            && |s| >= 19
            && s[..4] == Pad(t.year, 4) && s[4] == '-'
            && s[5..7] == Pad(t.month, 2) && s[7] == '-'
            && s[8..10] == Pad(t.day, 2) && s[10] == 'T'
            && s[11..13] == Pad(t.secs / 3600, 2) && s[13] == ':'
            && s[14..16] == Pad(t.secs / 60 % 60, 2) && s[16] == ':'
            && s[17..19] == Pad(ShownSecond(t), 2)
            && s[19..] == FracText(t.frac % BILLION)
  {
    var s := Format(t);
    assert s[4..] == DateText(t) && |DateText(t)| >= 15;
    DatePieces(t);
    var d := DateText(t);
    assert s[5..7] == d[1..3] && s[7] == d[3] && s[8..10] == d[4..6] && s[10] == d[6];
    var c := ClockText(t);
    assert s[11..] == d[7..] == c;
    ClockPieces(t);
    assert s[11..13] == c[..2] && s[14..16] == c[3..5] && s[17..19] == c[6..8] && s[19..] == c[8..];
  }

  /** The printed fields are where RFC 3339 has them, each with its number, and the fraction takes the
      fewest of 0, 3, 6 and 9 digits that hold it. */
  lemma FormatMeaning(t: DateTime)
    requires Valid(t) && FourDigitYear(t)
    ensures var s, nanos := Format(t), t.frac % 1_000_000_000;
            && |s| >= 19 && HasShape(s)
            && Number(s[..4]) == t.year && Number(s[5..7]) == t.month && Number(s[8..10]) == t.day
            && Number(s[11..13]) == t.secs / 3600 && Number(s[14..16]) == t.secs / 60 % 60
            && Number(s[17..19]) == t.secs % 60 + (if t.frac >= 1_000_000_000 then 1 else 0)
            && s[19..] == if nanos == 0 then "+00:00"
                          else if nanos % 1_000_000 == 0 then "." + Pad(nanos / 1_000_000, 3) + "+00:00"
                          else if nanos % 1_000 == 0 then "." + Pad(nanos / 1_000, 6) + "+00:00"
                          else "." + Pad(nanos, 9) + "+00:00"
  {
    SmallTens();
    FormatPieces(t);
    NumberOfPad(t.year, 4);
    NumberOfPad(t.month, 2);
    NumberOfPad(t.day, 2);
    NumberOfPad(t.secs / 3600, 2);
    NumberOfPad(t.secs / 60 % 60, 2);
    NumberOfPad(ShownSecond(t), 2);
  }

  /** Fields are decimal digits, filled up with zeros. */
  lemma DecimalDigits()
    ensures Pad(2024, 4) == "2024" && Number("2024") == 2024
    ensures Pad(7, 2) == "07" && Pad(59, 2) == "59"
  {
    TwoDigits(20);
    assert Pad(202, 3) == "202";
    TwoDigits(7);
    TwoDigits(59);
    SmallTens();
    NumberOfPad(2024, 4);
  }

  lemma TwoDigits(n: nat)
    requires n < 100
    ensures Pad(n, 2) == [Digit(n / 10), Digit(n % 10)]
  {
    assert Pad(n / 10, 1) == [Digit(n / 10)];
  }

  lemma DatePieces(t: DateTime)
    requires Valid(t)
    ensures var d := DateText(t);
            |d| >= 15 && d[0] == '-' && d[1..3] == Pad(t.month, 2) && d[3] == '-' &&
            d[4..6] == Pad(t.day, 2) && d[6] == 'T' && d[7..] == ClockText(t)
  {
    ClockPieces(t);
    PlacePieces(Pad(t.month, 2), Pad(t.day, 2), ClockText(t));
  }

  lemma PlacePieces(x: string, y: string, r: string)
    requires |x| == 2 && |y| == 2
    ensures var d := "-" + (x + ("-" + (y + ("T" + r))));
            d[0] == '-' && d[1..3] == x && d[3] == '-' && d[4..6] == y && d[6] == 'T' && d[7..] == r
  {
  }

  lemma ClockPieces(t: DateTime)
    requires Valid(t)
    ensures var c := ClockText(t);
            |c| >= 8 && c[..2] == Pad(t.secs / 3600, 2) && c[2] == ':' &&
            c[3..5] == Pad(t.secs / 60 % 60, 2) && c[5] == ':' &&
            c[6..8] == Pad(ShownSecond(t), 2) && c[8..] == FracText(t.frac % BILLION)
  {
  }
}
