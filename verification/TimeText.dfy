/** The time strings every event comparison rests on: instants in whole UTC seconds from the start of
    year 0 (negative before it), printed as in section 5.1 of RFC 3339 with more digits or a sign where
    the year needs them, and compared byte by byte. */
module TimeText {
  import opened Common

  // ----- The calendar -----

  datatype Civil = Civil(year: int, month: nat, day: nat, hour: nat, minute: nat, second: nat)

  predicate IsLeap(y: int) {
    y % 4 == 0 && (y % 100 != 0 || y % 400 == 0)
  }

  function YearLength(y: int): nat {
    if IsLeap(y) then 366 else 365
  }

  function MonthLength(y: int, m: nat): (n: nat)
    ensures n >= 28
  {
    if m == 2 then (if IsLeap(y) then 29 else 28)
    else if m == 4 || m == 6 || m == 9 || m == 11 then 30 else 31
  }

  predicate Valid(c: Civil) {
    1 <= c.month <= 12 && 1 <= c.day <= MonthLength(c.year, c.month) && c.hour < 24 && c.minute < 60 && c.second < 60
  }

  /** Days from the start of year 0 to the start of year y; negative before year 0. */
  function DaysBeforeYear(y: int): int
    decreases if y >= 0 then y else -y
  {
    if y == 0 then 0
    else if y > 0 then DaysBeforeYear(y - 1) + YearLength(y - 1)
    else DaysBeforeYear(y + 1) - YearLength(y)
  }

  function DaysBeforeMonth(y: int, m: nat): nat {
    if m <= 1 then 0 else DaysBeforeMonth(y, m - 1) + MonthLength(y, m - 1)
  }

  function DayNumber(y: int, m: nat, d: nat): int {
    DaysBeforeYear(y) + DaysBeforeMonth(y, m) + d - 1
  }

  function Seconds(c: Civil): int {
    ((DayNumber(c.year, c.month, c.day) * 24 + c.hour) * 60 + c.minute) * 60 + c.second
  }

  function FindYearUp(day: int, y: nat): (r: int)
    requires DaysBeforeYear(y) <= day
    ensures DaysBeforeYear(r) <= day < DaysBeforeYear(r + 1)
    decreases day - DaysBeforeYear(y)
  {
    if day < DaysBeforeYear(y + 1) then y else FindYearUp(day, y + 1)
  }

  function FindYearDown(day: int, y: int): (r: int)
    requires y < 0 && day < DaysBeforeYear(y + 1)
    ensures DaysBeforeYear(r) <= day < DaysBeforeYear(r + 1)
    decreases DaysBeforeYear(y + 1) - day
  {
    if DaysBeforeYear(y) <= day then y else FindYearDown(day, y - 1)
  }

  function YearOfDay(day: int): (r: int)
    ensures DaysBeforeYear(r) <= day < DaysBeforeYear(r + 1)
  {
    if day >= 0 then FindYearUp(day, 0) else FindYearDown(day, -1)
  }

  function FindMonth(y: int, rest: nat, m: nat): (r: nat)
    requires 1 <= m <= 12 && DaysBeforeMonth(y, m) <= rest < DaysBeforeMonth(y, 13)
    ensures 1 <= r <= 12 && DaysBeforeMonth(y, r) <= rest < DaysBeforeMonth(y, r + 1)
    decreases 12 - m
  {
    if m == 12 || rest < DaysBeforeMonth(y, m + 1) then m else FindMonth(y, rest, m + 1)
  }

  lemma MonthsFillYear(y: int)
    ensures DaysBeforeMonth(y, 13) == YearLength(y)
  {
    assert DaysBeforeMonth(y, 2) == DaysBeforeMonth(y, 1) + 31 == 31;
    assert DaysBeforeMonth(y, 3) == 31 + MonthLength(y, 2);
    assert DaysBeforeMonth(y, 5) == DaysBeforeMonth(y, 3) + 61;
    assert DaysBeforeMonth(y, 7) == DaysBeforeMonth(y, 5) + 61;
    assert DaysBeforeMonth(y, 9) == DaysBeforeMonth(y, 7) + 62;
    assert DaysBeforeMonth(y, 11) == DaysBeforeMonth(y, 9) + 61;
    assert DaysBeforeMonth(y, 13) == DaysBeforeMonth(y, 11) + 61;
  }

  lemma YearStep(y: int)
    ensures DaysBeforeYear(y + 1) == DaysBeforeYear(y) + YearLength(y)
  {
  }

  /** Midnight of a day. */
  function DateOf(day: int): (c: Civil)
    ensures Valid(c) && DayNumber(c.year, c.month, c.day) == day && c.hour == c.minute == c.second == 0
  {
    var y := YearOfDay(day);
    YearStep(y);
    MonthsFillYear(y);
    var rest := day - DaysBeforeYear(y);
    var m := FindMonth(y, rest, 1);
    Civil(y, m, rest - DaysBeforeMonth(y, m) + 1, 0, 0, 0)
  }

  lemma ClockParts(s: nat)
    requires s < 86400
    ensures s / 3600 < 24 && (s / 3600 * 60 + s / 60 % 60) * 60 + s % 60 == s
  {
    assert s / 3600 == s / 60 / 60;
  }

  /** The calendar date and time of an instant. */
  function CivilOf(t: int): (c: Civil)
    ensures Valid(c) && Seconds(c) == t
  {
    var s := t % 86400;
    ClockParts(s);
    DateOf(t / 86400).(hour := s / 3600, minute := s / 60 % 60, second := s % 60)
  }

  // ----- Calendar order is instant order -----

  lemma {:induction false} YearsAscend(y: int, z: int)
    requires y < z
    ensures DaysBeforeYear(y) + YearLength(y) <= DaysBeforeYear(z)
    decreases z - y
  {
    YearStep(z - 1);
    if y < z - 1 {
      YearsAscend(y, z - 1);
    }
  }

  lemma {:induction false} MonthsAscend(y: int, m: nat, n: nat)
    requires 1 <= m < n
    ensures DaysBeforeMonth(y, m) + MonthLength(y, m) <= DaysBeforeMonth(y, n)
  {
    if m < n - 1 {
      MonthsAscend(y, m, n - 1);
    }
  }

  lemma DayOfYearBounds(c: Civil)
    requires Valid(c)
    ensures 0 <= DaysBeforeMonth(c.year, c.month) + c.day - 1 < YearLength(c.year)
  {
    MonthsAscend(c.year, c.month, 13);
    MonthsFillYear(c.year);
  }

  /** Earlier date fields mean an earlier day. */
  predicate DateBefore(a: Civil, b: Civil) {
    a.year < b.year || (a.year == b.year && (a.month < b.month || (a.month == b.month && a.day < b.day)))
  }

  predicate TimeBefore(a: Civil, b: Civil) {
    a.hour < b.hour || (a.hour == b.hour && (a.minute < b.minute || (a.minute == b.minute && a.second < b.second)))
  }

  predicate SameDate(a: Civil, b: Civil) {
    a.year == b.year && a.month == b.month && a.day == b.day
  }

  predicate Before(a: Civil, b: Civil) {
    DateBefore(a, b) || (SameDate(a, b) && TimeBefore(a, b))
  }

  lemma DateBeforeDay(a: Civil, b: Civil)
    requires Valid(a) && Valid(b) && DateBefore(a, b)
    ensures DayNumber(a.year, a.month, a.day) < DayNumber(b.year, b.month, b.day)
  {
    DayOfYearBounds(a);
    DayOfYearBounds(b);
    if a.year < b.year {
      YearsAscend(a.year, b.year);
    } else if a.month < b.month {
      MonthsAscend(a.year, a.month, b.month);
    }
  }

  function SecondOfDay(c: Civil): nat {
    (c.hour * 60 + c.minute) * 60 + c.second
  }

  lemma SecondsSplit(c: Civil)
    ensures Seconds(c) == DayNumber(c.year, c.month, c.day) * 86400 + SecondOfDay(c)
  {
  }

  lemma TimeOfDay(a: Civil, b: Civil)
    requires Valid(a) && Valid(b)
    ensures SecondOfDay(a) < 86400
    ensures TimeBefore(a, b) <==> SecondOfDay(a) < SecondOfDay(b)
  {
  }

  lemma BeforeIsEarlier(a: Civil, b: Civil)
    requires Valid(a) && Valid(b)
    ensures Before(a, b) <==> Seconds(a) < Seconds(b)
  {
    SecondsSplit(a);
    SecondsSplit(b);
    TimeOfDay(a, b);
    TimeOfDay(b, a);
    if DateBefore(a, b) {
      DateBeforeDay(a, b);
    } else if DateBefore(b, a) {
      DateBeforeDay(b, a);
    }
  }

  /** The calendar is unambiguous. */
  lemma SecondsInjective(a: Civil, b: Civil)
    requires Valid(a) && Valid(b) && Seconds(a) == Seconds(b)
    ensures a == b
  {
    BeforeIsEarlier(a, b);
    BeforeIsEarlier(b, a);
  }

  // ----- Decimal text -----

  function Digit(n: nat): char
    requires n < 10
  {
    ('0' as int + n) as char
  }

  predicate IsDigit(c: char) {
    '0' <= c <= '9'
  }

  /** n in decimal on exactly w digits. */
  function Dec(n: nat, w: nat): (s: string)
    ensures |s| == w && forall i :: 0 <= i < w ==> IsDigit(s[i])
  {
    if w == 0 then "" else Dec(n / 10, w - 1) + [Digit(n % 10)]
  }

  /** The number a digit string denotes. */
  function Val(s: string): (n: nat)
    requires forall i :: 0 <= i < |s| ==> IsDigit(s[i])
  {
    if s == "" then 0 else Val(s[..|s| - 1]) * 10 + DigitValue(s[|s| - 1])
  }

  function DigitValue(c: char): nat
    requires IsDigit(c)
  {
    c as int - '0' as int
  }

  function Pow10(w: nat): nat {
    if w == 0 then 1 else 10 * Pow10(w - 1)
  }

  lemma {:induction false} ValDec(n: nat, w: nat)
    requires n < Pow10(w)
    ensures Val(Dec(n, w)) == n
  {
    if w > 0 {
      ValDec(n / 10, w - 1);
      assert Dec(n, w)[..w - 1] == Dec(n / 10, w - 1);
    }
  }

  /** Byte-by-byte comparison of strings. */
  predicate LexLess(s: string, t: string) {
    t != "" && (s == "" || s[0] < t[0] || (s[0] == t[0] && LexLess(s[1..], t[1..])))
  }

  lemma {:induction false} LexConcat(a: string, b: string, x: string, y: string)
    requires |a| == |b|
    ensures LexLess(a + x, b + y) <==> LexLess(a, b) || (a == b && LexLess(x, y))
  {
    if a == "" {
      assert a + x == x && b + y == y;
    } else {
      assert (a + x)[1..] == a[1..] + x && (b + y)[1..] == b[1..] + y;
      LexConcat(a[1..], b[1..], x, y);
      assert a == b <==> a[0] == b[0] && a[1..] == b[1..];
    }
  }

  lemma {:induction false} LexIrreflexive(s: string)
    ensures !LexLess(s, s)
  {
    if s != "" {
      LexIrreflexive(s[1..]);
    }
  }

  lemma {:induction false} DecOrder(m: nat, n: nat, w: nat)
    requires m < Pow10(w) && n < Pow10(w)
    ensures LexLess(Dec(m, w), Dec(n, w)) <==> m < n
    ensures Dec(m, w) == Dec(n, w) <==> m == n
  {
    ValDec(m, w);
    ValDec(n, w);
    if w > 0 {
      DecOrder(m / 10, n / 10, w - 1);
      LexConcat(Dec(m / 10, w - 1), Dec(n / 10, w - 1), [Digit(m % 10)], [Digit(n % 10)]);
    }
  }

  // ----- The printed form -----

  function DigitCount(n: nat): nat {
    if n < 10 then 1 else 1 + DigitCount(n / 10)
  }

  /** Years take four digits, more only when they need more. */
  function YearWidth(y: nat): nat {
    if y < 10000 then 4 else DigitCount(y)
  }

  /** Years before year 0 carry a sign. */
  function YearText(y: int): string {
    if y < 0 then "-" + Dec(-y, YearWidth(-y)) else Dec(y, YearWidth(y))
  }

  function DateText(c: Civil): string {
    YearText(c.year) + ("-" + (Dec(c.month, 2) + ("-" + Dec(c.day, 2))))
  }

  function ClockText(c: Civil): string {
    Dec(c.hour, 2) + (":" + (Dec(c.minute, 2) + (":" + (Dec(c.second, 2) + "Z"))))
  }

  function Text(c: Civil): string {
    DateText(c) + ("T" + ClockText(c))
  }

  function Format(t: int): string {
    Text(CivilOf(t))
  }

  /** A separator does not affect the comparison. */
  lemma LexAfterSeparator(sep: string, x: string, y: string)
    ensures LexLess(sep + x, sep + y) <==> LexLess(x, y)
  {
    LexConcat(sep, sep, x, y);
    LexIrreflexive(sep);
  }

  /** A fixed-width number first decides, then the rest. */
  lemma LexField(m: nat, n: nat, w: nat, sep: string, x: string, y: string)
    requires m < Pow10(w) && n < Pow10(w)
    ensures LexLess(Dec(m, w) + (sep + x), Dec(n, w) + (sep + y)) <==> m < n || (m == n && LexLess(x, y))
  {
    LexConcat(Dec(m, w), Dec(n, w), sep + x, sep + y);
    LexAfterSeparator(sep, x, y);
    DecOrder(m, n, w);
  }

  lemma Pow10Small()
    ensures Pow10(2) == 100 && Pow10(4) == 10000
  {
    assert Pow10(1) == 10;
    assert Pow10(3) == 1000;
  }

  lemma {:induction false} DigitCountBound(n: nat)
    ensures n < Pow10(DigitCount(n))
  {
    if n >= 10 {
      DigitCountBound(n / 10);
    }
  }

  lemma {:induction false} DigitCountAscends(m: nat, n: nat)
    requires m <= n
    ensures DigitCount(m) <= DigitCount(n)
  {
    if m >= 10 {
      DigitCountAscends(m / 10, n / 10);
    }
  }

  lemma YearFits(y: nat)
    ensures y < Pow10(YearWidth(y))
  {
    Pow10Small();
    DigitCountBound(y);
  }

  lemma FiveDigits()
    ensures DigitCount(10000) == 5
  {
    assert DigitCount(100) == 3;
    assert DigitCount(1000) == 4;
  }

  /** A year number with more digits is larger. */
  lemma WiderIsLater(y: nat, z: nat)
    requires YearWidth(y) > YearWidth(z)
    ensures y > z
  {
    FiveDigits();
    if z >= 10000 {
      DigitCountAscends(10000, z);
    }
    if y <= z {
      DigitCountAscends(y, z);
    }
  }

  lemma MonthLengthSmall(c: Civil)
    requires Valid(c)
    ensures c.month < 100 && c.day < 100 && c.hour < 100 && c.minute < 100 && c.second < 100
  {
  }

  lemma ClockOrder(a: Civil, b: Civil)
    requires Valid(a) && Valid(b)
    ensures LexLess(ClockText(a), ClockText(b)) <==> TimeBefore(a, b)
  {
    Pow10Small();
    LexField(a.hour, b.hour, 2, ":", Dec(a.minute, 2) + (":" + (Dec(a.second, 2) + "Z")), Dec(b.minute, 2) + (":" + (Dec(b.second, 2) + "Z")));
    LexField(a.minute, b.minute, 2, ":", Dec(a.second, 2) + "Z", Dec(b.second, 2) + "Z");
    LexConcat(Dec(a.second, 2), Dec(b.second, 2), "Z", "Z");
    LexIrreflexive("Z");
    DecOrder(a.second, b.second, 2);
  }

  /** From year 0 on, and with equally many digits. */
  predicate SameWidth(a: Civil, b: Civil) {
    a.year >= 0 && b.year >= 0 && YearWidth(a.year) == YearWidth(b.year)
  }

  lemma DateOrder(a: Civil, b: Civil)
    requires Valid(a) && Valid(b) && SameWidth(a, b)
    ensures LexLess(DateText(a), DateText(b)) <==> DateBefore(a, b)
  {
    Pow10Small();
    MonthLengthSmall(a);
    MonthLengthSmall(b);
    YearFits(a.year);
    YearFits(b.year);
    LexField(a.year, b.year, YearWidth(a.year), "-", Dec(a.month, 2) + ("-" + Dec(a.day, 2)), Dec(b.month, 2) + ("-" + Dec(b.day, 2)));
    LexField(a.month, b.month, 2, "-", Dec(a.day, 2), Dec(b.day, 2));
    DecOrder(a.day, b.day, 2);
  }

  lemma DateTextInjective(a: Civil, b: Civil)
    requires Valid(a) && Valid(b) && SameWidth(a, b)
    ensures DateText(a) == DateText(b) <==> SameDate(a, b)
  {
    DateOrder(a, b);
    DateOrder(b, a);
    LexIrreflexive(DateText(a));
  }

  lemma TextOrder(a: Civil, b: Civil)
    requires Valid(a) && Valid(b) && SameWidth(a, b)
    ensures LexLess(Text(a), Text(b)) <==> Before(a, b)
  {
    LexConcat(DateText(a), DateText(b), "T" + ClockText(a), "T" + ClockText(b));
    LexAfterSeparator("T", ClockText(a), ClockText(b));
    DateOrder(a, b);
    DateTextInjective(a, b);
    ClockOrder(a, b);
  }

  // ----- Years with different numbers of digits -----

  /** n without its last d decimal digits. */
  function Lead(n: nat, d: nat): nat {
    if d == 0 then n else Lead(n / 10, d - 1)
  }

  lemma {:induction false} DecSplit(n: nat, w: nat, d: nat) returns (tail: string)
    ensures Dec(n, w + d) == Dec(Lead(n, d), w) + tail && |tail| == d && forall i :: 0 <= i < d ==> IsDigit(tail[i])
    decreases d
  {
    if d == 0 {
      tail := "";
    } else {
      var front := DecSplit(n / 10, w, d - 1);
      tail := front + [Digit(n % 10)];
    }
  }

  lemma {:induction false} LeadFits(n: nat, w: nat, d: nat)
    requires n < Pow10(w + d)
    ensures Lead(n, d) < Pow10(w)
    decreases d
  {
    if d > 0 {
      LeadFits(n / 10, w, d - 1);
    }
  }

  /** Two texts that go on with a digit and with a hyphen after equally many digits. */
  lemma DigitAfterHyphen(m: nat, n: nat, w: nat, x: string, y: string)
    requires m < Pow10(w) && n < Pow10(w) && x != "" && IsDigit(x[0]) && y != "" && y[0] == '-'
    ensures LexLess(Dec(m, w) + x, Dec(n, w) + y) <==> m < n
    ensures LexLess(Dec(n, w) + y, Dec(m, w) + x) <==> n <= m
  {
    LexConcat(Dec(m, w), Dec(n, w), x, y);
    LexConcat(Dec(n, w), Dec(m, w), y, x);
    DecOrder(m, n, w);
    DecOrder(n, m, w);
  }

  /** Two texts whose first year has more digits than the second. */
  lemma WiderOrder(y: nat, z: nat, rest1: string, rest2: string)
    requires YearWidth(y) > YearWidth(z)
    ensures var lead := Lead(y, YearWidth(y) - YearWidth(z));
            && (LexLess(YearText(y) + ("-" + rest1), YearText(z) + ("-" + rest2)) <==> lead < z)
            && (LexLess(YearText(z) + ("-" + rest2), YearText(y) + ("-" + rest1)) <==> z <= lead)
  {
    var w, d := YearWidth(z), YearWidth(y) - YearWidth(z);
    var tail := DecSplit(y, w, d);
    YearFits(y);
    YearFits(z);
    LeadFits(y, w, d);
    var x := tail + ("-" + rest1);
    assert IsDigit(tail[0]) && x[0] == tail[0];
    Regroup(Dec(Lead(y, d), w), tail, "-" + rest1);
    DigitAfterHyphen(Lead(y, d), z, w, x, "-" + rest2);
  }

  lemma Regroup(a: string, b: string, c: string)
    ensures (a + b) + c == a + (b + c)
  {
  }

  lemma TextByYear(c: Civil) returns (rest: string)
    ensures Text(c) == YearText(c.year) + ("-" + rest)
  {
    var monthDay := Dec(c.month, 2) + ("-" + Dec(c.day, 2));
    rest := monthDay + ("T" + ClockText(c));
    Regroup(YearText(c.year), "-" + monthDay, "T" + ClockText(c));
    Regroup("-", monthDay, "T" + ClockText(c));
  }

  lemma WiderText(a: Civil, b: Civil)
    requires Valid(a) && Valid(b) && a.year >= 0 && b.year >= 0 && YearWidth(a.year) > YearWidth(b.year)
    ensures a.year > b.year
    ensures var lead := Lead(a.year, YearWidth(a.year) - YearWidth(b.year));
            (LexLess(Text(a), Text(b)) <==> lead < b.year) && (LexLess(Text(b), Text(a)) <==> b.year <= lead)
  {
    WiderIsLater(a.year, b.year);
    var rest1 := TextByYear(a);
    var rest2 := TextByYear(b);
    WiderOrder(a.year, b.year, rest1, rest2);
  }

  // ----- Years before year 0 -----

  /** The same date and time in the year with the opposite sign. */
  function Mirror(c: Civil): Civil {
    c.(year := -c.year)
  }

  lemma Multiple4(y: int)
    ensures (-y) % 4 == 0 <==> y % 4 == 0
  {
  }

  lemma Multiple100(y: int)
    ensures (-y) % 100 == 0 <==> y % 100 == 0
  {
  }

  lemma Multiple400(y: int)
    ensures (-y) % 400 == 0 <==> y % 400 == 0
  {
  }

  lemma LeapMirror(y: int)
    ensures IsLeap(-y) == IsLeap(y)
  {
    Multiple4(y);
    Multiple100(y);
    Multiple400(y);
  }

  lemma MirrorValid(c: Civil)
    requires Valid(c)
    ensures Valid(Mirror(c))
  {
    LeapMirror(c.year);
  }

  lemma MirrorText(c: Civil)
    requires c.year < 0
    ensures Text(c) == "-" + Text(Mirror(c))
  {
    var monthDay := "-" + (Dec(c.month, 2) + ("-" + Dec(c.day, 2)));
    var year := Dec(-c.year, YearWidth(-c.year));
    SignFirst(year, monthDay, "T" + ClockText(c));
  }

  lemma SignFirst(a: string, b: string, c: string)
    ensures (("-" + a) + b) + c == "-" + ((a + b) + c)
  {
  }

  /** Among years before year 0 the sign is common, and what follows compares as if it were positive. */
  lemma NegativeTexts(a: Civil, b: Civil)
    requires Valid(a) && Valid(b) && a.year < 0 && b.year < 0
    ensures Valid(Mirror(a)) && Valid(Mirror(b))
    ensures LexLess(Text(a), Text(b)) <==> LexLess(Text(Mirror(a)), Text(Mirror(b)))
  {
    MirrorValid(a);
    MirrorValid(b);
    MirrorText(a);
    MirrorText(b);
    LexAfterSeparator("-", Text(Mirror(a)), Text(Mirror(b)));
  }

  /** A signed year compares below an unsigned one, as it should. */
  lemma SignedBelowUnsigned(a: Civil, b: Civil)
    requires Valid(a) && Valid(b) && a.year < 0 <= b.year
    ensures LexLess(Text(a), Text(b)) && !LexLess(Text(b), Text(a))
  {
    MirrorText(a);
    var rest := TextByYear(b);
    assert Text(b)[0] == Dec(b.year, YearWidth(b.year))[0];
  }

  // ----- The exact condition -----

  /** Of two years from year 0 on, whether comparing their texts agrees with comparing them: equally
      many digits, or the leading digits of the longer one are at least the shorter one. */
  predicate MagnitudesCompare(y: nat, z: nat) {
    var v, w := YearWidth(y), YearWidth(z);
    if v > w then Lead(y, v - w) >= z else if w > v then Lead(z, w - v) >= y else true
  }

  /** Whether comparing the texts of two years agrees with comparing the years. With opposite signs
      they always do; with two signs, magnitudes are compared the wrong way round, so they do only for
      the same year, or where more digits hide a difference the other way. */
  predicate YearsCompare(y: int, z: int) {
    if y < 0 && z < 0 then y == z || (YearWidth(-y) != YearWidth(-z) && !MagnitudesCompare(-y, -z))
    else if y < 0 || z < 0 then true
    else MagnitudesCompare(y, z)
  }

  lemma UnsignedOrderIff(a: Civil, b: Civil)
    requires Valid(a) && Valid(b) && a.year >= 0 && b.year >= 0
    ensures (LexLess(Text(a), Text(b)) <==> Before(a, b)) <==> MagnitudesCompare(a.year, b.year)
  {
    if YearWidth(a.year) > YearWidth(b.year) {
      WiderIff(a, b);
    } else if YearWidth(a.year) < YearWidth(b.year) {
      WiderIff(b, a);
    } else {
      TextOrder(a, b);
    }
  }

  lemma WiderIff(a: Civil, b: Civil)
    requires Valid(a) && Valid(b) && a.year >= 0 && b.year >= 0 && YearWidth(a.year) > YearWidth(b.year)
    ensures (LexLess(Text(a), Text(b)) <==> Before(a, b)) <==> MagnitudesCompare(a.year, b.year)
    ensures (LexLess(Text(b), Text(a)) <==> Before(b, a)) <==> MagnitudesCompare(b.year, a.year)
  {
    WiderText(a, b);
  }

  lemma NegativeOrderIff(a: Civil, b: Civil)
    requires Valid(a) && Valid(b) && a.year < 0 && b.year < 0
    ensures (LexLess(Text(a), Text(b)) <==> Before(a, b)) <==> YearsCompare(a.year, b.year)
  {
    NegativeTexts(a, b);
    UnsignedOrderIff(Mirror(a), Mirror(b));
    if YearWidth(-a.year) > YearWidth(-b.year) {
      WiderIsLater(-a.year, -b.year);
    } else if YearWidth(-a.year) < YearWidth(-b.year) {
      WiderIsLater(-b.year, -a.year);
    }
  }

  lemma TextOrderIff(a: Civil, b: Civil)
    requires Valid(a) && Valid(b)
    ensures (LexLess(Text(a), Text(b)) <==> Seconds(a) < Seconds(b)) <==> YearsCompare(a.year, b.year)
  {
    BeforeIsEarlier(a, b);
    if a.year < 0 && b.year < 0 {
      NegativeOrderIff(a, b);
    } else if a.year < 0 {
      SignedBelowUnsigned(a, b);
    } else if b.year < 0 {
      SignedBelowUnsigned(b, a);
    } else {
      UnsignedOrderIff(a, b);
    }
  }

  /** The exact condition, for all instants: comparing the strings agrees with comparing the instants
      if and only if the two years compare. */
  lemma OrderAgreesIff(s: int, t: int)
    ensures (LexLess(Format(s), Format(t)) <==> s < t) <==> YearsCompare(CivilOf(s).year, CivilOf(t).year)
  {
    TextOrderIff(CivilOf(s), CivilOf(t));
  }

  /** In particular it agrees on the years 0 to 9999. */
  lemma OrderPreserved(s: int, t: int)
    requires 0 <= CivilOf(s).year < 10000 && 0 <= CivilOf(t).year < 10000
    ensures LexLess(Format(s), Format(t)) <==> s < t
  {
    OrderAgreesIff(s, t);
  }

  lemma YearsCompareEither(y: int, z: int)
    ensures YearsCompare(y, z) == YearsCompare(z, y) && YearsCompare(y, y)
  {
  }

  /** No two instants have the same text. */
  lemma FormatInjective(s: int, t: int)
    requires Format(s) == Format(t)
    ensures s == t
  {
    OrderAgreesIff(s, t);
    OrderAgreesIff(t, s);
    LexIrreflexive(Format(s));
    YearsCompareEither(CivilOf(s).year, CivilOf(t).year);
  }

  lemma FiveDigitText(a: Civil, b: Civil)
    requires Valid(a) && Valid(b) && 10000 <= a.year < 100000 && 0 <= b.year < 10000
    ensures Seconds(a) > Seconds(b) && (LexLess(Text(a), Text(b)) <==> a.year / 10 < b.year)
  {
    FiveDigitWidth(a.year);
    WiderText(a, b);
    BeforeIsEarlier(b, a);
    assert Lead(a.year, 1) == Lead(a.year / 10, 0);
  }

  /** So a five-digit year is ordered correctly against a four-digit one exactly when its first four
      digits are not below it. */
  lemma FiveDigitYears(s: int, t: int)
    requires 10000 <= CivilOf(s).year < 100000 && 0 <= CivilOf(t).year < 10000
    ensures s > t && (LexLess(Format(s), Format(t)) <==> CivilOf(s).year / 10 < CivilOf(t).year)
  {
    FiveDigitText(CivilOf(s), CivilOf(t));
  }

  lemma FiveDigitWidth(y: nat)
    requires 10000 <= y < 100000
    ensures YearWidth(y) == 5
  {
    assert DigitCount(y / 1000) == 2;
    assert DigitCount(y / 100) == 3 by {
      assert y / 100 / 10 == y / 1000;
    }
    assert DigitCount(y / 10) == 4 by {
      assert y / 10 / 10 == y / 100;
    }
  }

  lemma FiveDigitCompare(y: nat, z: nat)
    requires 10000 <= y < 100000 && z < 10000
    ensures YearsCompare(y, z) == YearsCompare(z, y) == (y / 10 >= z)
  {
    FiveDigitWidth(y);
    assert Lead(y, 1) == Lead(y / 10, 0);
  }

  // ----- Reading a normalised string back -----

  predicate AllDigits(s: string) {
    forall i :: 0 <= i < |s| ==> IsDigit(s[i])
  }

  predicate Shaped(s: string) {
    && |s| == 20
    && AllDigits(s[0..4]) && AllDigits(s[5..7]) && AllDigits(s[8..10])
    && AllDigits(s[11..13]) && AllDigits(s[14..16]) && AllDigits(s[17..19])
    && s[4] == '-' && s[7] == '-' && s[10] == 'T' && s[13] == ':' && s[16] == ':' && s[19] == 'Z'
  }

  function Fields(s: string): Civil
    requires Shaped(s)
  {
    Civil(Val(s[0..4]), Val(s[5..7]), Val(s[8..10]), Val(s[11..13]), Val(s[14..16]), Val(s[17..19]))
  }

  /** The layout tried first, on its "Z" form without fraction: four-digit year, and every field in
      range. */
  function ParseNormal(s: string): Option<int> {
    if Shaped(s) && Valid(Fields(s)) then Some(Seconds(Fields(s))) else None
  }

  lemma TextParts(c: Civil)
    requires Valid(c) && 0 <= c.year < 10000
    ensures var s := Text(c);
            |s| == 20
            && s[0..4] == Dec(c.year, 4) && s[5..7] == Dec(c.month, 2) && s[8..10] == Dec(c.day, 2)
            && s[11..13] == Dec(c.hour, 2) && s[14..16] == Dec(c.minute, 2) && s[17..19] == Dec(c.second, 2)
            && s[4] == '-' && s[7] == '-' && s[10] == 'T' && s[13] == ':' && s[16] == ':' && s[19] == 'Z'
  {
    var d, k := DateText(c), ClockText(c);
    assert |d| == 10 && d[0..4] == Dec(c.year, 4) && d[5..7] == Dec(c.month, 2) && d[8..10] == Dec(c.day, 2);
    assert |k| == 9 && k[0..2] == Dec(c.hour, 2) && k[3..5] == Dec(c.minute, 2) && k[6..8] == Dec(c.second, 2);
    TextSlices(d, k);
  }

  lemma TextSlices(d: string, k: string)
    requires |d| == 10 && |k| == 9
    ensures var s := d + ("T" + k);
            |s| == 20 && s[0..4] == d[0..4] && s[5..7] == d[5..7] && s[8..10] == d[8..10]
            && s[11..13] == k[0..2] && s[14..16] == k[3..5] && s[17..19] == k[6..8]
            && s[4] == d[4] && s[7] == d[7] && s[10] == 'T' && s[13] == k[2] && s[16] == k[5] && s[19] == k[8]
  {
  }

  lemma FieldsOfText(c: Civil)
    requires Valid(c) && 0 <= c.year < 10000
    ensures Shaped(Text(c)) && Fields(Text(c)) == c
  {
    TextParts(c);
    Pow10Small();
    MonthLengthSmall(c);
    ValDec(c.year, 4);
    ValDec(c.month, 2);
    ValDec(c.day, 2);
    ValDec(c.hour, 2);
    ValDec(c.minute, 2);
    ValDec(c.second, 2);
  }

  /** A text whose year is not 0 to 9999 is longer than the normal form. */
  lemma LongText(c: Civil)
    requires Valid(c) && !(0 <= c.year < 10000)
    ensures |Text(c)| > 20
  {
    FiveDigits();
    if c.year < 0 {
      assert YearWidth(-c.year) >= 4 by {
        if -c.year >= 10000 {
          DigitCountAscends(10000, -c.year);
        }
      }
    } else {
      DigitCountAscends(10000, c.year);
    }
  }

  /** A formatted instant reads back as itself exactly when its year is one of 0 to 9999. */
  lemma FormatReadsBackIff(t: int)
    ensures ParseNormal(Format(t)) == Some(t) <==> 0 <= CivilOf(t).year < 10000
  {
    if 0 <= CivilOf(t).year < 10000 {
      FieldsOfText(CivilOf(t));
    } else {
      LongText(CivilOf(t));
    }
  }

  /** 1 January 1970, in seconds from the start of year 0. */
  const UNIX_EPOCH: int := 62_167_219_200

  predicate Signed(s: string) {
    s != "" && (s[0] == '-' || s[0] == '+')
  }

  function EpochDigits(s: string): string {
    if Signed(s) then s[1..] else s
  }

  /** A count of seconds from 1970, with or without a sign, of at most 18 digits. No other accepted
      layout consists of digits after an optional sign. */
  predicate PlainEpoch(s: string) {
    0 < |EpochDigits(s)| <= 18 && AllDigits(EpochDigits(s))
  }

  function EpochValue(s: string): int
    requires PlainEpoch(s)
  {
    if s[0] == '-' then 0 - Val(EpochDigits(s)) else Val(EpochDigits(s))
  }

  /** The instant an input denotes: the normal form, then plain epoch seconds, then the remaining
      layouts (longer epochs included), which are any function from text to instants here. */
  function Instant(s: string, other: string -> Option<int>): Option<int> {
    match ParseNormal(s)
    case Some(t) => Some(t)
    case None => if PlainEpoch(s) then Some(UNIX_EPOCH + EpochValue(s)) else other(s)
  }

  /** parseTimeToRFC3339. */
  function Normalise(s: string, other: string -> Option<int>): Option<string> {
    match Instant(s, other)
    case Some(t) => Some(Format(t))
    case None => None
  }

  /** Normalising twice is normalising once, for every accepted input whose year is one of 0 to 9999. */
  lemma NormaliseIdempotent(s: string, other: string -> Option<int>, t: int)
    requires Instant(s, other) == Some(t) && 0 <= CivilOf(t).year < 10000
    ensures Normalise(s, other) == Some(Format(t)) && Normalise(Format(t), other) == Some(Format(t))
    ensures Normalise(s, other) != Some("")
  {
    FormatReadsBackIff(t);
  }

  /** A string already in normal form is returned unchanged. */
  lemma NormalFormFixed(s: string, other: string -> Option<int>)
    requires Shaped(s) && Valid(Fields(s))
    ensures Normalise(s, other) == Some(s)
  {
    var c := Fields(s);
    NormalText(s);
    SecondsInjective(CivilOf(Seconds(c)), c);
  }

  lemma {:induction false} DecVal(s: string)
    requires AllDigits(s)
    ensures Val(s) < Pow10(|s|) && Dec(Val(s), |s|) == s
  {
    if s != "" {
      DecVal(s[..|s| - 1]);
      var d := DigitValue(s[|s| - 1]);
      assert Val(s) / 10 == Val(s[..|s| - 1]) && Val(s) % 10 == d;
      assert s == s[..|s| - 1] + [s[|s| - 1]];
    }
  }

  lemma NormalText(s: string)
    requires Shaped(s) && Valid(Fields(s))
    ensures 0 <= Fields(s).year < 10000 && Text(Fields(s)) == s
  {
    var c := Fields(s);
    Pow10Small();
    DecVal(s[0..4]);
    DecVal(s[5..7]);
    DecVal(s[8..10]);
    DecVal(s[11..13]);
    DecVal(s[14..16]);
    DecVal(s[17..19]);
    TextParts(c);
    SameByParts(Text(c), s);
  }

  lemma SameByParts(x: string, y: string)
    requires |x| == |y| == 20
    requires x[0..4] == y[0..4] && x[5..7] == y[5..7] && x[8..10] == y[8..10]
    requires x[11..13] == y[11..13] && x[14..16] == y[14..16] && x[17..19] == y[17..19]
    requires x[4] == y[4] && x[7] == y[7] && x[10] == y[10] && x[13] == y[13] && x[16] == y[16] && x[19] == y[19]
    ensures x == y
  {
    assert forall i :: 0 <= i < 4 ==> x[i] == x[0..4][i] && y[i] == y[0..4][i];
    assert x[5] == x[5..7][0] && y[5] == y[5..7][0] && x[6] == x[5..7][1] && y[6] == y[5..7][1];
    assert x[8] == x[8..10][0] && y[8] == y[8..10][0] && x[9] == x[8..10][1] && y[9] == y[8..10][1];
    assert x[11] == x[11..13][0] && y[11] == y[11..13][0] && x[12] == x[11..13][1] && y[12] == y[11..13][1];
    assert x[14] == x[14..16][0] && y[14] == y[14..16][0] && x[15] == x[14..16][1] && y[15] == y[14..16][1];
    assert x[17] == x[17..19][0] && y[17] == y[17..19][0] && x[18] == x[17..19][1] && y[18] == y[17..19][1];
    assert forall i :: 0 <= i < 20 ==> x[i] == y[i];
  }

  // ----- Accepted inputs outside the years 0 to 9999 -----

  lemma Fours(y: nat)
    ensures (y + 4) / 4 == (y + 3) / 4 + if y % 4 == 0 then 1 else 0
  {
  }

  lemma Hundreds(y: nat)
    ensures (y + 100) / 100 == (y + 99) / 100 + if y % 100 == 0 then 1 else 0
  {
  }

  lemma FourHundreds(y: nat)
    ensures (y + 400) / 400 == (y + 399) / 400 + if y % 400 == 0 then 1 else 0
  {
  }

  lemma LeapByCounts(y: nat)
    ensures YearLength(y) == 365 + (if y % 4 == 0 then 1 else 0) - (if y % 100 == 0 then 1 else 0) + (if y % 400 == 0 then 1 else 0)
  {
    assert y % 400 == 0 ==> y % 100 == 0;
    assert y % 100 == 0 ==> y % 4 == 0;
  }

  /** Years before y: 365 days each, and the leap days of the Gregorian rule. */
  lemma {:induction false} DaysBeforeYearClosedForm(y: nat)
    ensures DaysBeforeYear(y) == 365 * y + (y + 3) / 4 - (y + 99) / 100 + (y + 399) / 400
  {
    if y > 0 {
      DaysBeforeYearClosedForm(y - 1);
      Fours(y - 1);
      Hundreds(y - 1);
      FourHundreds(y - 1);
      LeapByCounts(y - 1);
    }
  }

  lemma FirstSecond(c: Civil, days: int)
    requires c.month == c.day == 1 && c.hour == c.minute == c.second == 0 && DaysBeforeYear(c.year) == days
    ensures Seconds(c) == days * 86400
  {
    SecondsSplit(c);
  }

  /** The epoch constant is the first second of 1970. */
  lemma EpochIs1970(c: Civil)
    requires c == Civil(1970, 1, 1, 0, 0, 0)
    ensures UNIX_EPOCH == Seconds(c)
  {
    DaysBeforeYearClosedForm(c.year);
    FirstSecond(c, 719_528);
  }

  lemma FormatOf(c: Civil)
    requires Valid(c)
    ensures Format(Seconds(c)) == Text(c)
  {
    SecondsInjective(CivilOf(Seconds(c)), c);
  }

  lemma EpochText(n: nat, w: nat)
    requires n < 1_000_000_000_000 && n < Pow10(w) && 0 < w <= 18
    ensures PlainEpoch(Dec(n, w)) && EpochValue(Dec(n, w)) == n
    ensures PlainEpoch("-" + Dec(n, w)) && EpochValue("-" + Dec(n, w)) == 0 - n
  {
    ValDec(n, w);
    assert ("-" + Dec(n, w))[1..] == Dec(n, w);
  }

  lemma Pow10Eleven()
    ensures Pow10(11) == 100_000_000_000 && Pow10(12) == 1_000_000_000_000
  {
    assert Pow10(3) == 1000;
    assert Pow10(6) == 1_000_000;
    assert Pow10(9) == 1_000_000_000;
  }

  lemma PlainEpochRead(text: string, other: string -> Option<int>)
    requires PlainEpoch(text)
    ensures Instant(text, other) == Some(UNIX_EPOCH + EpochValue(text))
  {
    assert !Shaped(text);
  }

  /** An accepted input: 253402300800 epoch seconds, printed on 12 digits, denote the first instant of
      year 10000 ... */
  lemma Year10000Accepted(text: string, other: string -> Option<int>, n: nat, c: Civil)
    requires n == 253_402_300_800 && text == Dec(n, 12) && c == Civil(10000, 1, 1, 0, 0, 0)
    ensures Instant(text, other) == Some(Seconds(c))
  {
    Pow10Eleven();
    EpochText(n, 12);
    PlainEpochRead(text, other);
    FirstOf10000(c);
  }

  lemma FirstOf10000(c: Civil)
    requires c == Civil(10000, 1, 1, 0, 0, 0)
    ensures Seconds(c) == 315_569_520_000
  {
    DaysBeforeYearClosedForm(c.year);
    FirstSecond(c, 3_652_425);
  }

  lemma SameTexts(a: Civil, b: Civil)
    requires Valid(a) && Valid(b) && LexLess(Text(a), Text(b))
    ensures LexLess(Format(Seconds(a)), Format(Seconds(b)))
  {
    FormatOf(a);
    FormatOf(b);
  }

  lemma FiveDigitsBelow(a: Civil, b: Civil)
    requires Valid(a) && Valid(b) && 10000 <= a.year < 100000 && a.year / 10 < b.year < 10000
    ensures Seconds(b) < Seconds(a) && LexLess(Format(Seconds(a)), Format(Seconds(b)))
  {
    FiveDigitText(a, b);
    SameTexts(a, b);
  }

  /** ... whose text compares below that of every earlier date of the years 1001 to 9999. */
  lemma Year10000Misorders(later: Civil, earlier: Civil)
    requires later == Civil(10000, 1, 1, 0, 0, 0) && Valid(earlier) && 1000 < earlier.year < 10000
    ensures Seconds(earlier) < Seconds(later) && LexLess(Format(Seconds(later)), Format(Seconds(earlier)))
  {
    FiveDigitsBelow(later, earlier);
  }

  lemma YearsBeforeZero()
    ensures DaysBeforeYear(-1) == -365 && DaysBeforeYear(-2) == -730
  {
    YearStep(-2);
    YearStep(-1);
  }

  /** Two more accepted inputs: -62198755200 epoch seconds denote the first instant of year -1 ... */
  lemma YearMinusOneAccepted(text: string, other: string -> Option<int>, n: nat, c: Civil)
    requires n == 62_198_755_200 && text == "-" + Dec(n, 11) && c == Civil(-1, 1, 1, 0, 0, 0)
    ensures Instant(text, other) == Some(Seconds(c))
  {
    Pow10Eleven();
    EpochText(n, 11);
    PlainEpochRead(text, other);
    YearsBeforeZero();
    FirstSecond(c, -365);
  }

  /** ... and -62198755201 the last of year -2 ... */
  lemma YearMinusTwoAccepted(text: string, other: string -> Option<int>, n: nat, c: Civil)
    requires n == 62_198_755_201 && text == "-" + Dec(n, 11) && c == Civil(-2, 12, 31, 23, 59, 59)
    ensures Instant(text, other) == Some(Seconds(c))
  {
    Pow10Eleven();
    EpochText(n, 11);
    PlainEpochRead(text, other);
    LastSecond(c);
  }

  lemma LastSecond(c: Civil)
    requires c == Civil(-2, 12, 31, 23, 59, 59)
    ensures Seconds(c) == -31_536_001
  {
    YearsBeforeZero();
    MonthsFillYear(c.year);
    assert DaysBeforeMonth(c.year, 13) == DaysBeforeMonth(c.year, 12) + 31;
    SecondsSplit(c);
  }

  /** Of two years before year 0 with equally many digits, the later one compares below. */
  lemma NegativesReversed(a: Civil, b: Civil)
    requires Valid(a) && Valid(b) && b.year < a.year < 0 && YearWidth(-a.year) == YearWidth(-b.year)
    ensures Seconds(b) < Seconds(a) && LexLess(Format(Seconds(a)), Format(Seconds(b)))
  {
    BeforeIsEarlier(b, a);
    NegativeTexts(a, b);
    TextOrder(Mirror(a), Mirror(b));
    SameTexts(a, b);
  }

  /** ... and the later one compares below the earlier one, although both years have four digits. */
  lemma YearsBeforeZeroMisorder(later: Civil, earlier: Civil)
    requires later == Civil(-1, 1, 1, 0, 0, 0) && earlier == Civil(-2, 12, 31, 23, 59, 59)
    ensures Seconds(earlier) < Seconds(later) && LexLess(Format(Seconds(later)), Format(Seconds(earlier)))
  {
    NegativesReversed(later, earlier);
  }
}
