/**
 The RFC 3339 stamps the message table is ordered by: `Format(time.RFC3339)` of a UTC time
 (internal/service/account.go:1876, 1980, 2027). Section 5.1 of RFC 3339 promises that
 stamps of one shape sort as strings; here that is proved for every instant whose year has
 four digits, which is what the sorts, the cursor and the SQL MAX rely on.
 */
module Timestamps {
  import opened Text

  datatype Civil = Civil(year: nat, month: nat, day: nat, hour: nat, minute: nat, second: nat)

  predicate Leap(year: nat) {
    year % 4 == 0 && (year % 100 != 0 || year % 400 == 0)
  }

  function DaysInMonth(year: nat, month: nat): (days: nat)
    requires 1 <= month <= 12
    ensures 28 <= days <= 31
  {
    if month == 2 then (if Leap(year) then 29 else 28)
    else if month in {4, 6, 9, 11} then 30
    else 31
  }

  function DaysInYear(year: nat): nat {
    if Leap(year) then 366 else 365
  }

  predicate Valid(c: Civil) {
    && 1 <= c.month <= 12 && 1 <= c.day <= DaysInMonth(c.year, c.month)
    && c.hour < 24 && c.minute < 60 && c.second < 60
  }

  // ---- Rendering ----

  function Digit(n: nat): char
    requires n < 10
  {
    '0' + n as char
  }

  function Pow10(width: nat): nat {
    if width == 0 then 1 else 10 * Pow10(width - 1)
  }

  /** `n` in decimal, zero-padded to `width` digits. */
  function Pad(n: nat, width: nat): (s: string)
    requires n < Pow10(width)
    ensures |s| == width
    ensures forall i :: 0 <= i < |s| ==> '0' <= s[i] <= '9'
  {
    if width == 0 then "" else Pad(n / 10, width - 1) + [Digit(n % 10)]
  }

  /** One field, its separator, and the rest of the stamp. */
  function Field(n: nat, width: nat, separator: char, rest: string): (s: string)
    requires n < Pow10(width)
    ensures |s| == width + 1 + |rest|
    ensures rest != "" ==> s[|s| - 1] == rest[|rest| - 1]
  {
    Pad(n, width) + ([separator] + rest)
  }

  lemma Powers()
    ensures Pow10(2) == 100 && Pow10(4) == 10000
  {
    assert Pow10(1) == 10 && Pow10(3) == 1000;
  }

  function FormatTime(c: Civil): (s: string)
    requires Valid(c)
    ensures |s| == 9 && s[8] == 'Z'
  {
    Powers();
    Field(c.hour, 2, ':', Field(c.minute, 2, ':', Field(c.second, 2, 'Z', "")))
  }

  /** How many digits a year takes: four, or more where it needs more. */
  function Width(year: nat, from: nat := 4): (w: nat)
    ensures from <= w && year < Pow10(w)
    ensures year < Pow10(from) ==> w == from
    ensures from < w ==> Pow10(w - 1) <= year
    decreases if year < Pow10(from) then 0 else year - Pow10(from) + 1
  {
    if year < Pow10(from) then from
    else
      PowerIsPositive(from);
      Width(year, from + 1)
  }

  lemma PowerIsPositive(width: nat)
    ensures 0 < Pow10(width)
  {
  }

  function FormatDay(c: Civil): (s: string)
    requires Valid(c)
    ensures |s| == 15 && s[14] == 'Z'
  {
    Powers();
    Field(c.month, 2, '-', Field(c.day, 2, 'T', FormatTime(c)))
  }

  function FormatYear(year: nat, day: string): (s: string)
    ensures |s| == Width(year) + 1 + |day|
    ensures day != "" ==> s[|s| - 1] == day[|day| - 1]
  {
    Field(year, Width(year), '-', day)
  }

  function Format(c: Civil): (s: string)
    requires Valid(c)
    ensures |s| == Width(c.year) + 16 && s[|s| - 1] == 'Z'
  {
    FormatYear(c.year, FormatDay(c))
  }

  // ---- Reading a stamp back ----

  /** The number that decimal digits stand for. */
  function Number(digits: string): int {
    if digits == "" then 0 else Number(digits[..|digits| - 1]) * 10 + (digits[|digits| - 1] as int - '0' as int)
  }

  lemma {:induction false} PadReads(n: nat, width: nat)
    requires n < Pow10(width)
    ensures Number(Pad(n, width)) == n
  {
    if width > 0 {
      PadReads(n / 10, width - 1);
      var front := Pad(n / 10, width - 1);
      assert Pad(n, width) == front + [Digit(n % 10)];
      assert (front + [Digit(n % 10)])[..width - 1] == front;
    }
  }

  /** A field is its number, its separator, and the rest. */
  lemma FieldReads(n: nat, width: nat, separator: char, rest: string)
    requires n < Pow10(width)
    ensures var s := Field(n, width, separator, rest);
      Number(s[..width]) == n && s[width] == separator && s[width + 1..] == rest
  {
    PadReads(n, width);
    var digits := Pad(n, width);
    hide Pad, Number;
    assert (digits + ([separator] + rest))[..width] == digits;
  }

  lemma TimeReads(c: Civil)
    requires Valid(c)
    ensures var s := FormatTime(c);
      && Number(s[..2]) == c.hour && s[2] == ':' && Number(s[3..5]) == c.minute && s[5] == ':'
      && Number(s[6..8]) == c.second && s[8] == 'Z'
  {
    Powers();
    var seconds := Field(c.second, 2, 'Z', "");
    var minutes := Field(c.minute, 2, ':', seconds);
    var s := FormatTime(c);
    FieldReads(c.second, 2, 'Z', "");
    FieldReads(c.minute, 2, ':', seconds);
    FieldReads(c.hour, 2, ':', minutes);
    hide Field, Number;
    assert s[3..] == minutes && s[3..5] == minutes[..2] && s[6..] == minutes[3..] == seconds;
    assert s[6..8] == seconds[..2];
    assert s[5] == minutes[2] && s[8] == seconds[2];
  }

  lemma DayReads(c: Civil)
    requires Valid(c)
    ensures var s := FormatDay(c);
      && Number(s[..2]) == c.month && s[2] == '-' && Number(s[3..5]) == c.day && s[5] == 'T'
      && s[6..] == FormatTime(c)
  {
    Powers();
    var time := FormatTime(c);
    var days := Field(c.day, 2, 'T', time);
    var s := FormatDay(c);
    FieldReads(c.day, 2, 'T', time);
    FieldReads(c.month, 2, '-', days);
    hide Field, Number, FormatTime;
    assert s[3..] == days && s[3..5] == days[..2] && s[5] == days[2] && s[6..] == days[3..];
  }

  /** A stamp of a four-digit year is YYYY-MM-DDTHH:MM:SSZ, with the numbers of its civil time. */
  lemma StampReads(c: Civil)
    requires Valid(c) && c.year < 10000
    ensures var s := Format(c);
      && |s| == 20 && s[4] == '-' && s[7] == '-' && s[10] == 'T' && s[13] == ':' && s[16] == ':' && s[19] == 'Z'
      && Number(s[..4]) == c.year && Number(s[5..7]) == c.month && Number(s[8..10]) == c.day
      && Number(s[11..13]) == c.hour && Number(s[14..16]) == c.minute && Number(s[17..19]) == c.second
  {
    FourDigits(c.year);
    var s, day, time := Format(c), FormatDay(c), FormatTime(c);
    assert s == Field(c.year, 4, '-', day);
    FieldReads(c.year, 4, '-', day);
    DayReads(c);
    TimeReads(c);
    hide *;
    Offsets(s, day, time);
  }

  lemma Offsets(s: string, day: string, time: string)
    requires |s| == 20 && |day| == 15 && |time| == 9 && s[5..] == day && day[6..] == time
    ensures s[5..7] == day[..2] && s[7] == day[2] && s[8..10] == day[3..5] && s[10] == day[5]
    ensures s[11..13] == time[..2] && s[13] == time[2] && s[14..16] == time[3..5] && s[16] == time[5]
    ensures s[17..19] == time[6..8] && s[19] == time[8]
  {
    assert s[11..] == s[5..][6..];
  }

  // ---- Calendar ----

  /** Days from 0000-01-01 to the first of January of `year`. */
  function DaysBeforeYear(year: nat): nat {
    365 * year + (year + 3) / 4 - (year + 99) / 100 + (year + 399) / 400
  }

  lemma MultiplesBelow(n: nat, d: nat, m: nat)
    requires 0 < d && m == d - 1
    ensures (n + 1 + m) / d == (n + m) / d + (if n % d == 0 then 1 else 0)
  {
    var q, r := n / d, n % d;
    assert n == d * q + r;
    if r == 0 {
      assert n + m == d * q + m && n + 1 + m == d * (q + 1);
    } else {
      assert n + m == d * (q + 1) + (r - 1) && n + 1 + m == d * (q + 1) + r;
    }
    QuotientIs(n + m, d, if r == 0 then q else q + 1);
    QuotientIs(n + 1 + m, d, q + 1);
  }

  lemma QuotientIs(n: nat, d: nat, q: nat)
    requires 0 < d && d * q <= n < d * q + d
    ensures n / d == q
  {
    var p := n / d;
    assert d * p <= n < d * p + d;
    assert p < q ==> d * (p + 1) <= d * q;
    assert q < p ==> d * (q + 1) <= d * p;
  }

  lemma RemainderIsZero(n: nat, d: nat, q: nat)
    requires 0 < d && n == d * q
    ensures n % d == 0
  {
    QuotientIs(n, d, q);
  }

  lemma LeapByHundreds(year: nat)
    ensures year % 400 == 0 ==> year % 100 == 0
    ensures year % 100 == 0 ==> year % 4 == 0
  {
    if year % 400 == 0 {
      RemainderIsZero(year, 100, 4 * (year / 400));
    }
    if year % 100 == 0 {
      RemainderIsZero(year, 4, 25 * (year / 100));
    }
  }

  lemma DaysBeforeNextYear(year: nat)
    ensures DaysBeforeYear(year + 1) == DaysBeforeYear(year) + DaysInYear(year)
  {
    MultiplesBelow(year, 4, 3);
    MultiplesBelow(year, 100, 99);
    MultiplesBelow(year, 400, 399);
    LeapByHundreds(year);
  }

  function DaysBeforeMonth(year: nat, month: nat): nat
    requires 1 <= month <= 12
  {
    if month == 1 then 0 else DaysBeforeMonth(year, month - 1) + DaysInMonth(year, month - 1)
  }

  /** Seconds from 0000-01-01T00:00:00Z. */
  function Seconds(c: Civil): nat
    requires Valid(c)
  {
    (DaysBeforeYear(c.year) + DaysBeforeMonth(c.year, c.month) + c.day - 1) * 86400
    + c.hour * 3600 + c.minute * 60 + c.second
  }

  function YearOf(day: nat, year: nat): (y: nat)
    requires DaysBeforeYear(year) <= day
    ensures DaysBeforeYear(y) <= day < DaysBeforeYear(y) + DaysInYear(y)
    decreases day - DaysBeforeYear(year)
  {
    DaysBeforeNextYear(year);
    if day < DaysBeforeYear(year) + DaysInYear(year) then year else YearOf(day, year + 1)
  }

  function MonthOf(dayOfYear: nat, year: nat, month: nat): (m: nat)
    requires 1 <= month <= 12 && DaysBeforeMonth(year, month) <= dayOfYear < DaysInYear(year)
    ensures 1 <= m <= 12
    ensures DaysBeforeMonth(year, m) <= dayOfYear < DaysBeforeMonth(year, m) + DaysInMonth(year, m)
    decreases 12 - month
  {
    if dayOfYear < DaysBeforeMonth(year, month) + DaysInMonth(year, month) then month
    else
      DecemberEnds(year);
      MonthOf(dayOfYear, year, month + 1)
  }

  lemma DecemberEnds(year: nat)
    ensures DaysBeforeMonth(year, 12) + DaysInMonth(year, 12) == DaysInYear(year)
  {
    assert DaysBeforeMonth(year, 2) == 31;
    assert DaysBeforeMonth(year, 3) == DaysInYear(year) - 306;
    assert DaysBeforeMonth(year, 5) == DaysInYear(year) - 245;
    assert DaysBeforeMonth(year, 7) == DaysInYear(year) - 184;
    assert DaysBeforeMonth(year, 9) == DaysInYear(year) - 122;
    assert DaysBeforeMonth(year, 11) == DaysInYear(year) - 61;
  }

  /** The civil time of the instant `seconds` after 0000-01-01T00:00:00Z. */
  function CivilOf(seconds: nat): (c: Civil)
    ensures Valid(c)
  {
    var day := seconds / 86400;
    var rest := seconds % 86400;
    var year := YearOf(day, 0);
    var dayOfYear := day - DaysBeforeYear(year);
    var month := MonthOf(dayOfYear, year, 1);
    Civil(year, month, dayOfYear - DaysBeforeMonth(year, month) + 1,
          rest / 3600, rest % 3600 / 60, rest % 3600 % 60)
  }

  lemma CivilOfKeepsInstant(seconds: nat)
    ensures Seconds(CivilOf(seconds)) == seconds
  {
    var rest := seconds % 86400;
    assert seconds == seconds / 86400 * 86400 + rest;
    assert rest == rest / 3600 * 3600 + rest % 3600;
    assert rest % 3600 == rest % 3600 / 60 * 60 + rest % 3600 % 60;
    hide YearOf, MonthOf, DaysBeforeYear, DaysBeforeMonth, DaysInMonth, Leap;
  }

  // ---- Order ----

  /** Field by field, most significant first. */
  predicate Earlier(a: Civil, b: Civil) {
    a.year < b.year || (a.year == b.year && (
    a.month < b.month || (a.month == b.month && (
    a.day < b.day || (a.day == b.day && (
    a.hour < b.hour || (a.hour == b.hour && (
    a.minute < b.minute || (a.minute == b.minute && a.second < b.second)))))))))
  }

  lemma {:induction false} YearsGrow(a: nat, b: nat)
    requires a < b
    ensures DaysBeforeYear(a) + DaysInYear(a) <= DaysBeforeYear(b)
  {
    DaysBeforeNextYear(b - 1);
    if a < b - 1 {
      YearsGrow(a, b - 1);
    }
  }

  lemma {:induction false} MonthsGrow(year: nat, a: nat, b: nat)
    requires 1 <= a < b <= 12
    ensures DaysBeforeMonth(year, a) + DaysInMonth(year, a) <= DaysBeforeMonth(year, b)
  {
    if a < b - 1 {
      MonthsGrow(year, a, b - 1);
    }
  }

  function DayNumber(c: Civil): nat
    requires Valid(c)
  {
    DaysBeforeYear(c.year) + DaysBeforeMonth(c.year, c.month) + c.day - 1
  }

  lemma MonthFits(year: nat, month: nat)
    requires 1 <= month <= 12
    ensures DaysBeforeMonth(year, month) + DaysInMonth(year, month) <= DaysInYear(year)
  {
    DecemberEnds(year);
    if month < 12 {
      MonthsGrow(year, month, 12);
    }
  }

  lemma EarlierDay(a: Civil, b: Civil)
    requires Valid(a) && Valid(b)
    requires a.year < b.year || (a.year == b.year && (a.month < b.month || (a.month == b.month && a.day < b.day)))
    ensures DayNumber(a) < DayNumber(b)
  {
    if a.year < b.year {
      YearsGrow(a.year, b.year);
      MonthFits(a.year, a.month);
    } else if a.month < b.month {
      MonthsGrow(a.year, a.month, b.month);
    }
  }

  lemma EarlierIsSooner(a: Civil, b: Civil)
    requires Valid(a) && Valid(b) && Earlier(a, b)
    ensures Seconds(a) < Seconds(b)
  {
    assert Seconds(a) == DayNumber(a) * 86400 + a.hour * 3600 + a.minute * 60 + a.second;
    assert Seconds(b) == DayNumber(b) * 86400 + b.hour * 3600 + b.minute * 60 + b.second;
    if a.year != b.year || a.month != b.month || a.day != b.day {
      EarlierDay(a, b);
    }
  }

  lemma {:induction false} PadOrder(a: nat, b: nat, width: nat)
    requires a < Pow10(width) && b < Pow10(width)
    ensures Less(Pad(a, width), Pad(b, width)) <==> a < b
    ensures Pad(a, width) == Pad(b, width) <==> a == b
  {
    if width > 0 {
      PadOrder(a / 10, b / 10, width - 1);
      var p, q, x, y := Pad(a / 10, width - 1), Pad(b / 10, width - 1), Digit(a % 10), Digit(b % 10);
      assert Pad(a, width) == p + [x] && Pad(b, width) == q + [y];
      LastDigitDecides(p, q, a % 10, b % 10);
      TenSplit(a, b);
      hide Pad, Pow10, Less, Digit;
    }
  }

  lemma TenSplit(a: nat, b: nat)
    ensures a < b <==> a / 10 < b / 10 || (a / 10 == b / 10 && a % 10 < b % 10)
    ensures a == b <==> a / 10 == b / 10 && a % 10 == b % 10
  {
  }

  lemma LastDigitDecides(p: string, q: string, a: nat, b: nat)
    requires |p| == |q| && a < 10 && b < 10
    ensures Less(p + [Digit(a)], q + [Digit(b)]) <==> Less(p, q) || (p == q && a < b)
    ensures p + [Digit(a)] == q + [Digit(b)] <==> p == q && a == b
  {
    LessAfterPrefix(p, q, [Digit(a)], [Digit(b)]);
    if p + [Digit(a)] == q + [Digit(b)] {
      assert (p + [Digit(a)])[..|p|] == p && (q + [Digit(b)])[..|p|] == q;
      assert (p + [Digit(a)])[|p|] == (q + [Digit(b)])[|p|];
    }
  }

  /** The first field that differs decides. */
  lemma FieldOrder(a: nat, b: nat, width: nat, separator: char, x: string, y: string)
    requires a < Pow10(width) && b < Pow10(width)
    ensures Less(Field(a, width, separator, x), Field(b, width, separator, y))
       <==> a < b || (a == b && Less(x, y))
  {
    PadOrder(a, b, width);
    LessAfterPrefix(Pad(a, width), Pad(b, width), [separator] + x, [separator] + y);
    LessAfterPrefix([separator], [separator], x, y);
  }

  lemma FormatTimeOrder(a: Civil, b: Civil)
    requires Valid(a) && Valid(b)
    ensures Less(FormatTime(a), FormatTime(b)) <==>
      a.hour < b.hour || (a.hour == b.hour && (
      a.minute < b.minute || (a.minute == b.minute && a.second < b.second)))
  {
    Powers();
    var a2, b2 := Field(a.second, 2, 'Z', ""), Field(b.second, 2, 'Z', "");
    FieldOrder(a.second, b.second, 2, 'Z', "", "");
    FieldOrder(a.minute, b.minute, 2, ':', a2, b2);
    FieldOrder(a.hour, b.hour, 2, ':', Field(a.minute, 2, ':', a2), Field(b.minute, 2, ':', b2));
  }

  lemma FormatDayOrder(a: Civil, b: Civil)
    requires Valid(a) && Valid(b)
    ensures Less(FormatDay(a), FormatDay(b)) <==> Earlier(a.(year := 0), b.(year := 0))
  {
    Powers();
    FormatTimeOrder(a, b);
    var a2, b2 := Field(a.day, 2, 'T', FormatTime(a)), Field(b.day, 2, 'T', FormatTime(b));
    hide Less, FormatTime, Field;
    FieldOrder(a.day, b.day, 2, 'T', FormatTime(a), FormatTime(b));
    FieldOrder(a.month, b.month, 2, '-', a2, b2);
  }

  lemma FormatOrder(a: Civil, b: Civil)
    requires Valid(a) && Valid(b) && Width(a.year) == Width(b.year)
    ensures Less(Format(a), Format(b)) <==> Earlier(a, b)
  {
    hide Less, Field, FormatDay, Width;
    FormatDayOrder(a, b);
    FieldOrder(a.year, b.year, Width(a.year), '-', FormatDay(a), FormatDay(b));
  }

  // ---- Stamps of instants ----

  /** Unix time 0 is 719528 days after 0000-01-01. */
  const UNIX_EPOCH := 719528 * 86400

  /** The instants whose UTC year lies in 0000-9999, in Unix seconds. */
  predicate FourDigitYear(unix: int) {
    0 <= unix + UNIX_EPOCH < DaysBeforeYear(10000) * 86400
  }

  lemma YearHasFourDigits(unix: int)
    requires FourDigitYear(unix)
    ensures CivilOf(unix + UNIX_EPOCH).year < 10000
  {
    var day := (unix + UNIX_EPOCH) / 86400;
    var year := YearOf(day, 0);
    assert CivilOf(unix + UNIX_EPOCH).year == year && day < DaysBeforeYear(10000);
    YearBelow(day, year, 10000);
  }

  lemma YearBelow(day: nat, year: nat, bound: nat)
    requires DaysBeforeYear(year) <= day < DaysBeforeYear(bound)
    ensures year < bound
  {
    hide DaysBeforeYear;
    if bound < year {
      YearsGrow(bound, year);
    }
  }

  /** The Gregorian calendar repeats after 400 years. */
  const ERA := 146097 * 86400

  lemma EraYears(seconds: nat)
    requires seconds < ERA
    ensures CivilOf(seconds).year < 400
  {
    var day := seconds / 86400;
    YearBelow(day, YearOf(day, 0), 400);
  }

  /** The stamp of any instant; a year before 0 has the dates of a later era and a sign. */
  function Stamp(unix: int): (s: string)
    ensures s != "" && s[|s| - 1] == 'Z'
  {
    var seconds := unix + UNIX_EPOCH;
    if 0 <= seconds then Format(CivilOf(seconds))
    else
      var c, eras := CivilOf(seconds % ERA), -(seconds / ERA);
      EraYears(seconds % ERA);
      ErasBefore(seconds);
      "-" + FormatYear(400 * eras - c.year, FormatDay(c))
  }

  lemma ErasBefore(seconds: int)
    requires seconds < 0
    ensures 0 < -(seconds / ERA)
  {
  }

  lemma FieldHasNoColon(n: nat, width: nat, separator: char, rest: string, k: nat)
    requires n < Pow10(width) && separator != ':' && k <= |rest|
    requires forall i :: 0 <= i < |rest| - k ==> rest[i] != ':'
    ensures var s := Field(n, width, separator, rest);
            forall i :: 0 <= i < |s| - k ==> s[i] != ':'
  {
    hide Pad;
  }

  lemma FormatYearHasNoColon(year: nat, c: Civil)
    requires Valid(c)
    ensures var s := FormatYear(year, FormatDay(c));
            forall i :: 0 <= i < |s| - 9 ==> s[i] != ':'
  {
    Powers();
    hide Field, FormatTime;
    FieldHasNoColon(c.day, 2, 'T', FormatTime(c), 9);
    FieldHasNoColon(c.month, 2, '-', Field(c.day, 2, 'T', FormatTime(c)), 9);
    FieldHasNoColon(year, Width(year), '-', FormatDay(c), 9);
  }

  /** A stamp has its colons in the last nine characters, the time. */
  lemma StampColons(unix: int)
    ensures 20 <= |Stamp(unix)|
    ensures forall i :: 0 <= i < |Stamp(unix)| - 9 ==> Stamp(unix)[i] != ':'
  {
    hide FormatYear, FormatDay, CivilOf;
    var seconds := unix + UNIX_EPOCH;
    if 0 <= seconds {
      var c := CivilOf(seconds);
      FormatYearHasNoColon(c.year, c);
    } else {
      var c, eras := CivilOf(seconds % ERA), -(seconds / ERA);
      EraYears(seconds % ERA);
      ErasBefore(seconds);
      FormatYearHasNoColon(400 * eras - c.year, c);
      assert Stamp(unix) == "-" + FormatYear(400 * eras - c.year, FormatDay(c));
    }
  }

  /** Field order is chronological order, and one instant has one civil time. */
  lemma EarlierIffSooner(a: Civil, b: Civil)
    requires Valid(a) && Valid(b)
    ensures Earlier(a, b) <==> Seconds(a) < Seconds(b)
    ensures Seconds(a) == Seconds(b) ==> a == b
  {
    if Earlier(a, b) {
      EarlierIsSooner(a, b);
    } else if Earlier(b, a) {
      EarlierIsSooner(b, a);
    } else {
      assert a == b;
    }
  }

  lemma FourDigits(year: nat)
    requires year < 10000
    ensures Width(year) == 4
  {
    Powers();
  }

  lemma FormatIsChronological(a: Civil, b: Civil)
    requires Valid(a) && Valid(b) && a.year < 10000 && b.year < 10000
    ensures Less(Format(a), Format(b)) <==> Seconds(a) < Seconds(b)
    ensures Format(a) == Format(b) <==> Seconds(a) == Seconds(b)
  {
    EarlierIffSooner(a, b);
    EarlierIffSooner(b, a);
    hide Less, Format, Seconds, Earlier, Pow10;
    FourDigits(a.year);
    FourDigits(b.year);
    FormatOrder(a, b);
    FormatOrder(b, a);
    LessIsTotal(Format(a), Format(b));
  }

  /** Every civil time is the civil time of its own instant. */
  lemma {:induction false} CivilOfInstant(c: Civil)
    requires Valid(c)
    ensures CivilOf(Seconds(c)) == c
  {
    CivilOfKeepsInstant(Seconds(c));
    EarlierIffSooner(CivilOf(Seconds(c)), c);
  }

  /** Unix time 0 is the first second of 1970, which pins the epoch. */
  lemma EpochIsNineteenSeventy(c: Civil)
    requires c == Civil(1970, 1, 1, 0, 0, 0)
    ensures Seconds(c) == UNIX_EPOCH
  {
  }

  /** A leap day every fourth year, but only every fourth century; and a known second of 2024. */
  lemma KnownDays()
    ensures Valid(Civil(2024, 2, 29, 0, 0, 0)) && !Valid(Civil(2023, 2, 29, 0, 0, 0))
    ensures Valid(Civil(2000, 2, 29, 0, 0, 0)) && !Valid(Civil(1900, 2, 29, 0, 0, 0))
    ensures Seconds(Civil(2024, 12, 31, 23, 59, 59)) == UNIX_EPOCH + 1735689599
  {
    DecemberEnds(2024);
  }

  /**
   String order on stamps is chronological order to the second, and a stamp names one
   second only.
   */
  lemma StampOrder(s: int, t: int)
    requires FourDigitYear(s) && FourDigitYear(t)
    ensures Less(Stamp(s), Stamp(t)) <==> s < t
    ensures Stamp(s) == Stamp(t) <==> s == t
  {
    hide CivilOf, Less, Format, FormatYear, FormatDay, DaysBeforeYear, Seconds;
    YearHasFourDigits(s);
    YearHasFourDigits(t);
    CivilOfKeepsInstant(s + UNIX_EPOCH);
    CivilOfKeepsInstant(t + UNIX_EPOCH);
    FormatIsChronological(CivilOf(s + UNIX_EPOCH), CivilOf(t + UNIX_EPOCH));
  }

  // ---- Why four digits ----

  /** A number without its last `k` digits. */
  function Leading(n: nat, k: nat): nat {
    if k == 0 then n else Leading(n / 10, k - 1)
  }

  lemma {:induction false} PadCut(n: nat, width: nat, k: nat)
    requires n < Pow10(width + k)
    ensures Leading(n, k) < Pow10(width)
    ensures Pad(n, width + k)[..width] == Pad(Leading(n, k), width)
  {
    if k == 0 {
      assert Pad(n, width)[..width] == Pad(n, width);
    } else {
      PadCut(n / 10, width, k - 1);
      var front := Pad(n / 10, width + k - 1);
      assert Pad(n, width + k) == front + [Digit(n % 10)];
      assert (front + [Digit(n % 10)])[..width] == front[..width];
    }
  }

  /** A field cut behind its leading digits. */
  lemma FieldCut(n: nat, width: nat, k: nat, x: string) returns (tail: string)
    requires 0 < k && n < Pow10(width + k)
    ensures Leading(n, k) < Pow10(width)
    ensures Field(n, width + k, '-', x) == Pad(Leading(n, k), width) + tail
    ensures tail != "" && '0' <= tail[0]
  {
    PadCut(n, width, k);
    var all := Pad(n, width + k);
    hide Pad, Pow10;
    tail := all[width..] + (['-'] + x);
    assert all == all[..width] + all[width..];
    assert tail[0] == all[width];
  }

  lemma DashIsSmaller(y: string, tail: string)
    requires tail != "" && '0' <= tail[0]
    ensures Less(['-'] + y, tail) && !Less(tail, ['-'] + y)
  {
  }

  /** A longer year against a shorter one: its leading digits decide, and on a tie the shorter is smaller. */
  lemma WiderYear(wide: nat, year: nat, width: nat, k: nat, x: string, y: string)
    requires 0 < k && wide < Pow10(width + k) && year < Pow10(width)
    ensures Less(Field(wide, width + k, '-', x), Field(year, width, '-', y)) <==> Leading(wide, k) < year
    ensures Less(Field(year, width, '-', y), Field(wide, width + k, '-', x)) <==> year <= Leading(wide, k)
  {
    hide Less, Pad, Pow10, Leading;
    var tail := FieldCut(wide, width, k, x);
    var top := Leading(wide, k);
    PadOrder(top, year, width);
    PadOrder(year, top, width);
    DashIsSmaller(y, tail);
    LessAfterPrefix(Pad(top, width), Pad(year, width), tail, ['-'] + y);
    LessAfterPrefix(Pad(year, width), Pad(top, width), ['-'] + y, tail);
  }

  lemma {:induction false} WidthGrows(a: nat, b: nat)
    requires a <= b
    ensures Width(a) <= Width(b)
  {
    if Width(b) < Width(a) {
      PowersGrow(Width(b), Width(a) - 1);
    }
  }

  lemma {:induction false} PowersGrow(a: nat, b: nat)
    requires a <= b
    ensures Pow10(a) <= Pow10(b)
  {
    if a < b {
      PowersGrow(a, b - 1);
    }
  }

  /**
   From year 0 on, an earlier time's stamp sorts before a later one's exactly when the years take
   equally many digits, or the later year's leading digits reach the earlier year.
   */
  lemma StampsSortIff(a: Civil, b: Civil)
    requires Valid(a) && Valid(b) && Seconds(a) < Seconds(b)
    ensures Width(a.year) <= Width(b.year)
    ensures Less(Format(a), Format(b)) <==>
      Width(a.year) == Width(b.year) || a.year <= Leading(b.year, Width(b.year) - Width(a.year))
  {
    hide Seconds, Less, Format, Width, Leading;
    EarlierIffSooner(a, b);
    WidthGrows(a.year, b.year);
    if Width(a.year) == Width(b.year) {
      FormatOrder(a, b);
    } else {
      WiderFormat(a, b);
    }
  }

  lemma WiderFormat(a: Civil, b: Civil)
    requires Valid(a) && Valid(b) && Width(a.year) < Width(b.year)
    ensures Less(Format(a), Format(b)) <==> a.year <= Leading(b.year, Width(b.year) - Width(a.year))
  {
    var x, y := FormatDay(b), FormatDay(a);
    hide Less, FormatDay, Width, Pow10, Field, Leading;
    WiderYear(b.year, a.year, Width(a.year), Width(b.year) - Width(a.year), x, y);
  }

  // ---- Before year 0 ----

  /** The civil time, eras later, that an instant before year 0 has its date from. */
  function LaterCivil(unix: int): (c: Civil)
    requires unix + UNIX_EPOCH < 0
    ensures Valid(c) && c.year < 400
  {
    EraYears((unix + UNIX_EPOCH) % ERA);
    CivilOf((unix + UNIX_EPOCH) % ERA)
  }

  /** How many years before year 0 the instant lies. */
  function YearsBefore(unix: int): (years: nat)
    requires unix + UNIX_EPOCH < 0
    ensures 0 < years
  {
    ErasBefore(unix + UNIX_EPOCH);
    400 * -((unix + UNIX_EPOCH) / ERA) - LaterCivil(unix).year
  }

  lemma StampBefore(unix: int)
    requires unix + UNIX_EPOCH < 0
    ensures Stamp(unix) == "-" + FormatYear(YearsBefore(unix), FormatDay(LaterCivil(unix)))
  {
    hide FormatYear, FormatDay, CivilOf;
  }

  /** Of two instants the later lies no more years before year 0, and in one year its date is later. */
  lemma YearsBeforeShrink(s: int, t: int)
    requires s < t && t + UNIX_EPOCH < 0
    ensures YearsBefore(t) <= YearsBefore(s)
    ensures YearsBefore(s) == YearsBefore(t) ==>
      LaterCivil(s).year == LaterCivil(t).year && Earlier(LaterCivil(s), LaterCivil(t))
  {
    hide LaterCivil, YearsBefore, Seconds, Earlier, Valid, CivilOf, UNIX_EPOCH, ERA;
    var c, d := LaterCivil(s), LaterCivil(t);
    EraCivil(s);
    EraCivil(t);
    ErasInOrder(s + UNIX_EPOCH, t + UNIX_EPOCH);
    EarlierIffSooner(c, d);
    EarlierYear(c, d);
  }

  lemma EraCivil(unix: int)
    requires unix + UNIX_EPOCH < 0
    ensures Seconds(LaterCivil(unix)) == (unix + UNIX_EPOCH) % ERA
    ensures YearsBefore(unix) == 400 * -((unix + UNIX_EPOCH) / ERA) - LaterCivil(unix).year
  {
    hide CivilOf, Seconds;
    CivilOfKeepsInstant((unix + UNIX_EPOCH) % ERA);
  }

  lemma EarlierYear(a: Civil, b: Civil)
    ensures Earlier(a, b) ==> a.year <= b.year
  {
  }

  lemma ErasInOrder(a: int, b: int)
    requires a < b
    ensures a / ERA <= b / ERA && (a / ERA == b / ERA ==> a % ERA < b % ERA)
  {
  }

  lemma DashedOrder(x: string, y: string)
    ensures Less("-" + x, "-" + y) <==> Less(x, y)
  {
    assert ("-" + x)[1..] == x && ("-" + y)[1..] == y;
  }

  /**
   Before year 0 an earlier instant sorts before a later one exactly when they lie in one year, or
   the earlier year takes more digits and its leading ones are below the later year.
   */
  lemma StampsBeforeZeroSortIff(s: int, t: int)
    requires s < t && t + UNIX_EPOCH < 0
    ensures var a, b := YearsBefore(s), YearsBefore(t);
      && Width(b) <= Width(a)
      && (Less(Stamp(s), Stamp(t)) <==> a == b || (Width(b) < Width(a) && Leading(a, Width(a) - Width(b)) < b))
  {
    hide *;
    var a, b := YearsBefore(s), YearsBefore(t);
    var x, y := FormatDay(LaterCivil(s)), FormatDay(LaterCivil(t));
    StampBefore(s);
    StampBefore(t);
    YearsBeforeShrink(s, t);
    WidthGrows(b, a);
    DashedOrder(FormatYear(a, x), FormatYear(b, y));
    if a == b {
      SameYearOrder(s, t);
    }
    YearsOrder(a, b, x, y);
  }

  lemma SameYearOrder(s: int, t: int)
    requires s < t && t + UNIX_EPOCH < 0 && YearsBefore(s) == YearsBefore(t)
    ensures Less(FormatDay(LaterCivil(s)), FormatDay(LaterCivil(t)))
  {
    YearsBeforeShrink(s, t);
    var c, d := LaterCivil(s), LaterCivil(t);
    hide LaterCivil, YearsBefore, FormatDay, Less;
    FormatDayOrder(c, d);
  }

  lemma YearsOrder(a: nat, b: nat, x: string, y: string)
    requires Width(b) <= Width(a) && b <= a
    ensures Less(FormatYear(a, x), FormatYear(b, y)) <==>
      if a == b then Less(x, y) else Width(b) < Width(a) && Leading(a, Width(a) - Width(b)) < b
  {
    hide Less, Field, Width, Pow10, Leading;
    if Width(a) == Width(b) {
      FieldOrder(a, b, Width(a), '-', x, y);
    } else {
      WiderYear(a, b, Width(b), Width(a) - Width(b), x, y);
    }
  }

  /** An instant before year 0 sorts before every one from then on. */
  lemma SignSortsFirst(s: int, t: int)
    requires s + UNIX_EPOCH < 0 <= t + UNIX_EPOCH
    ensures Less(Stamp(s), Stamp(t))
  {
    StampBefore(s);
    StampFrom(t);
    hide Stamp, FormatYear, FormatDay, YearsBefore, LaterCivil, UNIX_EPOCH;
    assert Stamp(s)[0] == '-';
  }

  lemma StampFrom(unix: int)
    requires 0 <= unix + UNIX_EPOCH
    ensures Stamp(unix) != "" && '0' <= Stamp(unix)[0]
  {
    hide CivilOf, FormatDay, Pow10;
    var c := CivilOf(unix + UNIX_EPOCH);
    assert Stamp(unix) == Pad(c.year, Width(c.year)) + (['-'] + FormatDay(c));
  }

  /** A later time with a five-digit year sorts before one with four digits when its first four digits do. */
  lemma FiveDigitYearsMisorder(a: Civil, b: Civil)
    requires Valid(a) && Valid(b) && a.year < 10000 <= b.year < 100000
    ensures Seconds(a) < Seconds(b)
    ensures Less(Format(b), Format(a)) <==> b.year / 10 < a.year
  {
    EarlierIsSooner(a, b);
    FiveDigits(a.year, b.year);
    hide Seconds, Less, FormatDay, Width, Field, Pow10;
    WiderYear(b.year, a.year, 4, 1, FormatDay(b), FormatDay(a));
  }

  lemma FiveDigits(year: nat, wide: nat)
    requires year < 10000 <= wide < 100000
    ensures Width(year) == 4 && Width(wide) == 5 && Pow10(1) == 10
  {
    Powers();
    assert Pow10(5) == 10 * Pow10(4);
    assert Width(wide) == Width(wide, 5);
  }

  /** Such times exist: the first second of 10000 sorts before the last of 9999. */
  lemma FirstSecondOfTenThousand(a: Civil, b: Civil)
    requires a == Civil(9999, 12, 31, 23, 59, 59) && b == Civil(10000, 1, 1, 0, 0, 0)
    ensures Valid(a) && Valid(b) && Seconds(b) == Seconds(a) + 1 && Less(Format(b), Format(a))
  {
    hide Format, Less, Pad;
    FiveDigitYearsMisorder(a, b);
    DecemberEnds(a.year);
  }
}
