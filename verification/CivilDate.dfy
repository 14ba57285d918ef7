/**
 * The civil date behind a log line. Hinnant's days-to-date arithmetic, with its 400-year eras and March-based years, is
 * shown to be the Gregorian calendar, and the printed stamp an RFC 3339 one.
 */
module CivilDate {
  import opened Decimal

  datatype Date = Date(year: int, month: int, day: int)

  // ---------------------------------------------------------------- the calendar itself

  /** The rule of RFC 3339, Appendix C. */
  predicate Leap(year: int) {
    year % 4 == 0 && (year % 100 != 0 || year % 400 == 0)
  }

  function DaysIn(year: int, month: int): int {
    if month == 2 then if Leap(year) then 29 else 28
    else if month == 4 || month == 6 || month == 9 || month == 11 then 30
    else 31
  }

  predicate ValidDate(d: Date) {
    1 <= d.month <= 12 && 1 <= d.day <= DaysIn(d.year, d.month)
  }

  function NextDay(d: Date): Date {
    if d.day < DaysIn(d.year, d.month) then d.(day := d.day + 1)
    else if d.month < 12 then Date(d.year, d.month + 1, 1)
    else Date(d.year + 1, 1, 1)
  }

  // ---------------------------------------------------------------- the arithmetic

  function Yoe(doe: int): int {
    (doe - doe / 1460 + doe / 36524 - doe / 146096) / 365
  }

  /** The first day of a March-based year, within its 400-year era. */
  function YearStart(yoe: int): int {
    365 * yoe + yoe / 4 - yoe / 100
  }

  function FromEra(era: int, yoe: int, doy: int): Date {
    var mp := (5 * doy + 2) / 153;
    var day := doy - (153 * mp + 2) / 5 + 1;
    var month := if mp < 10 then mp + 3 else mp - 9;
    Date(yoe + era * 400 + (if month <= 2 then 1 else 0), month, day)
  }

  /** The date of day `days` of the Unix epoch. */
  function Civil(days: int): Date {
    var z := days + 719468;
    CivilOf(z / 146097, z % 146097)
  }

  function CivilOf(era: int, doe: int): Date {
    FromEra(era, Yoe(doe), doe - YearStart(Yoe(doe)))
  }

  function YearLength(yoe: int): int {
    if Leap(yoe + 1) then 366 else 365
  }

  lemma {:induction false} Multiple(d: int, k: nat)
    requires d > 0 && k > 0
    ensures d * k >= d
  {
    if k > 1 {
      Multiple(d, k - 1);
      assert d * k == d * (k - 1) + d;
    }
  }

  lemma Quotient(x: int, d: int, q: int)
    requires d > 0 && d * q <= x < d * q + d
    ensures x / d == q && x % d == x - d * q
  {
    var k := x / d - q;
    assert d * (x / d) == d * q + d * k;
    assert d * -k == -(d * k);
    if k != 0 {
      Multiple(d, if k > 0 then k else -k);
    }
  }

  /** A day of an era is day `k` of year `r` of leap cycle `q` of century `c`. */
  lemma YearFound(doe: int, c: int, q: int, r: int, k: int)
    requires 0 <= c <= 3 && 0 <= q <= 24 && 0 <= r <= 3 && 0 <= k <= 365
    requires k == 365 ==> r == 3 && (q < 24 || c == 3)
    requires doe == 36524 * c + 1461 * q + 365 * r + k
    ensures Yoe(doe) == 100 * c + 4 * q + r
    ensures YearStart(Yoe(doe)) == doe - k
    ensures k < YearLength(Yoe(doe))
  {
    var y := 100 * c + 4 * q + r;
    YoeFound(doe, c, q, r, k);
    Quotient(y, 4, 25 * c + q);
    Quotient(y, 100, c);
    CycleYear(c, q, r);
  }

  lemma YoeFound(doe: int, c: int, q: int, r: int, k: int)
    requires 0 <= c <= 3 && 0 <= q <= 24 && 0 <= r <= 3 && 0 <= k <= 365
    requires k == 365 ==> r == 3 && (q < 24 || c == 3)
    requires doe == 36524 * c + 1461 * q + 365 * r + k
    ensures Yoe(doe) == 100 * c + 4 * q + r
  {
    var y := 100 * c + 4 * q + r;
    var over := 24 * c + q + 365 * r + k;
    var late := if over >= 1460 then 1 else 0;
    Quotient(doe, 1460, 25 * c + q + late);
    Quotient(doe, 36524, if doe == 146096 then 4 else c);
    Quotient(doe, 146096, if doe == 146096 then 1 else 0);
    Quotient(365 * y + k - late, 365, y);
  }

  /**
   * Only the last year of a leap cycle is long, and of a century's last cycle only when the century is the era's
   * last.
   */
  lemma CycleYear(c: int, q: int, r: int)
    requires 0 <= c <= 3 && 0 <= q <= 24 && 0 <= r <= 3
    ensures Leap(100 * c + 4 * q + r + 1) <==> r == 3 && (q < 24 || c == 3)
  {
    var next := 100 * c + 4 * q + r + 1;
    Quotient(next, 4, if r == 3 then 25 * c + q + 1 else 25 * c + q);
    Quotient(next, 100, if r == 3 && q == 24 then c + 1 else c);
    Quotient(next, 400, if r == 3 && q == 24 && c == 3 then 1 else 0);
  }

  lemma YearOfDay(doe: int)
    requires 0 <= doe < 146097
    ensures var y := Yoe(doe);
      && 0 <= y < 400
      && YearStart(y) <= doe < YearStart(y) + YearLength(y)
  {
    var c := if doe == 146096 then 3 else doe / 36524;
    var n := doe - 36524 * c;
    var q := n / 1461;
    var m := n - 1461 * q;
    var r := if m == 1460 then 3 else m / 365;
    YearFound(doe, c, q, r, m - 365 * r);
  }

  /** And every year's own days lead back to it. */
  lemma DayOfYear(y: int, k: int)
    requires 0 <= y < 400 && 0 <= k < YearLength(y)
    ensures 0 <= YearStart(y) + k < 146097
    ensures Yoe(YearStart(y) + k) == y
  {
    var c, q, r := y / 100, y % 100 / 4, y % 4;
    assert y == 100 * c + 4 * q + r;
    assert y / 4 == 25 * c + q;
    YearFound(YearStart(y) + k, c, q, r, k);
  }

  lemma YearsMeet(y: int)
    requires 0 <= y < 399
    ensures YearStart(y + 1) == YearStart(y) + YearLength(y)
  {
    var (q, c) := ((y + 1) / 4, (y + 1) / 100);
    Quotient(y, 4, if (y + 1) % 4 == 0 then q - 1 else q);
    Quotient(y, 100, if (y + 1) % 100 == 0 then c - 1 else c);
    Quotient(y + 1, 400, 0);
  }

  // ---------------------------------------------------------------- one day to the next

  /** Within a March-based year the date is valid, and the next day's is its successor. */
  lemma DayInYear(era: int, y: int, k: int)
    requires 0 <= y < 400 && 0 <= k < YearLength(y)
    ensures ValidDate(FromEra(era, y, k))
    ensures k + 1 < YearLength(y) ==> FromEra(era, y, k + 1) == NextDay(FromEra(era, y, k))
    ensures k + 1 == YearLength(y) ==> NextDay(FromEra(era, y, k)) == Date(y + era * 400 + 1, 3, 1)
  {
    var mp := (5 * k + 2) / 153;
    assert 0 <= mp <= 11;
    LeapShifts(era, y);
    LeapShifts(era, y + 1);
  }

  lemma LeapShifts(era: int, y: int)
    ensures Leap(y + era * 400) == Leap(y)
  {
    Quotient(y + era * 400, 4, y / 4 + era * 100);
    Quotient(y + era * 400, 100, y / 100 + era * 4);
    Quotient(y + era * 400, 400, y / 400 + era);
  }

  /** Each day's date is the successor of the day before. */
  lemma NextDate(days: int)
    ensures Civil(days + 1) == NextDay(Civil(days))
  {
    var z := days + 719468;
    var era, doe := z / 146097, z % 146097;
    if doe + 1 == 146097 {
      NextAcross(days, era, doe, 0);
    } else {
      NextWithin(days, era, doe);
    }
  }

  lemma NextAcross(days: int, era: int, doe: int, first: int)
    requires days + 719468 == 146097 * era + doe && doe == 146096 && first == 0
    ensures Civil(days + 1) == NextDay(Civil(days))
  {
    CivilAt(days, era, doe);
    CivilAt(days + 1, era + 1, first);
    LastOfEra(era, doe, Yoe(doe));
    FirstOfEra(era + 1, first);
  }

  lemma LastOfEra(era: int, last: int, y: int)
    requires last == 146096 && y == Yoe(last)
    ensures NextDay(CivilOf(era, last)) == Date(era * 400 + 400, 3, 1)
  {
    EraEnds();
    CivilIs(era, last, y, last - YearStart(y));
    DayInYear(era, y, last - YearStart(y));
  }

  lemma FirstOfEra(era: int, first: int)
    requires first == 0
    ensures CivilOf(era, first) == Date(era * 400, 3, 1)
  {
    FirstYear(first);
    StartOfYear(era, first, Yoe(first));
  }

  lemma FirstYear(first: int)
    requires first == 0
    ensures Yoe(first) == 0 && YearStart(Yoe(first)) == first
  {
  }

  lemma StartOfYear(era: int, first: int, y: int)
    requires y == Yoe(first) && YearStart(y) == first
    ensures CivilOf(era, first) == Date(y + era * 400, 3, 1)
  {
    CivilIs(era, first, y, 0);
    FirstOfYear(era, y);
  }

  lemma NextWithin(days: int, era: int, doe: int)
    requires days + 719468 == 146097 * era + doe && 0 <= doe < 146096
    ensures Civil(days + 1) == NextDay(Civil(days))
  {
    CivilAt(days, era, doe);
    CivilAt(days + 1, era, doe + 1);
    NextInEra(era, doe);
  }

  lemma CivilAt(days: int, era: int, doe: int)
    requires days + 719468 == 146097 * era + doe && 0 <= doe < 146097
    ensures Civil(days) == CivilOf(era, doe)
  {
    Quotient(days + 719468, 146097, era);
  }

  lemma CivilIs(era: int, doe: int, y: int, k: int)
    requires Yoe(doe) == y && YearStart(y) + k == doe
    ensures CivilOf(era, doe) == FromEra(era, y, k)
  {
    assert doe - YearStart(Yoe(doe)) == k;
  }

  lemma EraEnds()
    ensures Yoe(146096) == 399 && YearStart(399) == 145731 && YearLength(399) == 366
    ensures Yoe(0) == 0 && YearStart(0) == 0
  {
  }

  lemma FirstOfYear(era: int, y: int)
    ensures FromEra(era, y, 0) == Date(y + era * 400, 3, 1)
  {
  }

  lemma NextInEra(era: int, doe: int)
    requires 0 <= doe < 146096
    ensures CivilOf(era, doe + 1) == NextDay(CivilOf(era, doe))
  {
    var y := Yoe(doe);
    var k := doe - YearStart(y);
    YearOfDay(doe);
    CivilIs(era, doe, y, k);
    DayInYear(era, y, k);
    if k + 1 < YearLength(y) {
      DayOfYear(y, k + 1);
      CivilIs(era, doe + 1, y, k + 1);
    } else {
      LastDayIsBeforeNext(y, doe);
      DayOfYear(y + 1, 0);
      StartOfYear(era, doe + 1, y + 1);
    }
  }

  lemma LastDayIsBeforeNext(y: int, doe: int)
    requires 0 <= y < 400 && doe < 146096 && doe - YearStart(y) + 1 == YearLength(y)
    ensures y < 399 && doe + 1 == YearStart(y + 1)
  {
    if y == 399 {
      EraEnds();
    } else {
      YearsMeet(y);
    }
  }

  lemma Epoch()
    ensures Civil(0) == Date(1970, 1, 1)
  {
  }

  // ---------------------------------------------------------------- counting days, the plain way

  function DaysToYear(year: int): nat
    decreases year
  {
    if year <= 1970 then 0 else DaysToYear(year - 1) + if Leap(year - 1) then 366 else 365
  }

  function DaysToMonth(year: int, month: int): nat
    decreases month
  {
    if month <= 1 then 0 else DaysToMonth(year, month - 1) + DaysIn(year, month - 1)
  }

  /** Days from 1970-01-01 to `d`: whole years, then whole months, then days. */
  function DayNumber(d: Date): int {
    DaysToYear(d.year) + DaysToMonth(d.year, d.month) + d.day - 1
  }

  lemma YearAddsUp(year: int)
    ensures DaysToMonth(year, 12) + 31 == if Leap(year) then 366 else 365
  {
    assert DaysToMonth(year, 4) == DaysIn(year, 1) + DaysIn(year, 2) + DaysIn(year, 3);
    assert DaysToMonth(year, 8) == DaysToMonth(year, 4) + 30 + 31 + 30 + 31;
    assert DaysToMonth(year, 12) == DaysToMonth(year, 8) + 31 + 30 + 31 + 30;
  }

  lemma NextDayCounts(d: Date)
    requires ValidDate(d) && d.year >= 1970
    ensures ValidDate(NextDay(d)) && NextDay(d).year >= d.year
    ensures DayNumber(NextDay(d)) == DayNumber(d) + 1
  {
    YearAddsUp(d.year);
  }

  /** `f` walks the calendar from the epoch, a day at a time. */
  ghost predicate Calendar(f: int -> Date) {
    f(0) == Date(1970, 1, 1) && forall n: nat, m: nat :: m == n + 1 ==> f(m) == NextDay(f(n))
  }

  lemma CivilIsCalendar()
    ensures Calendar(Civil)
  {
    Epoch();
    forall n: nat, m: nat | m == n + 1 ensures Civil(m) == NextDay(Civil(n)) {
      NextDate(n);
    }
  }

  lemma {:induction false} WalkCounts(f: int -> Date, days: nat)
    requires Calendar(f)
    ensures ValidDate(f(days)) && f(days).year >= 1970
    ensures DayNumber(f(days)) == days
  {
    if days > 0 {
      WalkCounts(f, days - 1);
      NextDayCounts(f(days - 1));
    }
  }

  /** The printed date is real, and its day count is the day it was printed for. */
  lemma CivilCounts(days: nat)
    ensures ValidDate(Civil(days)) && Civil(days).year >= 1970
    ensures DayNumber(Civil(days)) == days
  {
    CivilIsCalendar();
    WalkCounts(Civil, days);
  }

  function DayBefore(d: Date): Date {
    if d.day > 1 then d.(day := d.day - 1)
    else if d.month > 1 then Date(d.year, d.month - 1, DaysIn(d.year, d.month - 1))
    else Date(d.year - 1, 12, 31)
  }

  lemma DayBeforeExact(d: Date)
    requires ValidDate(d) && d.year >= 1970 && d != Date(1970, 1, 1)
    ensures ValidDate(DayBefore(d)) && DayBefore(d).year >= 1970 && NextDay(DayBefore(d)) == d
  {
  }

  lemma {:induction false} WalkReaches(f: int -> Date, d: Date)
    requires Calendar(f) && ValidDate(d) && d.year >= 1970
    ensures DayNumber(d) >= 0 && f(DayNumber(d)) == d
    decreases d.year, d.month, d.day
  {
    if d != Date(1970, 1, 1) {
      var p := DayBefore(d);
      DayBeforeExact(d);
      WalkReaches(f, p);
      NextDayCounts(p);
    }
  }

  /** Every real date from 1970 on is printed, for the day its count says. */
  lemma CountsCivil(d: Date)
    requires ValidDate(d) && d.year >= 1970
    ensures DayNumber(d) >= 0 && Civil(DayNumber(d)) == d
  {
    CivilIsCalendar();
    WalkReaches(Civil, d);
  }

  /** Later days never print an earlier year. */
  lemma {:induction false} YearsRise(f: int -> Date, a: nat, b: nat)
    requires Calendar(f) && a <= b
    ensures f(a).year <= f(b).year
    decreases b
  {
    if a < b {
      YearsRise(f, a, b - 1);
      assert f(b) == NextDay(f(b - 1));
    }
  }

  const LAST_FOUR_DIGIT_DAY: nat := 2932896

  lemma LastFourDigitDay()
    ensures Civil(LAST_FOUR_DIGIT_DAY) == Date(9999, 12, 31)
  {
    var z := LAST_FOUR_DIGIT_DAY + 719468;
    Quotient(z, 146097, 24);
    YearFound(146036, 3, 24, 3, 305);
    assert FromEra(24, 399, 305) == Date(9999, 12, 31);
  }

  lemma WalkFourDigits(f: int -> Date, days: nat)
    requires Calendar(f) && f(LAST_FOUR_DIGIT_DAY) == Date(9999, 12, 31)
    ensures f(days).year <= 9999 <==> days <= LAST_FOUR_DIGIT_DAY
  {
    if days <= LAST_FOUR_DIGIT_DAY {
      YearsRise(f, days, LAST_FOUR_DIGIT_DAY);
    } else {
      assert f(LAST_FOUR_DIGIT_DAY + 1) == Date(10000, 1, 1);
      YearsRise(f, LAST_FOUR_DIGIT_DAY + 1, days);
    }
  }

  lemma FourDigitYears(days: nat)
    ensures Civil(days).year <= 9999 <==> days <= LAST_FOUR_DIGIT_DAY
  {
    CivilIsCalendar();
    LastFourDigitDay();
    WalkFourDigits(Civil, days);
  }

  // ---------------------------------------------------------------- the printed stamp

  const NANOS_PER_MILLI: nat := 1_000_000
  const MILLIS_PER_DAY: nat := 86_400_000

  /** Whole milliseconds since the epoch; a clock before it reads as the epoch. */
  function Millis(nanos: int): nat {
    if nanos < 0 then 0 else nanos / NANOS_PER_MILLI
  }

  function DateText(d: Date): string
    requires d.year >= 0 && d.month >= 0 && d.day >= 0
  {
    Pad(d.year, 4) + "-" + Pad(d.month, 2) + "-" + Pad(d.day, 2)
  }

  function TimeText(millis: nat): string {
    var secs := millis / 1000;
    Clock(secs / 3600, secs / 60 % 60, secs % 60, millis % 1000)
  }

  function UtcTimestamp(nanos: int): string {
    var millis := Millis(nanos);
    var days := millis / MILLIS_PER_DAY;
    CivilCounts(days);
    DateText(Civil(days)) + "T" + TimeText(millis % MILLIS_PER_DAY)
  }

  // ---------------------------------------------------------------- reading it back

  predicate DateShape(s: string) {
    && |s| == 10 && s[4] == '-' && s[7] == '-'
    && AllDigits(s[..4]) && AllDigits(s[5..7]) && AllDigits(s[8..])
    && ValidDate(Date(Value(s[..4]), Value(s[5..7]), Value(s[8..])))
  }

  predicate TimeShape(s: string) {
    && |s| == 13 && s[2] == ':' && s[5] == ':' && s[8] == '.' && s[12] == 'Z'
    && AllDigits(s[..2]) && AllDigits(s[3..5]) && AllDigits(s[6..8]) && AllDigits(s[9..12])
    && Value(s[..2]) < 24 && Value(s[3..5]) < 60 && Value(s[6..8]) < 60
  }

  /** `full-date "T" full-time` of RFC 3339, section 5.6, in UTC with three fraction digits and a real date. */
  predicate Rfc3339(s: string) {
    |s| == 24 && s[10] == 'T' && DateShape(s[..10]) && TimeShape(s[11..])
  }

  function ReadMillis(s: string): int
    requires Rfc3339(s)
  {
    var (d, t) := (s[..10], s[11..]);
    DayNumber(Date(Value(d[..4]), Value(d[5..7]), Value(d[8..]))) * MILLIS_PER_DAY
    + ((Value(t[..2]) * 60 + Value(t[3..5])) * 60 + Value(t[6..8])) * 1000 + Value(t[9..12])
  }

  lemma DateReads(d: Date)
    requires ValidDate(d) && 1970 <= d.year <= 9999
    ensures var s := DateText(d);
      DateShape(s) && Date(Value(s[..4]), Value(s[5..7]), Value(s[8..])) == d
  {
    PadExact(d.year, 4);
    PadExact(d.month, 2);
    PadExact(d.day, 2);
    var (y, m, e) := (Pad(d.year, 4), Pad(d.month, 2), Pad(d.day, 2));
    var s := DateText(d);
    assert s[..4] == y && s[5..7] == m && s[8..] == e;
  }

  function Clock(h: nat, m: nat, s: nat, ms: nat): string {
    Pad(h, 2) + ":" + Pad(m, 2) + ":" + Pad(s, 2) + "." + Pad(ms, 3) + "Z"
  }

  lemma ClockReads(h: nat, m: nat, s: nat, ms: nat)
    requires h < 24 && m < 60 && s < 60 && ms < 1000
    ensures var t := Clock(h, m, s, ms);
      TimeShape(t) && Value(t[..2]) == h && Value(t[3..5]) == m && Value(t[6..8]) == s && Value(t[9..12]) == ms
  {
    PadExact(h, 2);
    PadExact(m, 2);
    PadExact(s, 2);
    PadExact(ms, 3);
    ClockParts(Pad(h, 2), Pad(m, 2), Pad(s, 2), Pad(ms, 3));
  }

  lemma ClockParts(a: string, b: string, c: string, d: string)
    requires |a| == |b| == |c| == 2 && |d| == 3
    ensures var t := a + ":" + b + ":" + c + "." + d + "Z";
      && |t| == 13 && t[2] == ':' && t[5] == ':' && t[8] == '.' && t[12] == 'Z'
      && t[..2] == a && t[3..5] == b && t[6..8] == c && t[9..12] == d
  {
  }

  lemma TimeReads(millis: nat)
    requires millis < MILLIS_PER_DAY
    ensures var s := TimeText(millis);
      && TimeShape(s)
      && ((Value(s[..2]) * 60 + Value(s[3..5])) * 60 + Value(s[6..8])) * 1000 + Value(s[9..12]) == millis
  {
    var secs := millis / 1000;
    ClockSplits(millis, secs, secs / 3600, secs / 60 % 60, secs % 60);
    ClockReads(secs / 3600, secs / 60 % 60, secs % 60, millis % 1000);
  }

  lemma ClockSplits(millis: nat, secs: nat, h: nat, m: nat, s: nat)
    requires millis < MILLIS_PER_DAY && secs == millis / 1000 && h == secs / 3600 && m == secs / 60 % 60
    requires s == secs % 60
    ensures h < 24 && m < 60 && s < 60 && ((h * 60 + m) * 60 + s) * 1000 + millis % 1000 == millis
  {
    assert secs == secs / 60 * 60 + s;
    assert secs / 60 == secs / 60 / 60 * 60 + m;
    assert secs / 60 / 60 == h;
  }

  lemma ShortStamp(d: Date, millis: nat)
    requires ValidDate(d) && 1970 <= d.year <= 9999 && millis < MILLIS_PER_DAY
    ensures var s := DateText(d) + "T" + TimeText(millis);
      Rfc3339(s) && ReadMillis(s) == DayNumber(d) * MILLIS_PER_DAY + millis
  {
    var s := DateText(d) + "T" + TimeText(millis);
    DateReads(d);
    TimeReads(millis);
    assert s[..10] == DateText(d) && s[11..] == TimeText(millis);
  }

  lemma LongStamp(d: Date, millis: nat)
    requires ValidDate(d) && d.year > 9999 && millis < MILLIS_PER_DAY
    ensures !Rfc3339(DateText(d) + "T" + TimeText(millis))
  {
    PadExact(d.year, 4);
    PadExact(d.month, 2);
    PadExact(d.day, 2);
    TimeReads(millis);
    assert |DateText(d)| > 10;
  }

  /** A stamp is an RFC 3339 date-time exactly while years have four digits, and then it reads back as its instant. */
  lemma StampReads(nanos: int)
    ensures Rfc3339(UtcTimestamp(nanos)) <==> Millis(nanos) / MILLIS_PER_DAY <= LAST_FOUR_DIGIT_DAY
    ensures Rfc3339(UtcTimestamp(nanos)) ==> ReadMillis(UtcTimestamp(nanos)) == Millis(nanos)
  {
    var millis := Millis(nanos);
    var days := millis / MILLIS_PER_DAY;
    CivilCounts(days);
    FourDigitYears(days);
    StampOf(Civil(days), days, millis);
  }

  lemma StampOf(d: Date, days: nat, millis: nat)
    requires ValidDate(d) && d.year >= 1970 && DayNumber(d) == days == millis / MILLIS_PER_DAY
    ensures var s := DateText(d) + "T" + TimeText(millis % MILLIS_PER_DAY);
      && (Rfc3339(s) <==> d.year <= 9999)
      && (Rfc3339(s) ==> ReadMillis(s) == millis)
  {
    if d.year <= 9999 {
      ShortStamp(d, millis % MILLIS_PER_DAY);
    } else {
      LongStamp(d, millis % MILLIS_PER_DAY);
    }
  }

  const YEAR_10000_NANOS: int := 253_402_300_800_000_000_000

  /** The first stamp that is not one: midnight of the first day of the year 10000. */
  lemma YearTenThousand()
    ensures !Rfc3339(UtcTimestamp(YEAR_10000_NANOS)) && Rfc3339(UtcTimestamp(YEAR_10000_NANOS - NANOS_PER_MILLI))
  {
    StampReads(YEAR_10000_NANOS);
    StampReads(YEAR_10000_NANOS - NANOS_PER_MILLI);
  }
}
