/** The calendar behind a log line's stamp: `civil`, the closed-form date of a day number, against
    the calendar counted one day at a time, and `stamp` against a reader of what it prints. */
module Calendar {
  import opened Options
  import opened Decimal

  datatype Date = Date(year: int, month: int, day: int)

  // ---- The calendar, as section 5.7 and Appendix C of RFC 3339 give it -----------------------

  predicate Leap(year: int) {
    year % 4 == 0 && (year % 100 != 0 || year % 400 == 0)
  }

  function DaysIn(year: int, month: int): (n: int)
    requires 1 <= month <= 12
  {
    if month == 2 then (if Leap(year) then 29 else 28)
    else if month in {4, 6, 9, 11} then 30
    else 31
  }

  predicate Valid(date: Date) {
    1 <= date.month <= 12 && 1 <= date.day <= DaysIn(date.year, date.month)
  }

  function NextDay(date: Date): Date
    requires Valid(date)
  {
    if date.day < DaysIn(date.year, date.month) then date.(day := date.day + 1)
    else if date.month < 12 then Date(date.year, date.month + 1, 1)
    else Date(date.year + 1, 1, 1)
  }

  function DayBefore(date: Date): Date
    requires Valid(date)
  {
    if date.day > 1 then date.(day := date.day - 1)
    else if date.month > 1 then Date(date.year, date.month - 1, DaysIn(date.year, date.month - 1))
    else Date(date.year - 1, 12, 31)
  }

  const EPOCH := Date(1970, 1, 1)

  /** The date `days` after the epoch, counted one day at a time in either direction. */
  function CountedTo(days: int): (date: Date)
    ensures Valid(date)
    decreases if days < 0 then -days else days
  {
    if days == 0 then EPOCH
    else if days > 0 then NextDay(CountedTo(days - 1))
    else DayBefore(CountedTo(days + 1))
  }

  // ---- civil -------------------------------------------------------------------------------

  function YearOfEra(ofEra: int): int {
    (ofEra - ofEra / 1460 + ofEra / 36524 - ofEra / 146096) / 365
  }

  /** The first day of year `y` of an era, counting years from March. */
  function YearStart(y: int): int {
    365 * y + y / 4 - y / 100
  }

  /** The day of a year that begins in March, as a month counted from March and a day of it. */
  function OfYear(ofYear: int): (int, int) {
    var shiftedMonth := (5 * ofYear + 2) / 153;
    (shiftedMonth, ofYear - (153 * shiftedMonth + 2) / 5 + 1)
  }

  /** The day of an era as a year of it, a month counted from March, and a day. */
  function InEra(ofEra: int): Date {
    var yearOfEra := YearOfEra(ofEra);
    var monthDay := OfYear(ofEra - YearStart(yearOfEra));
    Date(yearOfEra, monthDay.0, monthDay.1)
  }

  function CalendarMonth(shiftedMonth: int): int {
    if shiftedMonth < 10 then shiftedMonth + 3 else shiftedMonth - 9
  }

  function Civil(days: int): Date {
    var shifted := days + 719468;
    var era := shifted / 146097;
    var date := InEra(shifted % 146097);
    var month := CalendarMonth(date.month);
    Date(date.year + era * 400 + (if month <= 2 then 1 else 0), month, date.day)
  }

  // ---- The other way: a date's day number ---------------------------------------------------

  /** The year a date falls in when years begin in March. */
  function MarchYear(date: Date): int {
    if date.month <= 2 then date.year - 1 else date.year
  }

  function MarchMonth(month: int): int {
    if month <= 2 then month + 9 else month - 3
  }

  function DayNumber(date: Date): int {
    var y := MarchYear(date);
    365 * y + y / 4 - y / 100 + y / 400 + (153 * MarchMonth(date.month) + 2) / 5 + date.day - 1
    - 719468
  }

  /** The days before the month in a year that begins in March grow by the month's length. */
  lemma MonthAfter(y: int, month: int)
    requires 1 <= month <= 12 && month != 2
    ensures (153 * MarchMonth(if month == 12 then 1 else month + 1) + 2) / 5
         == (153 * MarchMonth(month) + 2) / 5 + DaysIn(y, month)
  {}

  lemma NextIsValid(date: Date)
    requires Valid(date)
    ensures Valid(NextDay(date))
  {}

  /** Stepping a date one day on steps its number by one, across month, year and leap day alike. */
  lemma NextDayNumber(date: Date)
    requires Valid(date)
    ensures Valid(NextDay(date)) && DayNumber(NextDay(date)) == DayNumber(date) + 1
  {
    NextIsValid(date);
    if date.day == DaysIn(date.year, date.month) {
      if date.month == 2 {
        MarchFirst(date.year);
      } else {
        hide Leap;
        MonthAfter(date.year, date.month);
      }
    } else {
      hide Leap, DaysIn;
    }
  }

  /** A year given by its era, century and leap cycle, and what the three divisors make of it. */
  lemma Quotients(e: int, c: int, q: int, r: int)
    requires 0 <= c < 4 && 0 <= q < 25 && 0 <= r < 4
    ensures var y := 400 * e + 100 * c + 4 * q + r;
            && y / 4 == 100 * e + 25 * c + q && y % 4 == r
            && y / 100 == 4 * e + c && y % 100 == 4 * q + r
            && y / 400 == e && y % 400 == 100 * c + 4 * q + r
  {
    By4(100 * e + 25 * c + q, r);
    By100(4 * e + c, 4 * q + r);
    By400(e, 100 * c + 4 * q + r);
  }

  lemma By4(q: int, r: int)
    requires 0 <= r < 4
    ensures (4 * q + r) / 4 == q && (4 * q + r) % 4 == r
  {}

  lemma By100(q: int, r: int)
    requires 0 <= r < 100
    ensures (100 * q + r) / 100 == q && (100 * q + r) % 100 == r
  {}

  lemma By400(q: int, r: int)
    requires 0 <= r < 400
    ensures (400 * q + r) / 400 == q && (400 * q + r) % 400 == r
  {}

  /** The year before one given so, given so too. */
  lemma YearBefore(e: int, c: int, q: int, r: int) returns (e0: int, c0: int, q0: int, r0: int)
    requires 0 <= c < 4 && 0 <= q < 25 && 0 <= r < 4
    ensures 0 <= c0 < 4 && 0 <= q0 < 25 && 0 <= r0 < 4
    ensures 400 * e0 + 100 * c0 + 4 * q0 + r0 == 400 * e + 100 * c + 4 * q + r - 1
    ensures r > 0 ==> (e0, c0, q0) == (e, c, q)
    ensures r == 0 && q > 0 ==> (e0, c0, q0) == (e, c, q - 1)
    ensures r == 0 && q == 0 ==> q0 == 24 && 4 * e0 + c0 == 4 * e + c - 1
    ensures r == 0 && q == 0 ==> e0 == if c == 0 then e - 1 else e
  {
    e0, c0, q0, r0 := e, c, q, r - 1;
    if r == 0 {
      q0, r0 := q - 1, 3;
      if q == 0 {
        c0, q0 := c - 1, 24;
        if c == 0 {
          e0, c0 := e - 1, 3;
        }
      }
    }
  }

  lemma Split(y: int) returns (e: int, c: int, q: int, r: int)
    ensures 0 <= c < 4 && 0 <= q < 25 && 0 <= r < 4 && y == 400 * e + 100 * c + 4 * q + r
  {
    e := y / 400;
    c := y % 400 / 100;
    q := y % 400 % 100 / 4;
    r := y % 400 % 100 % 4;
  }

  /** March first follows February's last day: what the shifted year's length comes to. */
  lemma MarchFirst(y: int)
    ensures (365 * y + y / 4 - y / 100 + y / 400)
         == (365 * (y - 1) + (y - 1) / 4 - (y - 1) / 100 + (y - 1) / 400)
            + 365 + (if Leap(y) then 1 else 0)
  {
    var e, c, q, r := Split(y);
    var e0, c0, q0, r0 := YearBefore(e, c, q, r);
    Quotients(e, c, q, r);
    Quotients(e0, c0, q0, r0);
  }

  // ---- civil undoes the day number, and the day number undoes civil --------------------------

  /** A day of an era, split by century, leap cycle and year. */
  lemma YearFound(c: int, q: int, r: int, ofYear: int)
    requires 0 <= c < 4 && 0 <= q < 25 && 0 <= r < 4
    requires 0 <= ofYear <= 365
    requires ofYear == 365 ==> r == 3 && (q < 24 || c == 3)
    ensures YearOfEra(36524 * c + 1461 * q + 365 * r + ofYear) == 100 * c + 4 * q + r
    ensures YearStart(100 * c + 4 * q + r) == 36524 * c + 1461 * q + 365 * r
  {
    var n := 36524 * c + 1461 * q + 365 * r + ofYear;
    assert n / 36524 == if n == 146096 then 4 else c;
    assert n / 146096 == if n == 146096 then 1 else 0;
    var y := 100 * c + 4 * q + r;
    assert y / 4 == 25 * c + q;
    assert y / 100 == c;
    var m := n - n / 1460 + n / 36524 - n / 146096;
    assert 365 * y <= m < 365 * y + 365;
  }

  /** A day of a year that begins in March, split by month. */
  lemma MonthFound(mp: int, day: int)
    requires 0 <= mp <= 11 && 1 <= day <= 31
    requires day == 31 ==> mp in {0, 2, 4, 5, 7, 9, 10}
    requires mp == 11 ==> day <= 29
    ensures 0 <= (153 * mp + 2) / 5 + day - 1 <= 365
    ensures (153 * mp + 2) / 5 + day - 1 == 365 <==> mp == 11 && day == 29
    ensures OfYear((153 * mp + 2) / 5 + day - 1) == (mp, day)
  {
    var start := (153 * mp + 2) / 5;
    assert 153 * mp + 2 == 5 * start + (153 * mp + 2) % 5;
    assert 153 * mp <= 5 * (start + day - 1) + 2 < 153 * (mp + 1);
    assert (5 * (start + day - 1) + 2) / 153 == mp;
  }

  /** Every day of such a year falls in one month. */
  lemma MonthSplit(ofYear: int) returns (mp: int, day: int)
    requires 0 <= ofYear <= 365
    ensures 0 <= mp <= 11 && 1 <= day <= 31 && (day == 31 ==> mp in {0, 2, 4, 5, 7, 9, 10})
    ensures mp == 11 ==> day <= 29
    ensures ofYear == (153 * mp + 2) / 5 + day - 1
    ensures mp == 11 && day == 29 <==> ofYear == 365
  {
    mp, day := OfYear(ofYear).0, OfYear(ofYear).1;
  }

  predicate MonthDay(mp: int, day: int) {
    && 0 <= mp <= 11 && 1 <= day <= (if mp == 11 then 29 else 31)
    && (day == 31 ==> mp in {0, 2, 4, 5, 7, 9, 10})
  }

  /** A date of an era: what the closed form makes of its day. */
  lemma InEraAt(c: int, q: int, r: int, mp: int, day: int, ofYear: int)
    requires 0 <= c < 4 && 0 <= q < 25 && 0 <= r < 4 && MonthDay(mp, day)
    requires mp == 11 && day == 29 ==> r == 3 && (q < 24 || c == 3)
    requires ofYear == (153 * mp + 2) / 5 + day - 1
    ensures var n := 36524 * c + 1461 * q + 365 * r + ofYear;
            0 <= n < 146097 && InEra(n) == Date(100 * c + 4 * q + r, mp, day)
  {
    MonthFound(mp, day);
    YearFound(c, q, r, ofYear);
  }

  lemma ByEra(era: int, n: int)
    requires 0 <= n < 146097
    ensures (146097 * era + n) / 146097 == era && (146097 * era + n) % 146097 == n
  {}

  ghost function DateAt(y: int, mp: int, day: int): Date {
    Date(y + (if mp < 10 then 0 else 1), CalendarMonth(mp), day)
  }

  /** A date given by era, century, leap cycle and year, with months from March: `Civil` of its day
      number. */
  lemma CivilAt(era: int, c: int, q: int, r: int, mp: int, day: int, ofYear: int)
    requires 0 <= c < 4 && 0 <= q < 25 && 0 <= r < 4 && MonthDay(mp, day)
    requires mp == 11 && day == 29 ==> r == 3 && (q < 24 || c == 3)
    requires ofYear == (153 * mp + 2) / 5 + day - 1
    ensures Civil(146097 * era + 36524 * c + 1461 * q + 365 * r + ofYear - 719468)
         == DateAt(400 * era + 100 * c + 4 * q + r, mp, day)
  {
    hide InEra;
    InEraAt(c, q, r, mp, day, ofYear);
    ByEra(era, 36524 * c + 1461 * q + 365 * r + ofYear);
  }

  /** And the day number itself. */
  lemma NumberAt(era: int, c: int, q: int, r: int, mp: int, day: int, ofYear: int)
    requires 0 <= c < 4 && 0 <= q < 25 && 0 <= r < 4 && MonthDay(mp, day)
    requires ofYear == (153 * mp + 2) / 5 + day - 1
    ensures DayNumber(DateAt(400 * era + 100 * c + 4 * q + r, mp, day))
         == 146097 * era + 36524 * c + 1461 * q + 365 * r + ofYear - 719468
  {
    Quotients(era, c, q, r);
  }

  /** The leap day belongs to a leap year, and only a leap year has one. */
  lemma LeapAt(era: int, c: int, q: int, r: int)
    requires 0 <= c < 4 && 0 <= q < 25 && 0 <= r < 4
    ensures Leap(400 * era + 100 * c + 4 * q + r + 1) <==> r == 3 && (q < 24 || c == 3)
  {
    if r < 3 {
      Quotients(era, c, q, r + 1);
    } else if q < 24 {
      Quotients(era, c, q + 1, 0);
    } else if c < 3 {
      Quotients(era, c + 1, 0, 0);
    } else {
      Quotients(era + 1, 0, 0, 0);
    }
  }

  /** Any day at all, taken apart by era, century, leap cycle, year, month and day. */
  lemma SplitDay(days: int) returns (era: int, c: int, q: int, r: int, mp: int, day: int, ofYear: int)
    ensures 0 <= c < 4 && 0 <= q < 25 && 0 <= r < 4 && MonthDay(mp, day)
    ensures mp == 11 && day == 29 ==> r == 3 && (q < 24 || c == 3)
    ensures ofYear == (153 * mp + 2) / 5 + day - 1
    ensures days == 146097 * era + 36524 * c + 1461 * q + 365 * r + ofYear - 719468
  {
    era := (days + 719468) / 146097;
    var n := (days + 719468) % 146097;
    c := Min(n / 36524, 3);
    q := (n - 36524 * c) / 1461;
    var inCycle := n - 36524 * c - 1461 * q;
    r := Min(inCycle / 365, 3);
    ofYear := inCycle - 365 * r;
    mp, day := MonthSplit(ofYear);
  }

  lemma ValidAt(era: int, c: int, q: int, r: int, mp: int, day: int)
    requires 0 <= c < 4 && 0 <= q < 25 && 0 <= r < 4 && MonthDay(mp, day)
    requires mp == 11 && day == 29 ==> r == 3 && (q < 24 || c == 3)
    ensures Valid(DateAt(400 * era + 100 * c + 4 * q + r, mp, day))
  {
    LeapAt(era, c, q, r);
  }

  /** For every integer: `Civil` gives a real date, and that date's number is the one it was given. */
  lemma CivilIsADate(days: int)
    ensures Valid(Civil(days)) && DayNumber(Civil(days)) == days
  {
    var era, c, q, r, mp, day, ofYear := SplitDay(days);
    CivilAt(era, c, q, r, mp, day, ofYear);
    NumberAt(era, c, q, r, mp, day, ofYear);
    ValidAt(era, c, q, r, mp, day);
  }

  /** And back: for every real date, `Civil` of its number is that date. */
  lemma CivilUndoesDayNumber(date: Date)
    requires Valid(date)
    ensures Civil(DayNumber(date)) == date
  {
    var era, c, q, r := Split(MarchYear(date));
    LeapAt(era, c, q, r);
    var mp, day := MarchMonth(date.month), date.day;
    CivilAt(era, c, q, r, mp, day, (153 * mp + 2) / 5 + day - 1);
    NumberAt(era, c, q, r, mp, day, (153 * mp + 2) / 5 + day - 1);
    assert date == DateAt(MarchYear(date), mp, day);
  }

  /** For every integer day count, the closed form moves on by exactly one calendar day. */
  lemma CivilOfTomorrow(days: int)
    ensures Valid(Civil(days)) && Civil(days + 1) == NextDay(Civil(days))
  {
    CivilIsADate(days);
    NextDayNumber(Civil(days));
    CivilUndoesDayNumber(NextDay(Civil(days)));
  }

  lemma DayBeforeNext(date: Date)
    requires Valid(date)
    ensures DayBefore(NextDay(date)) == date
  {
  }

  /** The closed form is counting day by day, in both directions from the epoch. */
  lemma {:induction false} CivilCountsDays(days: int)
    ensures Civil(days) == CountedTo(days)
    decreases if days < 0 then -days else days
  {
    hide Civil, NextDay, DayBefore;
    if days > 0 {
      CivilCountsDays(days - 1);
      CivilOfTomorrow(days - 1);
    } else if days < 0 {
      CivilCountsDays(days + 1);
      CivilOfTomorrow(days);
      DayBeforeNext(Civil(days));
    } else {
      CivilOfDayZero();
    }
  }

  lemma CivilOfDayZero()
    ensures Civil(0) == EPOCH
  {
    hide Civil;
    CivilUndoesDayNumber(EPOCH);
  }

  /** No two days share a date. */
  lemma CivilIsInjective(one: int, other: int)
    requires Civil(one) == Civil(other)
    ensures one == other
  {
    CivilIsADate(one);
    CivilIsADate(other);
  }

  // ---- stamp -------------------------------------------------------------------------------

  const DAY := 86400

  /** The first day after year 9999, from which a year takes five digits. */
  const TEN_THOUSAND := 2932897

  lemma YearsInOrder(date: Date)
    requires Valid(date)
    ensures DayNumber(date) >= 0 ==> date.year >= 1970
    ensures date.year >= 10000 <==> DayNumber(date) >= TEN_THOUSAND
  {
    var y, mp := MarchYear(date), MarchMonth(date.month);
    assert 0 <= (153 * mp + 2) / 5 <= 337;
    assert date.month <= 2 ==> (153 * mp + 2) / 5 >= 306;
    assert date.month > 2 ==> (153 * mp + 2) / 5 + date.day - 1 < 306 by {
      if mp <= 8 { assert (153 * mp + 2) / 5 <= 245; }
    }
    MonthFound(mp, date.day);
  }

  /** The year of a day not before the epoch, as a number that can be printed without a sign. */
  function YearPrinted(days: nat): nat {
    CivilIsADate(days);
    YearsInOrder(Civil(days));
    Civil(days).year
  }

  function TwoDigits(n: nat): string {
    Padded(n, 2)
  }

  /** `{}-{}-{}`, and `{}:{}:{}` */
  function Joined(a: string, mark: char, b: string, c: string): string {
    a + [mark] + b + [mark] + c
  }

  /** `{}-{}-{}T{}:{}:{}.{}Z` */
  function Laid(y: string, mo: string, d: string, h: string, mi: string, sec: string, ms: string): string {
    Joined(y, '-', mo, d) + "T" + Joined(h, ':', mi, sec) + "." + ms + "Z"
  }

  /** `stamp`: `at` milliseconds after the epoch, with anything before it read as the epoch. */
  function Stamp(at: int): string {
    var ms := if at < 0 then 0 else at;
    var secs := ms / 1000;
    var date := Civil(secs / DAY);
    var rest := secs % DAY;
    CivilIsADate(secs / DAY);
    Laid(Padded(YearPrinted(secs / DAY), 4), TwoDigits(date.month), TwoDigits(date.day),
         TwoDigits(rest / 3600), TwoDigits(rest % 3600 / 60), TwoDigits(rest % 60),
         Padded(ms % 1000, 3))
  }

  predicate IsField(s: string, width: nat) {
    |s| == width && AllDigits(s)
  }

  /** Three fields of digits with `mark` between them, the first `wide` long and the others two. */
  function ReadThree(s: string, mark: char, wide: nat): Option<(nat, nat, nat)> {
    if |s| == wide + 6 && s[wide] == mark && s[wide + 3] == mark
       && AllDigits(s[..wide]) && AllDigits(s[wide + 1..wide + 3]) && AllDigits(s[wide + 4..])
    then Some((Value(s[..wide]), Value(s[wide + 1..wide + 3]), Value(s[wide + 4..])))
    else None
  }

  /** A reader of `date-time` as section 5.6 of RFC 3339 lays it out, at UTC and to the millisecond:
      every field in its place and in its range. */
  function ReadStamp(s: string): Option<int> {
    if |s| == 24 && s[10] == 'T' && s[19] == '.' && s[23] == 'Z' && AllDigits(s[20..23]) then
      match (ReadThree(s[..10], '-', 4), ReadThree(s[11..19], ':', 2))
      case (Some(ymd), Some(hms)) =>
        var date := Date(ymd.0, ymd.1, ymd.2);
        if Valid(date) && hms.0 < 24 && hms.1 < 60 && hms.2 < 60 then
          Some(1000 * (DAY * DayNumber(date) + 3600 * hms.0 + 60 * hms.1 + hms.2) + Value(s[20..23]))
        else None
      case _ => None
    else None
  }

  lemma TwoDigitsFit(n: nat)
    requires n < 100
    ensures |TwoDigits(n)| == 2 && Value(TwoDigits(n)) == n
  {
    assert Pow10(2) == 10 * Pow10(1) == 100;
    PaddedLength(n, 2);
    ValueOfPadded(n, 2);
  }

  lemma FourDigitsFit(n: nat)
    ensures |Padded(n, 4)| == 4 <==> n < 10000
    ensures Value(Padded(n, 4)) == n
  {
    assert Pow10(4) == 10 * Pow10(3) && Pow10(3) == 10 * Pow10(2) && Pow10(2) == 10 * Pow10(1);
    PaddedLength(n, 4);
    ValueOfPadded(n, 4);
  }

  lemma ThreeDigitsFit(n: nat)
    requires n < 1000
    ensures |Padded(n, 3)| == 3 && Value(Padded(n, 3)) == n
  {
    assert Pow10(3) == 10 * Pow10(2) && Pow10(2) == 10 * Pow10(1);
    PaddedLength(n, 3);
    ValueOfPadded(n, 3);
  }

  lemma ReadJoined(a: string, mark: char, b: string, c: string)
    requires AllDigits(a) && IsField(b, 2) && IsField(c, 2)
    ensures ReadThree(Joined(a, mark, b, c), mark, |a|) == Some((Value(a), Value(b), Value(c)))
  {
    hide Value;
    var s := Joined(a, mark, b, c);
    assert s[..|a|] == a && s[|a| + 1..|a| + 3] == b && s[|a| + 4..] == c;
  }

  /** Where the parts of a printed instant stand. */
  lemma LaidOut(y: string, mo: string, d: string, h: string, mi: string, sec: string, ms: string)
    requires |y| == 4 && |mo| == |d| == |h| == |mi| == |sec| == 2 && |ms| == 3
    ensures var s := Laid(y, mo, d, h, mi, sec, ms);
            |s| == 24 && s[10] == 'T' && s[19] == '.' && s[23] == 'Z'
    ensures Laid(y, mo, d, h, mi, sec, ms)[..10] == Joined(y, '-', mo, d)
    ensures Laid(y, mo, d, h, mi, sec, ms)[11..19] == Joined(h, ':', mi, sec)
    ensures Laid(y, mo, d, h, mi, sec, ms)[20..23] == ms
  {}

  /** Reading back seven fields of the right widths. */
  lemma ReadFields(y: string, mo: string, d: string, h: string, mi: string, sec: string, ms: string)
    requires IsField(y, 4) && IsField(mo, 2) && IsField(d, 2)
    requires IsField(h, 2) && IsField(mi, 2) && IsField(sec, 2) && IsField(ms, 3)
    requires Valid(Date(Value(y), Value(mo), Value(d))) && Value(h) < 24 && Value(mi) < 60 && Value(sec) < 60
    ensures ReadStamp(Laid(y, mo, d, h, mi, sec, ms))
         == Some(1000 * (DAY * DayNumber(Date(Value(y), Value(mo), Value(d)))
                         + 3600 * Value(h) + 60 * Value(mi) + Value(sec)) + Value(ms))
  {
    hide Valid, DayNumber, Value, ReadThree, Laid, Joined;
    ReadJoined(y, '-', mo, d);
    ReadJoined(h, ':', mi, sec);
    LaidOut(y, mo, d, h, mi, sec, ms);
  }

  lemma TimeOfDay(rest: nat)
    requires rest < DAY
    ensures rest / 3600 < 24 && rest % 3600 / 60 < 60 && rest % 60 < 60
    ensures rest == 3600 * (rest / 3600) + 60 * (rest % 3600 / 60) + rest % 60
  {
    assert rest % 3600 % 60 == rest % 60 by {
      assert rest == 60 * (60 * (rest / 3600) + rest % 3600 / 60) + rest % 3600 % 60;
    }
  }

  /** What is printed for an instant reads back as that millisecond exactly up to the end of year
      9999; from the year 10000 on the fixed layout is outgrown and nothing is read. */
  lemma StampReadsBack(at: nat)
    ensures ReadStamp(Stamp(at)) == (if at < 1000 * DAY * TEN_THOUSAND then Some(at) else None)
  {
    hide Civil, DayNumber, Value, Padded, ReadStamp, Valid, YearPrinted;
    var secs := at / 1000;
    var days, rest := secs / DAY, secs % DAY;
    var date := Civil(days);
    DateFits(days);
    TimeOfDay(rest);
    TwoDigitsFit(date.month);
    TwoDigitsFit(date.day);
    TwoDigitsFit(rest / 3600);
    TwoDigitsFit(rest % 3600 / 60);
    TwoDigitsFit(rest % 60);
    ThreeDigitsFit(at % 1000);
    FourDigitsFit(YearPrinted(days));
    if at < 1000 * DAY * TEN_THOUSAND {
      ReadFields(Padded(YearPrinted(days), 4), TwoDigits(date.month), TwoDigits(date.day),
                 TwoDigits(rest / 3600), TwoDigits(rest % 3600 / 60), TwoDigits(rest % 60),
                 Padded(at % 1000, 3));
      assert at == 1000 * (DAY * days + rest) + at % 1000;
    } else {
      assert |Stamp(at)| > 24;
      NotReadUnless24(Stamp(at));
    }
  }

  lemma NotReadUnless24(s: string)
    requires |s| != 24
    ensures ReadStamp(s) == None
  {}

  lemma DateFits(days: nat)
    ensures var date := Civil(days);
            && Valid(date) && DayNumber(date) == days && YearPrinted(days) == date.year
            && 1 <= date.month <= 12 && 1 <= date.day <= 31
            && (date.year >= 10000 <==> days >= TEN_THOUSAND)
  {
    hide Civil;
    CivilIsADate(days);
    YearsInOrder(Civil(days));
  }
}
