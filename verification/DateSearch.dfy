/** "on 31st", "on 2/29", "on friday", "at 10:30": the search for the next matching date or time.
    Years run to 9999, the last one a datetime can hold. Dates are compared as the calendar orders
    them, and moments as dates with a time of day. */
module DateSearch {
  import opened Common

  const LAST_YEAR := 9999

  // The calendar ------------------------------------------------------------------------

  predicate Leap(year: int) {
    year % 4 == 0 && (year % 100 != 0 || year % 400 == 0)
  }

  function DaysIn(year: int, month: int): (n: int)
    requires 1 <= month <= 12
    ensures 28 <= n <= 31
  {
    if month == 2 then if Leap(year) then 29 else 28
    else if month in {4, 6, 9, 11} then 30
    else 31
  }

  /** A date; `%Y` reads years of four digits only. */
  datatype Date = Date(year: int, month: int, day: int)
  {
    predicate Valid() {
      1000 <= year <= LAST_YEAR && 1 <= month <= 12 && 1 <= day <= DaysIn(year, month)
    }
  }

  predicate Before(a: Date, b: Date) {
    a.year < b.year || (a.year == b.year && (a.month < b.month || (a.month == b.month && a.day < b.day)))
  }

  /** The least date that matches, strictly after today; None if there is none. */
  ghost predicate IsNext(matches: Date -> bool, today: Date, r: Option<Date>) {
    match r
    case Some(x) => IsNextDate(matches, today, x)
    case None => forall x: Date :: x.Valid() && Before(today, x) ==> !matches(x)
  }

  ghost predicate IsNextDate(matches: Date -> bool, today: Date, x: Date) {
    && x.Valid() && matches(x) && Before(today, x)
    && forall y: Date :: y.Valid() && matches(y) && Before(today, y) ==> y == x || Before(x, y)
  }

  // Day of the month --------------------------------------------------------------------

  function OnDay(n: int): Date -> bool {
    (x: Date) => x.day == n
  }

  /** A datetime can be given this month, counted on past December, and this day. */
  predicate CanHold(year: int, month: int, n: int) {
    var y, m := year + (month - 1) / 12, (month - 1) % 12 + 1;
    y <= LAST_YEAR && n <= DaysIn(y, m)
  }

  /** A month that cannot hold the day is followed by one that can, unless the years run out. */
  lemma NextHolds(year: int, month: int, n: int)
    requires 1 <= month <= 13 && 1 <= n <= 31 && !CanHold(year, month, n)
    requires year + (month - 1) / 12 <= LAST_YEAR
    ensures CanHold(year, month + 1, n)
  {
    assert month == 2 || month in {4, 6, 9, 11};
  }

  /** The n-th of a month counted from January of `year`. */
  function Held(year: int, month: int, n: int): Date {
    Date(year + (month - 1) / 12, (month - 1) % 12 + 1, n)
  }

  /** The month `month` of `year` is the first in which the n-th falls after today. */
  predicate FirstMonth(today: Date, month: int, n: int)
    requires 1 <= today.month <= 12
  {
    && today.month <= month <= today.month + 2
    && CanHold(today.year, month, n)
    && (month == today.month ==> n > today.day)
    && (month > today.month ==> n <= today.day || n > DaysIn(today.year, today.month))
    && (month > today.month + 1 ==> !CanHold(today.year, today.month + 1, n))
  }

  lemma MonthsBetween(today: Date, y: Date, month: int, n: int)
    requires today.Valid() && 1 <= n <= 31 && FirstMonth(today, month, n)
    requires y.Valid() && y.day == n && Before(today, y)
    ensures y == Held(today.year, month, n) || Before(Held(today.year, month, n), y)
  {
  }

  lemma FirstIsNext(today: Date, month: int, n: int)
    requires today.Valid() && 1 <= n <= 31 && FirstMonth(today, month, n)
    ensures IsNext(OnDay(n), today, Some(Held(today.year, month, n)))
  {
    hide DaysIn;
    var x := Held(today.year, month, n);
    forall y: Date | y.Valid() && OnDay(n)(y) && Before(today, y) ensures y == x || Before(x, y) {
      MonthsBetween(today, y, month, n);
    }
  }

  lemma NoneLeft(today: Date, n: int)
    requires today.Valid() && 1 <= n <= 31
    requires today.year == LAST_YEAR && today.month == 12 && n <= today.day
    ensures IsNext(OnDay(n), today, None)
  {
  }

  /** The least later date on the n-th, across short months, leap years and year ends. The search
      gives up exactly in the last month there is, once the day has come. */
  method NthDay(today: Date, n: int) returns (r: Option<Date>)
    requires today.Valid() && 1 <= n <= 31
    ensures IsNext(OnDay(n), today, r)
    ensures r.None? <==> today.year == 9999 && today.month == 12 && n <= today.day
  {
    hide IsNext, DaysIn;
    var count := 0;
    var month := today.month;
    while !(month <= 12 && n <= DaysIn(today.year, month))
      invariant month == today.month + count && 0 <= count <= 1
      invariant count == 1 ==> n > DaysIn(today.year, today.month) && month <= 12 && CanHold(today.year, month, n)
      decreases 13 - month
    {
      if count > 10 {
        return None;
      }
      assert count == 0;
      NextHolds(today.year, month, n);
      DecemberHolds(today.year, n);
      month, count := month + 1, count + 1;
    }
    if n <= today.day {
      month, count := month + 1, 0;
      var last := today.year == LAST_YEAR && today.month == 12;
      while !CanHold(today.year, month, n)
        invariant month == today.month + 1 + count && 0 <= count <= 11
        invariant !last && count > 0 ==>
          count == 1 && CanHold(today.year, month, n) && !CanHold(today.year, today.month + 1, n)
        invariant last ==> today.year + (month - 1) / 12 > LAST_YEAR
        decreases 12 - count
      {
        if count > 10 {
          NoneLeft(today, n);
          return None;
        }
        if !last {
          NextHolds(today.year, month, n);
        }
        month, count := month + 1, count + 1;
      }
    }
    FirstIsNext(today, month, n);
    r := Some(Held(today.year, month, n));
  }

  lemma DecemberHolds(year: int, n: int)
    requires n <= 31
    ensures n <= DaysIn(year, 12)
  {
  }

  // Month and day -------------------------------------------------------------------------

  function OnMonthDay(month: int, day: int): Date -> bool {
    (x: Date) => x.month == month && x.day == day
  }

  /** This year's 29 February is not, or no longer, to come. */
  predicate LeapDayGone(today: Date) {
    !Leap(today.year) || !Before(today, Date(today.year, 2, 29))
  }

  /** This year's date if it is still to come, or else next year's. It is the least later date,
      or there is none, except for 29 February: once that is gone the answer is None, though
      until the last leap year there is another one. */
  method MonthDay(today: Date, month: int, day: int) returns (r: Option<Date>)
    requires today.Valid() && 1 <= month <= 12 && 1 <= day <= 31
    ensures IsNext(OnMonthDay(month, day), today, r) <==>
      !(month == 2 && day == 29 && LeapDayGone(today) && Before(today, Date(9996, 2, 29)))
    ensures month == 2 && day == 29 && LeapDayGone(today) ==> r.None?
  {
    var pd := Date(today.year, month, day);
    if !pd.Valid() {
      NoDate(today, month, day);
      return None;
    }
    if today.month > month || (today.month == month && today.day >= day) {
      pd := pd.(year := today.year + 1);
      if !pd.Valid() {
        NoDate(today, month, day);
        return None;
      }
    }
    r := Some(pd);
  }

  lemma NoDate(today: Date, month: int, day: int)
    requires today.Valid() && 1 <= month <= 12 && 1 <= day <= 31
    requires
      || !Date(today.year, month, day).Valid()
      || (!Before(today, Date(today.year, month, day)) && !Date(today.year + 1, month, day).Valid())
    ensures IsNext(OnMonthDay(month, day), today, None) <==>
      !(month == 2 && day == 29 && Before(today, Date(9996, 2, 29)))
  {
    if month == 2 && day == 29 {
      var x := Date(9996, 2, 29);
      assert x.Valid() && OnMonthDay(2, 29)(x);
    } else {
      forall x: Date | x.Valid() && Before(today, x) ensures !OnMonthDay(month, day)(x) {
        if x.month == month && x.day == day {
          SameLength(today.year, x.year, month, day);
          SameLength(today.year + 1, x.year, month, day);
        }
      }
    }
  }

  lemma SameLength(a: int, b: int, month: int, day: int)
    requires 1 <= month <= 12 && !(month == 2 && day == 29)
    ensures day <= DaysIn(a, month) <==> day <= DaysIn(b, month)
  {
  }

  // Days and weekdays ---------------------------------------------------------------------

  /** The number of days before a year, with 1 January of year 1 as day 1. */
  function DaysBeforeYear(year: int): int {
    var y := year - 1;
    y * 365 + y / 4 - y / 100 + y / 400
  }

  function DaysBeforeMonth(year: int, month: int): (n: int)
    requires 1 <= month <= 12
    ensures n >= 0 && n + DaysIn(year, month) <= 366
    decreases month
  {
    var n := match month
      case 1 => 0 case 2 => 31 case 3 => 59 case 4 => 90 case 5 => 120 case 6 => 151
      case 7 => 181 case 8 => 212 case 9 => 243 case 10 => 273 case 11 => 304 case _ => 334;
    if month > 2 && Leap(year) then n + 1 else n
  }

  function Ordinal(d: Date): int
    requires 1 <= d.month <= 12
  {
    DaysBeforeYear(d.year) + DaysBeforeMonth(d.year, d.month) + d.day
  }

  /** Monday is 0. */
  function Weekday(d: Date): int
    requires 1 <= d.month <= 12
  {
    (Ordinal(d) + 6) % 7
  }

  /** Counting from a date that is known: 1 January 1970 was a Thursday, and the weekday moves on by one
      each day. */
  lemma WeekdayExactly(d: Date)
    requires 1 <= d.month <= 12
    ensures Weekday(Date(1970, 1, 1)) == 3
    ensures 0 <= Weekday(d) < 7 && (Weekday(d) - 3 - (Ordinal(d) - Ordinal(Date(1970, 1, 1)))) % 7 == 0
  {
    hide DaysBeforeMonth;
    assert Ordinal(Date(1970, 1, 1)) == 719163 by {
      EpochDay();
    }
  }

  lemma EpochDay()
    ensures Ordinal(Date(1970, 1, 1)) == 719163
  {
  }

  lemma YearLength(year: int)
    ensures DaysBeforeYear(year + 1) - DaysBeforeYear(year) == if Leap(year) then 366 else 365
  {
    Fours(year);
    Hundreds(year);
    FourHundreds(year);
    Multiples(year);
  }

  lemma Fours(year: int)
    ensures year / 4 - (year - 1) / 4 == if year % 4 == 0 then 1 else 0
  {
  }

  lemma Hundreds(year: int)
    ensures year / 100 - (year - 1) / 100 == if year % 100 == 0 then 1 else 0
  {
  }

  lemma FourHundreds(year: int)
    ensures year / 400 - (year - 1) / 400 == if year % 400 == 0 then 1 else 0
  {
  }

  lemma Multiples(year: int)
    ensures year % 400 == 0 ==> year % 100 == 0
    ensures year % 100 == 0 ==> year % 4 == 0
  {
  }

  lemma MonthLength(year: int, month: int)
    requires 1 <= month <= 12
    ensures month < 12 ==> DaysBeforeMonth(year, month + 1) == DaysBeforeMonth(year, month) + DaysIn(year, month)
    ensures month == 12 ==> DaysBeforeMonth(year, month) + DaysIn(year, month) == if Leap(year) then 366 else 365
  {
  }

  /** The day after, None past the last day there is. */
  function Tomorrow(d: Date): Option<Date>
    requires d.Valid()
  {
    if d.day < DaysIn(d.year, d.month) then Some(d.(day := d.day + 1))
    else if d.month < 12 then Some(Date(d.year, d.month + 1, 1))
    else if d.year < LAST_YEAR then Some(Date(d.year + 1, 1, 1))
    else None
  }

  lemma TomorrowIsNext(d: Date)
    requires d.Valid()
    ensures match Tomorrow(d)
      case None => forall x: Date :: x.Valid() ==> !Before(d, x)
      case Some(t) =>
        && t.Valid() && Before(d, t) && Ordinal(t) == Ordinal(d) + 1
        && (forall x: Date :: x.Valid() && Before(d, x) ==> x == t || Before(t, x))
  {
    YearLength(d.year);
    MonthLength(d.year, d.month);
    assert DaysBeforeMonth(d.year + 1, 1) == 0;
    hide DaysBeforeYear, DaysBeforeMonth;
  }

  /** `timedelta(days=n)` later, None on overflow. */
  function AddDays(d: Date, n: nat): (r: Option<Date>)
    requires d.Valid()
    ensures r.Some? ==> r.value.Valid()
    decreases n
  {
    if n == 0 then Some(d)
    else
      TomorrowIsNext(d);
      match Tomorrow(d) case None => None case Some(t) => AddDays(t, n - 1)
  }

  function OnWeekday(w: int): Date -> bool {
    (x: Date) => 1 <= x.month <= 12 && Weekday(x) == w
  }

  /** The next `n` days, one by one: none but the last is on the weekday. */
  lemma {:induction false} WalkToWeekday(today: Date, d: Date, w: int, n: nat)
    requires today.Valid() && d.Valid() && 0 <= w < 7 && n < 7 && (Weekday(d) + n) % 7 == w
    requires today == d || Before(today, d)
    requires forall x: Date :: x.Valid() && Before(today, x) && OnWeekday(w)(x) ==> x == d || Before(d, x)
    requires n == 0 ==> Before(today, d)
    ensures IsNext(OnWeekday(w), today, AddDays(d, n))
    decreases n
  {
    hide Weekday, Before, DaysIn, Ordinal;
    WeekdayRange(d);
    if n > 0 {
      TomorrowIsNext(d);
      match Tomorrow(d)
      case None =>
        assert forall x: Date :: x.Valid() && Before(today, x) && OnWeekday(w)(x) ==> x == d;
      case Some(t) =>
        WeekdayMoves(d);
        Chain(today, d, t);
        WalkToWeekday(today, t, w, n - 1);
    }
  }

  lemma Chain(a: Date, b: Date, c: Date)
    requires (a == b || Before(a, b)) && Before(b, c)
    ensures Before(a, c)
  {
  }

  lemma WeekdayMoves(d: Date)
    requires d.Valid() && Tomorrow(d).Some?
    ensures Tomorrow(d).value.Valid() && Weekday(Tomorrow(d).value) == (Weekday(d) + 1) % 7
  {
    TomorrowIsNext(d);
    SevenDays(Ordinal(d));
    hide Ordinal, Tomorrow, Before, DaysIn;
  }

  lemma SevenDays(n: int)
    ensures (n + 1 + 6) % 7 == ((n + 6) % 7 + 1) % 7
  {
  }

  lemma WeekdayStart(today: Date, w: int, days: nat)
    requires today.Valid() && 0 <= w < 7 && 0 < days <= 7 && (Weekday(today) + days) % 7 == w
    ensures IsNext(OnWeekday(w), today, AddDays(today, days))
  {
    hide Weekday, Before, DaysIn, Ordinal, Tomorrow, AddDays, IsNext;
    WeekdayRange(today);
    FirstDay(today, days);
    if Tomorrow(today).Some? {
      WeekdayMoves(today);
      OneDayOn(Weekday(today), days, w);
      WalkToWeekday(today, Tomorrow(today).value, w, days - 1);
    } else {
      NoTomorrow(today, OnWeekday(w));
    }
  }

  lemma OneDayOn(wd: int, days: int, w: int)
    requires 0 <= wd < 7 && (wd + days) % 7 == w
    ensures ((wd + 1) % 7 + (days - 1)) % 7 == w
  {
  }

  lemma FirstDay(today: Date, days: nat)
    requires today.Valid() && days > 0
    ensures AddDays(today, days) == match Tomorrow(today) case None => None case Some(t) => AddDays(t, days - 1)
    ensures Tomorrow(today).Some? ==>
      var t := Tomorrow(today).value;
      && t.Valid() && Before(today, t)
      && (forall x: Date :: x.Valid() && Before(today, x) ==> x == t || Before(t, x))
  {
    hide Before, Ordinal, DaysIn;
    TomorrowIsNext(today);
  }

  lemma NoTomorrow(today: Date, matches: Date -> bool)
    requires today.Valid() && Tomorrow(today).None?
    ensures IsNext(matches, today, None)
  {
    hide Before, Ordinal, DaysIn, Tomorrow;
    TomorrowIsNext(today);
  }

  lemma WeekdayRange(d: Date)
    requires d.Valid()
    ensures 0 <= Weekday(d) < 7
  {
  }

  lemma DaysTo(wd: int, w: int, days: int)
    requires 0 <= wd < 7 && 0 <= w < 7 && days == if w <= wd then w + (7 - wd) else w - wd
    ensures 0 < days <= 7 && (wd + days) % 7 == w
  {
  }

  /** The next date on a weekday, a week on if today is one. */
  method NextWeekday(today: Date, w: int) returns (r: Option<Date>)
    requires today.Valid() && 0 <= w < 7
    ensures IsNext(OnWeekday(w), today, r)
  {
    WeekdayRange(today);
    hide *;
    var wd := Weekday(today);
    var days := if w <= wd then w + (7 - wd) else w - wd;
    r := AddDays(today, days);
    DaysTo(wd, w, days);
    WeekdayStart(today, w, days);
  }

  // Time of day ---------------------------------------------------------------------------

  /** A moment, to the second. */
  datatype Moment = Moment(date: Date, hour: int, minute: int, second: int)
  {
    predicate Valid() {
      date.Valid() && 0 <= hour < 24 && 0 <= minute < 60 && 0 <= second < 60
    }
  }

  function Seconds(m: Moment): int {
    m.hour * 3600 + m.minute * 60 + m.second
  }

  predicate Earlier(a: Moment, b: Moment) {
    Before(a.date, b.date) || (a.date == b.date && Seconds(a) < Seconds(b))
  }

  /** The least later moment at that time of day: today's, or tomorrow's once it has struck. */
  method ClockTime(now: Moment, hour: int, minute: int) returns (r: Option<Moment>)
    requires now.Valid() && 0 <= hour < 24 && 0 <= minute < 60
    ensures r.Some? ==>
      && r.value.Valid() && r.value == Moment(r.value.date, hour, minute, 0) && Earlier(now, r.value)
      && (forall d: Date :: d.Valid() && Earlier(now, Moment(d, hour, minute, 0)) ==>
        d == r.value.date || Before(r.value.date, d))
    ensures r.None? ==>
      forall d: Date :: d.Valid() ==> !Earlier(now, Moment(d, hour, minute, 0))
  {
    var pd := now.date;
    if now.hour > hour || (now.hour == hour && now.minute >= minute) {
      TomorrowIsNext(pd);
      var later := AddDays(pd, 1);
      assert later == Tomorrow(pd);
      if later.None? {
        return None;
      }
      pd := later.value;
    }
    r := Some(Moment(pd, hour, minute, 0));
  }
}
