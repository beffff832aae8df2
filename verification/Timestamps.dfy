/** Points in time as the service stores them: a calendar date and time with an optional offset from UTC. */
module Timestamps {
  import opened Wrappers

  /** offset is in seconds east of UTC; None is a naive timestamp, read as UTC. */
  datatype DateTime = DateTime(
    year: nat, month: nat, day: nat, hour: nat, minute: nat, second: nat, micro: nat, offset: Option<int>)

  predicate IsLeap(year: nat) {
    year % 4 == 0 && (year % 100 != 0 || year % 400 == 0)
  }

  function DaysInMonth(year: nat, month: nat): nat {
    if month == 2 then (if IsLeap(year) then 29 else 28)
    else if month == 4 || month == 6 || month == 9 || month == 11 then 30
    else 31
  }

  predicate IsReal(t: DateTime) {
    && 1 <= t.year <= 9999 && 1 <= t.month <= 12 && 1 <= t.day <= DaysInMonth(t.year, t.month)
    && t.hour < 24 && t.minute < 60 && t.second < 60 && t.micro < 1000000
    && (t.offset.Some? ==> -86400 < t.offset.value < 86400)
  }

  /** Only dates and times that exist can be built. */
  type Timestamp = t: DateTime | IsReal(t) witness DateTime(1, 1, 1, 0, 0, 0, 0, None)

  function DaysBeforeMonth(year: nat, month: nat): nat {
    if month <= 1 then 0 else DaysBeforeMonth(year, month - 1) + DaysInMonth(year, month - 1)
  }

  function DaysBeforeYear(year: nat): nat {
    if year == 0 then 0
    else
      var y := year - 1;
      y * 365 + y / 4 + y / 400 - y / 100
  }

  /** Microseconds since the day before the first of January of year 1, UTC; no timestamp lies before that. */
  function Instant(t: Timestamp): nat {
    var days := DaysBeforeYear(t.year) + DaysBeforeMonth(t.year, t.month) + t.day;
    assert days >= 1;
    var seconds := ((days * 24 + t.hour) * 60 + t.minute) * 60 + t.second
      - (if t.offset.Some? then t.offset.value else 0);
    seconds * 1000000 + t.micro
  }

  /** Earlier in the calendar and on the clock, field by field. */
  predicate Earlier(t: Timestamp, u: Timestamp) {
    t.year < u.year || (t.year == u.year && (
      t.month < u.month || (t.month == u.month && (
        t.day < u.day || (t.day == u.day && EarlierInDay(t, u))))))
  }

  predicate EarlierInDay(t: Timestamp, u: Timestamp) {
    t.hour < u.hour || (t.hour == u.hour && (
      t.minute < u.minute || (t.minute == u.minute && (
        t.second < u.second || (t.second == u.second && t.micro < u.micro)))))
  }

  /** Microseconds since midnight. */
  function TimeOfDay(t: Timestamp): (micros: nat)
    ensures micros < 86400000000
  {
    ((t.hour * 60 + t.minute) * 60 + t.second) * 1000000 + t.micro
  }

  function DayNumber(t: Timestamp): int {
    DaysBeforeYear(t.year) + DaysBeforeMonth(t.year, t.month) + t.day
  }

  lemma InstantParts(t: Timestamp)
    ensures Instant(t) == DayNumber(t) * 86400000000 + TimeOfDay(t)
      - (if t.offset.Some? then t.offset.value else 0) * 1000000
  {
  }

  /** A year is as long as its months together. */
  lemma YearLength(year: nat)
    requires year >= 1
    ensures DaysBeforeYear(year + 1) == DaysBeforeYear(year) + DaysBeforeMonth(year, 13)
  {
    hide DaysBeforeMonth, IsLeap;
    TwelveMonths(year);
    LeapCount(year - 1);
    LeapRule(year);
  }

  /** A year is leap when it is counted once more among the fourths and four hundredths than the hundredths. */
  lemma LeapRule(year: nat)
    ensures (if year % 4 == 0 then 1 else 0) - (if year % 100 == 0 then 1 else 0) + (if year % 400 == 0 then 1 else 0)
      == if IsLeap(year) then 1 else 0
  {
    HundredIsFourths(year);
    FourHundredIsHundreds(year);
  }

  lemma HundredIsFourths(year: nat)
    ensures year % 100 == 0 ==> year % 4 == 0
  {
    var q, r := year / 100, year % 100;
    assert year == 4 * (25 * q) + r;
  }

  lemma FourHundredIsHundreds(year: nat)
    ensures year % 400 == 0 ==> year % 100 == 0
  {
    var q, r := year / 400, year % 400;
    assert year == 100 * (4 * q) + r;
  }

  lemma TwelveMonths(year: nat)
    ensures DaysBeforeMonth(year, 13) == if IsLeap(year) then 366 else 365
  {
    hide DaysBeforeMonth, IsLeap;
    MonthStep(year, 1); MonthStep(year, 2); MonthStep(year, 3); MonthStep(year, 4);
    MonthStep(year, 5); MonthStep(year, 6); MonthStep(year, 7); MonthStep(year, 8);
    MonthStep(year, 9); MonthStep(year, 10); MonthStep(year, 11); MonthStep(year, 12);
  }

  lemma MonthStep(year: nat, month: nat)
    requires month >= 1
    ensures DaysBeforeMonth(year, month + 1) == DaysBeforeMonth(year, month) + DaysInMonth(year, month)
    ensures DaysBeforeMonth(year, 1) == 0
  {
  }

  lemma LeapCount(y: nat)
    ensures (y + 1) / 4 - y / 4 == (if (y + 1) % 4 == 0 then 1 else 0)
    ensures (y + 1) / 100 - y / 100 == (if (y + 1) % 100 == 0 then 1 else 0)
    ensures (y + 1) / 400 - y / 400 == (if (y + 1) % 400 == 0 then 1 else 0)
  {
  }

  lemma {:induction false} MonthsAscend(year: nat, m: nat, n: nat)
    requires 1 <= m < n
    ensures DaysBeforeMonth(year, m) + DaysInMonth(year, m) <= DaysBeforeMonth(year, n)
  {
    if m + 1 < n {
      MonthsAscend(year, m, n - 1);
    }
  }

  lemma {:induction false} YearsAscend(y: nat, z: nat)
    requires 1 <= y < z
    ensures DaysBeforeYear(y) + DaysBeforeMonth(y, 13) <= DaysBeforeYear(z)
  {
    YearLength(z - 1);
    if y + 1 < z {
      YearsAscend(y, z - 1);
    }
  }

  lemma EarlierDay(t: Timestamp, u: Timestamp)
    requires Earlier(t, u)
    ensures DayNumber(t) < DayNumber(u) || (DayNumber(t) == DayNumber(u) && TimeOfDay(t) < TimeOfDay(u))
  {
    hide DaysBeforeYear, DaysBeforeMonth, TimeOfDay, EarlierInDay;
    if t.year < u.year {
      MonthsAscend(t.year, t.month, 13);
      YearsAscend(t.year, u.year);
    } else if t.month < u.month {
      MonthsAscend(t.year, t.month, u.month);
    } else if t.day == u.day {
      TimeOfDayOrder(t, u);
    }
  }

  lemma TimeOfDayOrder(t: Timestamp, u: Timestamp)
    ensures TimeOfDay(t) < TimeOfDay(u) <==> EarlierInDay(t, u)
  {
  }

  /** Under one offset, points in time are ordered as the calendar orders them, leap years included. */
  lemma InstantOrder(t: Timestamp, u: Timestamp)
    requires t.offset == u.offset
    ensures Instant(t) < Instant(u) <==> Earlier(t, u)
  {
    hide Instant, DayNumber, TimeOfDay;
    InstantParts(t);
    InstantParts(u);
    if Earlier(t, u) {
      EarlierDay(t, u);
    } else if Earlier(u, t) {
      EarlierDay(u, t);
    } else {
      SameDay(t, u);
    }
  }

  lemma SameDay(t: Timestamp, u: Timestamp)
    requires !Earlier(t, u) && !Earlier(u, t)
    ensures DayNumber(t) == DayNumber(u) && TimeOfDay(t) == TimeOfDay(u)
  {
    TimeOfDayOrder(t, u);
    TimeOfDayOrder(u, t);
  }

  /** An offset of n seconds to the east means n seconds earlier; without one, the fields are read as UTC. */
  lemma OffsetShiftsInstant(t: Timestamp, n: int)
    requires -86400 < n < 86400
    ensures Instant(t.(offset := Some(n))) == Instant(t.(offset := None)) - 1000000 * n
  {
    hide DaysBeforeYear, DaysBeforeMonth;
  }

  // ---------------------------------------------------------------- the calendar

  /** Counted from March the months follow the 153-day pattern, which knows nothing of the length of a month. */
  lemma {:induction false} MonthStarts(year: nat, month: nat)
    requires 3 <= month <= 13
    ensures DaysBeforeMonth(year, month) == (if IsLeap(year) then 60 else 59) + (153 * (month - 3) + 2) / 5
    ensures DaysBeforeMonth(year, 2) == 31
  {
    hide DaysBeforeMonth, IsLeap;
    MonthStep(year, 1);
    MonthStep(year, 2);
    if month > 3 {
      MonthStarts(year, month - 1);
      MonthStep(year, month - 1);
      MonthPattern(year, month - 1);
    }
  }

  lemma MonthPattern(year: nat, month: nat)
    requires 3 <= month <= 12
    ensures (153 * (month - 2) + 2) / 5 == (153 * (month - 3) + 2) / 5 + DaysInMonth(year, month)
  {
    hide IsLeap;
    var starts := [0, 31, 61, 92, 122, 153, 184, 214, 245, 275, 306];
    assert starts[month - 3] == (153 * (month - 3) + 2) / 5;
    assert starts[month - 2] == (153 * (month - 2) + 2) / 5;
  }

  /** Four centuries are 146097 days, and the first of January 1970 is day 719163. */
  lemma KnownDays(year: nat)
    requires year >= 1
    ensures DaysBeforeYear(year + 400) == DaysBeforeYear(year) + 146097
    ensures DayNumber(DateTime(1970, 1, 1, 0, 0, 0, 0, None)) == 719163
  {
    FourCenturies(year);
    assert DaysBeforeMonth(1970, 1) == 0;
    assert DaysBeforeYear(1970) == 1969 * 365 + 492 + 4 - 19;
  }

  lemma FourCenturies(year: nat)
    requires year >= 1
    ensures DaysBeforeYear(year + 400) == DaysBeforeYear(year) + 146097
  {
    var y := year - 1;
    assert (y + 400) / 4 == y / 4 + 100 && (y + 400) / 100 == y / 100 + 4 && (y + 400) / 400 == y / 400 + 1;
  }

  /** The next microsecond on the calendar and the clock; there is none after the last of the year 9999. */
  function Tick(t: Timestamp): Option<Timestamp> {
    if t.micro < 999999 then Some(t.(micro := t.micro + 1))
    else if t.second < 59 then Some(t.(second := t.second + 1, micro := 0))
    else if t.minute < 59 then Some(t.(minute := t.minute + 1, second := 0, micro := 0))
    else if t.hour < 23 then Some(t.(hour := t.hour + 1, minute := 0, second := 0, micro := 0))
    else if t.day < DaysInMonth(t.year, t.month) then
      Some(t.(day := t.day + 1, hour := 0, minute := 0, second := 0, micro := 0))
    else if t.month < 12 then
      Some(t.(month := t.month + 1, day := 1, hour := 0, minute := 0, second := 0, micro := 0))
    else if t.year < 9999 then
      Some(DateTime(t.year + 1, 1, 1, 0, 0, 0, 0, t.offset))
    else None
  }

  /** No point in time is skipped: the next timestamp is one microsecond later. */
  lemma TickIsNext(t: Timestamp)
    ensures Tick(t).Some? ==> Instant(Tick(t).value) == Instant(t) + 1
    ensures Tick(t).None? <==> t == DateTime(9999, 12, 31, 23, 59, 59, 999999, t.offset)
  {
    hide Instant, DaysBeforeYear, DaysBeforeMonth;
    InstantParts(t);
    if Tick(t).Some? {
      InstantParts(Tick(t).value);
      NextDay(t);
    }
  }

  /** The day after the last of a month is the first of the next. */
  lemma NextDay(t: Timestamp)
    ensures t.day == DaysInMonth(t.year, t.month) && t.month < 12 ==>
      DaysBeforeMonth(t.year, t.month + 1) == DaysBeforeMonth(t.year, t.month) + t.day
    ensures t.day == DaysInMonth(t.year, t.month) && t.month == 12 ==>
      DaysBeforeYear(t.year + 1) == DaysBeforeYear(t.year) + DaysBeforeMonth(t.year, t.month) + t.day
    ensures DaysBeforeMonth(t.year, 1) == 0 && DaysBeforeMonth(t.year + 1, 1) == 0
  {
    hide DaysBeforeYear, DaysBeforeMonth;
    MonthStep(t.year, t.month);
    MonthStep(t.year + 1, 1);
    MonthStep(t.year, 1);
    YearLength(t.year);
  }
}
