/** The calendar arithmetic behind Python's `calendar.timegm` and
    `email.utils.mktime_tz`: a `time.struct_time` read as UTC calendar fields
    and turned into seconds since 1970-01-01, on the proleptic Gregorian
    calendar that `datetime.date` uses. */
module Calendar {
  import opened Wrappers

  /** A `time.struct_time` as the feed parser produces it: year, month, day,
      hour, minute, second, weekday, day of year, DST flag. A Python tuple is
      truthy exactly when it is non-empty. */
  datatype TimeStruct = TimeStruct(fields: seq<int>)

  const SecondsPerDay: int := 86400

  /** `date(1970, 1, 1).toordinal()`. */
  const EpochOrdinal: int := 719163

  predicate IsLeap(y: int) {
    y % 4 == 0 && (y % 100 != 0 || y % 400 == 0)
  }

  /** Days in month `m` of year `y`, from the calendar rules alone. */
  function DaysInMonth(y: int, m: int): int
    requires 1 <= m <= 12
  {
    if m == 2 then (if IsLeap(y) then 29 else 28)
    else if m == 4 || m == 6 || m == 9 || m == 11 then 30
    else 31
  }

  /** Days before January 1 of year `y`, counted from 0001-01-01. */
  function DaysBeforeYear(y: int): int
    requires y >= 1
  {
    var p := y - 1;
    p * 365 + p / 4 - p / 100 + p / 400
  }

  /** Days before the first of month `m` within year `y`. */
  function DaysBeforeMonth(y: int, m: int): int
    requires 1 <= m <= 12
  {
    [0, 0, 31, 59, 90, 120, 151, 181, 212, 243, 273, 304, 334][m] + (if m > 2 && IsLeap(y) then 1 else 0)
  }

  /** The fields `date(year, month, 1)` accepts. */
  predicate ValidStruct(t: TimeStruct) {
    |t.fields| >= 6 && 1 <= t.fields[0] <= 9999 && 1 <= t.fields[1] <= 12
  }

  /** `calendar.timegm(t)`: the first six fields as UTC, in seconds since the
      epoch. `None` where Python raises: fewer than six fields, or a year or
      month `datetime.date` rejects. Day, hour, minute and second are not
      range-checked, so they carry over as plain arithmetic. */
  function Timegm(t: TimeStruct): (r: Option<int>)
    ensures r.Some? <==> ValidStruct(t)
  {
    if !ValidStruct(t) then None
    else
      var f := t.fields;
      var days := DaysBeforeYear(f[0]) + DaysBeforeMonth(f[0], f[1]) + 1 - EpochOrdinal + f[2] - 1;
      Some(((days * 24 + f[3]) * 60 + f[4]) * 60 + f[5])
  }

  /** `email.utils.mktime_tz(t)`: reads the tenth field, the UTC offset, so
      a nine-field `struct_time` raises `IndexError`. */
  function MktimeTz(t: TimeStruct): (r: Option<int>)
    ensures |t.fields| < 10 ==> r.None?
    ensures r.Some? ==> Timegm(t).Some? && r.value == Timegm(t).value - t.fields[9]
    ensures |t.fields| >= 10 ==> r == (if ValidStruct(t) then Some(Timegm(t).value - t.fields[9]) else None)
  {
    if |t.fields| < 10 then None
    else
      match Timegm(t)
      case None => None
      case Some(s) => Some(s - t.fields[9])
  }

  /** Midnight of a date, as a struct with the remaining fields zero. */
  function Midnight(y: int, m: int, d: int): TimeStruct {
    TimeStruct([y, m, d, 0, 0, 0, 0, 0, 0])
  }

  /** The epoch itself is second zero. */
  lemma TimegmEpoch()
    ensures Timegm(Midnight(1970, 1, 1)) == Some(0)
  {
  }

  /** Consecutive months start `DaysInMonth` days apart. */
  lemma TimegmMonthLength(y: int, m: int)
    requires 1 <= y <= 9999 && 1 <= m < 12
    ensures Timegm(Midnight(y, m + 1, 1)).value - Timegm(Midnight(y, m, 1)).value
         == DaysInMonth(y, m) * SecondsPerDay
  {
  }

  /** Consecutive years start 365 days apart, or 366 after a leap year. */
  lemma TimegmYearLength(y: int)
    requires 1 <= y < 9999
    ensures Timegm(Midnight(y + 1, 1, 1)).value - Timegm(Midnight(y, 1, 1)).value
         == (if IsLeap(y) then 366 else 365) * SecondsPerDay
  {
    var p := y - 1;
    assert y / 4 == p / 4 + (if y % 4 == 0 then 1 else 0);
    assert y / 100 == p / 100 + (if y % 100 == 0 then 1 else 0);
    assert y / 400 == p / 400 + (if y % 400 == 0 then 1 else 0);
    assert DaysBeforeYear(y + 1) - DaysBeforeYear(y) == if IsLeap(y) then 366 else 365;
  }
}
