/**
 * Calendar arithmetic of Python's `datetime` on integer timestamps: seconds
 * since 1970-01-01T00:00:00Z. Local time in Asia/Seoul is taken as UTC+9.
 */
module Dates {

  const SecondsPerMinute: int := 60
  const SecondsPerHour: int := 3600
  const SecondsPerDay: int := 86400
  /** Korea Standard Time, UTC+9, in seconds. */
  const KstOffset: int := 9 * 3600
  /** Day number (1 = 0001-01-01) of 1970-01-01. */
  const EpochOrdinal: int := 719163

  predicate IsLeap(y: int) {
    y % 4 == 0 && (y % 100 != 0 || y % 400 == 0)
  }

  function DaysInMonth(y: int, m: int): (n: int)
    requires 1 <= m <= 12
    ensures 28 <= n <= 31
  {
    if m == 2 then (if IsLeap(y) then 29 else 28)
    else if m == 4 || m == 6 || m == 9 || m == 11 then 30
    else 31
  }

  /** The dates `datetime(y, m, d)` accepts; others raise ValueError. */
  predicate ValidDate(y: int, m: int, d: int) {
    1 <= y <= 9999 && 1 <= m <= 12 && 1 <= d <= DaysInMonth(y, m)
  }

  function DaysBeforeYear(y: int): int
    requires y >= 1
  {
    var p := y - 1;
    p * 365 + p / 4 - p / 100 + p / 400
  }

  function DaysBeforeMonth(y: int, m: int): (n: int)
    requires 1 <= m <= 12
    ensures 0 <= n <= 31 * (m - 1)
    decreases m
  {
    if m == 1 then 0 else DaysBeforeMonth(y, m - 1) + DaysInMonth(y, m - 1)
  }

  /** The proleptic Gregorian day number, 0001-01-01 being day 1. */
  function Ordinal(y: int, m: int, d: int): int
    requires ValidDate(y, m, d)
  {
    DaysBeforeYear(y) + DaysBeforeMonth(y, m) + d
  }

  /** Seconds since the epoch of local midnight-based wall time (y-m-d h:mi:s) in KST. */
  function KstTimestamp(y: int, m: int, d: int, h: int, mi: int, s: int): int
    requires ValidDate(y, m, d)
  {
    (Ordinal(y, m, d) - EpochOrdinal) * SecondsPerDay + h * SecondsPerHour + mi * SecondsPerMinute + s - KstOffset
  }

  /** Timestamp of 0001-01-01T00:00:00 and 9999-12-31T23:59:59 as UTC wall time. */
  const MinWall: int := (1 - EpochOrdinal) * 86400
  const MaxWall: int := (3652059 - EpochOrdinal) * 86400 + 86399

  /** A KST datetime exists for this instant: its local wall time lies in years 1..9999. */
  predicate KstInRange(t: int) {
    MinWall <= t + KstOffset <= MaxWall
  }

  /** `dt.replace(second=0, microsecond=0)` on the KST wall clock. */
  function FloorMinute(t: int): (r: int)
    ensures r <= t < r + SecondsPerMinute
    ensures (r + KstOffset) % SecondsPerMinute == 0
  {
    t - t % SecondsPerMinute
  }

  lemma OrdinalOfEpoch()
    ensures Ordinal(1970, 1, 1) == EpochOrdinal
  {
  }

  lemma OrdinalOfMaxDate()
    ensures Ordinal(9999, 12, 31) == 3652059
  {
  }

  /** The next day in the same month is the next day number. */
  lemma OrdinalNextDay(y: int, m: int, d: int)
    requires ValidDate(y, m, d) && d < DaysInMonth(y, m)
    ensures Ordinal(y, m, d + 1) == Ordinal(y, m, d) + 1
  {
  }

  lemma DaysBeforeMonthStep(y: int, m: int)
    requires 1 <= m < 12
    ensures DaysBeforeMonth(y, m + 1) == DaysBeforeMonth(y, m) + DaysInMonth(y, m)
  {
  }

  /** The first of the next month follows the last day of this one. */
  lemma OrdinalNextMonth(y: int, m: int)
    requires ValidDate(y, m, 1) && m < 12
    ensures Ordinal(y, m + 1, 1) == Ordinal(y, m, DaysInMonth(y, m)) + 1
  {
    DaysBeforeMonthStep(y, m);
  }

  lemma DaysBeforeMonthTotal(y: int)
    ensures DaysBeforeMonth(y, 12) + 31 == if IsLeap(y) then 366 else 365
  {
  }

  lemma {:induction false} DaysBeforeYearStep(y: int)
    requires y >= 1
    ensures DaysBeforeYear(y + 1) == DaysBeforeYear(y) + (if IsLeap(y) then 366 else 365)
  {
    var p := y - 1;
    assert y / 4 == p / 4 + (if y % 4 == 0 then 1 else 0);
    assert y / 100 == p / 100 + (if y % 100 == 0 then 1 else 0);
    assert y / 400 == p / 400 + (if y % 400 == 0 then 1 else 0);
  }

  /** 1 January follows 31 December of the year before. */
  lemma OrdinalNextYear(y: int)
    requires 1 <= y < 9999
    ensures Ordinal(y + 1, 1, 1) == Ordinal(y, 12, 31) + 1
  {
    DaysBeforeYearStep(y);
    DaysBeforeMonthTotal(y);
  }
}
