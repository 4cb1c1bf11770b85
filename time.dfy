/** Timestamps, calendar dates and calendar months, with the chronological
    order that timestamp comparison uses. */
module Time {

  type MonthNumber = m: int | 1 <= m <= 12 witness 1
  type DayNumber = d: int | 1 <= d <= 31 witness 1

  /** Timestamps have nanosecond resolution. */
  const NanosPerDay: int := 86_400_000_000_000
  const NanosPerSecond: int := 1_000_000_000
  type TimeOfDay = t: int | 0 <= t < NanosPerDay

  /** A parsed `event_time`: a calendar day and the nanoseconds elapsed since its midnight. */
  datatype Timestamp = Timestamp(year: int, month: MonthNumber, day: DayNumber, nanos: TimeOfDay)

  /** A calendar date, as a date picker returns it. */
  datatype Date = Date(year: int, month: MonthNumber, day: DayNumber)

  /** A calendar month, the key of the monthly aggregation. */
  datatype Month = Month(year: int, month: MonthNumber)

  /** The timestamp a date converts to: the first instant of that day. */
  function Midnight(d: Date): (t: Timestamp)
    ensures t.nanos == 0 && DateOf(t) == d
  {
    Timestamp(d.year, d.month, d.day, 0)
  }

  /** The calendar day a timestamp falls on. */
  function DateOf(t: Timestamp): Date {
    Date(t.year, t.month, t.day)
  }

  /** A timestamp truncated to its month (the day and time of day are dropped). */
  function MonthOf(t: Timestamp): Month {
    Month(t.year, t.month)
  }

  /** Chronological `a <= b` on timestamps. */
  predicate AtOrBefore(a: Timestamp, b: Timestamp) {
    || a.year < b.year
    || (a.year == b.year && a.month < b.month)
    || (a.year == b.year && a.month == b.month && a.day < b.day)
    || (a.year == b.year && a.month == b.month && a.day == b.day && a.nanos <= b.nanos)
  }

  /** Chronological strict order on dates. */
  predicate DateBefore(a: Date, b: Date) {
    || a.year < b.year
    || (a.year == b.year && a.month < b.month)
    || (a.year == b.year && a.month == b.month && a.day < b.day)
  }

  /** Chronological strict order on months: the order of the aggregated series. */
  predicate MonthBefore(a: Month, b: Month) {
    a.year < b.year || (a.year == b.year && a.month < b.month)
  }

  /** Timestamp comparison is a total order. */
  lemma AtOrBeforeTotalOrder(a: Timestamp, b: Timestamp, c: Timestamp)
    ensures AtOrBefore(a, a)
    ensures AtOrBefore(a, b) && AtOrBefore(b, a) ==> a == b
    ensures AtOrBefore(a, b) && AtOrBefore(b, c) ==> AtOrBefore(a, c)
    ensures AtOrBefore(a, b) || AtOrBefore(b, a)
  {
  }

  /** Month order is a strict total order. */
  lemma MonthBeforeStrictOrder(a: Month, b: Month, c: Month)
    ensures !MonthBefore(a, a)
    ensures MonthBefore(a, b) && MonthBefore(b, c) ==> MonthBefore(a, c)
    ensures a != b ==> MonthBefore(a, b) || MonthBefore(b, a)
  {
  }

  /** Truncating to the month preserves chronological order. */
  lemma MonthOfMonotone(a: Timestamp, b: Timestamp)
    requires AtOrBefore(a, b)
    ensures MonthOf(a) == MonthOf(b) || MonthBefore(MonthOf(a), MonthOf(b))
  {
  }

  /** A timestamp is at or after the midnight of `d` exactly when it falls on `d` or a later day. */
  lemma AfterMidnight(d: Date, t: Timestamp)
    ensures AtOrBefore(Midnight(d), t) <==> !DateBefore(DateOf(t), d)
  {
  }

  /** A timestamp is at or before the midnight of `d` exactly when it falls on an
      earlier day or is that very midnight: the rest of day `d` is after it. */
  lemma BeforeMidnight(d: Date, t: Timestamp)
    ensures AtOrBefore(t, Midnight(d)) <==> DateBefore(DateOf(t), d) || t == Midnight(d)
  {
  }
}
