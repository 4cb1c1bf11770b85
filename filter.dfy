/** The filter engine: three optional exact-match filters applied one after
    another, then a date-range filter that applies only to a two-date range. */
module FilterEngine {
  import opened Time
  import opened Seqs
  import opened Table
  import opened FilterOptions

  /** The user's choices: a selected value or `All` for each categorical
      column, and the dates picked in the range picker (zero, one or two). */
  datatype Criteria = Criteria(device: string, vendor: string, role: string, dates: seq<Date>)

  /** The date filter's test. Both bounds are the midnight timestamps of the
      picked dates, so the end bound is the first instant of the end day: a
      timestamp passes when it falls on the start day or later, and before
      the end day or exactly at its midnight. */
  function InRange(t: Timestamp, start: Date, end: Date): (inside: bool)
    ensures inside <==> !DateBefore(DateOf(t), start) && (DateBefore(DateOf(t), end) || t == Midnight(end))
  {
    AfterMidnight(start, t);
    BeforeMidnight(end, t);
    AtOrBefore(Midnight(start), t) && AtOrBefore(t, Midnight(end))
  }

  /** One categorical step: keep the rows whose column equals the selection,
      unless the selection is `All`. */
  function ByColumn(rows: seq<Record>, col: Column, selected: string): (r: seq<Record>)
    ensures |r| <= |rows|
    ensures forall x :: x in r <==> x in rows && (selected != All ==> Field(x, col) == selected)
  {
    if selected != All then Select(rows, (x: Record) => Field(x, col) == selected) else rows
  }

  /** The date step: only a range of exactly two dates filters anything. */
  function ByDates(rows: seq<Record>, dates: seq<Date>): (r: seq<Record>)
    ensures |r| <= |rows|
    ensures forall x :: x in r <==> x in rows && (|dates| == 2 ==> InRange(x.time, dates[0], dates[1]))
  {
    if |dates| == 2 then
      var start, end := dates[0], dates[1];
      Select(rows, (x: Record) => InRange(x.time, start, end))
    else
      rows
  }

  /** The filtered table: the cleaned table narrowed by device, vendor and
      role in turn, then by the date range. It never grows, and holds exactly
      the records of the cleaned table that meet every active criterion. */
  function FilterRecords(df: seq<Record>, c: Criteria): (r: seq<Record>)
    ensures |r| <= |df|
    ensures forall x :: x in r <==> x in df && Matches(c, x)
  {
    var byDevice := ByColumn(df, DeviceName, c.device);
    var byVendor := ByColumn(byDevice, Vendor, c.vendor);
    var byRole := ByColumn(byVendor, Role, c.role);
    ByDates(byRole, c.dates)
  }

  /** The three categorical criteria, each holding unless its selection is `All`. */
  predicate MatchesColumns(c: Criteria, x: Record) {
    && (c.device != All ==> x.device == c.device)
    && (c.vendor != All ==> x.vendor == c.vendor)
    && (c.role != All ==> x.role == c.role)
  }

  /** What it is for a record to satisfy every active criterion at once. */
  predicate Matches(c: Criteria, x: Record) {
    MatchesColumns(c, x) && (|c.dates| == 2 ==> InRange(x.time, c.dates[0], c.dates[1]))
  }

  lemma ByColumnAsSelect(rows: seq<Record>, col: Column, selected: string, guarded: Record -> bool)
    requires forall x :: guarded(x) == (selected != All ==> Field(x, col) == selected)
    ensures ByColumn(rows, col, selected) == Select(rows, guarded)
  {
    if selected != All {
      SelectExt(rows, (x: Record) => Field(x, col) == selected, guarded);
    } else {
      SelectKeepsAll(rows, guarded);
    }
  }

  lemma ByDatesAsSelect(rows: seq<Record>, dates: seq<Date>, guarded: Record -> bool)
    requires forall x :: guarded(x) == (|dates| == 2 ==> InRange(x.time, dates[0], dates[1]))
    ensures ByDates(rows, dates) == Select(rows, guarded)
  {
    if |dates| == 2 {
      var start, end := dates[0], dates[1];
      SelectExt(rows, (x: Record) => InRange(x.time, start, end), guarded);
    } else {
      SelectKeepsAll(rows, guarded);
    }
  }

  lemma ColumnsAreConjunction(df: seq<Record>, c: Criteria)
    ensures ByColumn(ByColumn(ByColumn(df, DeviceName, c.device), Vendor, c.vendor), Role, c.role)
         == Select(df, (x: Record) => MatchesColumns(c, x))
  {
    var a1 := (x: Record) => c.device != All ==> x.device == c.device;
    var a2 := (x: Record) => c.vendor != All ==> x.vendor == c.vendor;
    var a3 := (x: Record) => c.role != All ==> x.role == c.role;
    var a12 := (x: Record) => a1(x) && a2(x);
    var byDevice := ByColumn(df, DeviceName, c.device);
    var byVendor := ByColumn(byDevice, Vendor, c.vendor);
    assert byVendor == Select(df, a12) by {
      ByColumnAsSelect(df, DeviceName, c.device, a1);
      ByColumnAsSelect(byDevice, Vendor, c.vendor, a2);
      SelectSelect(df, a1, a2, a12);
    }
    ByColumnAsSelect(byVendor, Role, c.role, a3);
    SelectSelect(df, a12, a3, (x: Record) => MatchesColumns(c, x));
  }

  /** The cascade of filters is a single selection by the conjunction of the
      active criteria. */
  lemma FilterIsConjunction(df: seq<Record>, c: Criteria)
    ensures FilterRecords(df, c) == Select(df, (x: Record) => Matches(c, x))
  {
    var byRole := ByColumn(ByColumn(ByColumn(df, DeviceName, c.device), Vendor, c.vendor), Role, c.role);
    var inRange := (x: Record) => |c.dates| == 2 ==> InRange(x.time, c.dates[0], c.dates[1]);
    ColumnsAreConjunction(df, c);
    ByDatesAsSelect(byRole, c.dates, inRange);
    SelectSelect(df, (x: Record) => MatchesColumns(c, x), inRange, (x: Record) => Matches(c, x));
  }

  /** The filtered table is the subsequence of the cleaned table made of the
      matching rows: every matching position is kept, no other, in order. */
  lemma FilterKeepsExactlyMatching(df: seq<Record>, c: Criteria)
    ensures Embeds(FilterRecords(df, c), df, SelectIndices(df, (x: Record) => Matches(c, x)))
    ensures forall i: nat :: i in SelectIndices(df, (x: Record) => Matches(c, x)) <==>
      i < |df| && Matches(c, df[i])
  {
    FilterIsConjunction(df, c);
    SelectEmbeds(df, (x: Record) => Matches(c, x));
    SelectIndicesExact(df, (x: Record) => Matches(c, x));
  }

  /** A record is in the filtered table exactly when it is in the cleaned
      table and equals every selection that is not `All` (and lies in the
      range when two dates are picked). */
  lemma FilterMembership(df: seq<Record>, c: Criteria, x: Record)
    ensures x in FilterRecords(df, c) <==>
      && x in df
      && (c.device != All ==> x.device == c.device)
      && (c.vendor != All ==> x.vendor == c.vendor)
      && (c.role != All ==> x.role == c.role)
      && (|c.dates| == 2 ==> InRange(x.time, c.dates[0], c.dates[1]))
  {
    FilterIsConjunction(df, c);
  }

  /** With every selection `All` and no two-date range, nothing is filtered out. */
  lemma FilterAllKeepsEverything(df: seq<Record>, c: Criteria)
    requires c.device == All && c.vendor == All && c.role == All && |c.dates| != 2
    ensures FilterRecords(df, c) == df
  {
    FilterIsConjunction(df, c);
    SelectKeepsAll(df, (x: Record) => Matches(c, x));
  }

  /** Filtering an already filtered table with the same criteria changes nothing. */
  lemma FilterIdempotent(df: seq<Record>, c: Criteria)
    ensures FilterRecords(FilterRecords(df, c), c) == FilterRecords(df, c)
  {
    FilterIsConjunction(df, c);
    FilterIsConjunction(FilterRecords(df, c), c);
    SelectIdempotent(df, (x: Record) => Matches(c, x));
  }

  /** A range of zero, one or three or more dates filters nothing: the result
      does not depend on which dates were picked. */
  lemma DateFilterNeedsTwoDates(df: seq<Record>, c: Criteria, dates: seq<Date>)
    requires |c.dates| != 2 && |dates| != 2
    ensures FilterRecords(df, c) == FilterRecords(df, c.(dates := dates))
    ensures FilterRecords(df, c) == Select(df, (x: Record) => MatchesColumns(c, x))
  {
    ColumnsAreConjunction(df, c);
  }

  /** The value a criterion selects for a column. */
  function Selection(c: Criteria, col: Column): string {
    match col
    case DeviceName => c.device
    case Vendor => c.vendor
    case Role => c.role
  }

  /** A record with one column replaced. */
  function WithField(x: Record, col: Column, v: string): (y: Record)
    ensures Field(y, col) == v
  {
    match col
    case DeviceName => x.(device := v)
    case Vendor => x.(vendor := v)
    case Role => x.(role := v)
  }

  /** A column whose selection is `All` does not constrain the result: two
      rows differing only in that column are both kept or both dropped. */
  lemma AllLeavesColumnFree(df: seq<Record>, c: Criteria, col: Column, x: Record, v: string)
    requires Selection(c, col) == All
    requires x in df && WithField(x, col, v) in df
    ensures x in FilterRecords(df, c) <==> WithField(x, col, v) in FilterRecords(df, c)
  {
    FilterIsConjunction(df, c);
    assert Matches(c, x) == Matches(c, WithField(x, col, v));
  }

  /** With two dates, every kept row lies from the start date's midnight up to
      the end date's midnight inclusive: on a day from the start day to the
      day before the end day, or at the very first instant of the end day. */
  lemma KeptRowsWithinRange(df: seq<Record>, c: Criteria, x: Record)
    requires |c.dates| == 2 && x in FilterRecords(df, c)
    ensures AtOrBefore(Midnight(c.dates[0]), x.time) && AtOrBefore(x.time, Midnight(c.dates[1]))
    ensures !DateBefore(DateOf(x.time), c.dates[0])
    ensures DateBefore(DateOf(x.time), c.dates[1]) || x.time == Midnight(c.dates[1])
  {
    FilterMembership(df, c, x);
    AfterMidnight(c.dates[0], x.time);
    BeforeMidnight(c.dates[1], x.time);
  }

  /** Both bound timestamps are inside the range: a matching row stamped at
      the start date's midnight or at the end date's midnight is kept. */
  lemma RangeBoundsIncluded(df: seq<Record>, c: Criteria, x: Record)
    requires |c.dates| == 2 && !DateBefore(c.dates[1], c.dates[0])
    requires x in df && MatchesColumns(c, x)
    requires x.time == Midnight(c.dates[0]) || x.time == Midnight(c.dates[1])
    ensures x in FilterRecords(df, c)
  {
    FilterMembership(df, c, x);
  }

  /** The end bound is midnight, so a row later on the end day is dropped. */
  lemma LaterOnEndDayExcluded(df: seq<Record>, c: Criteria, x: Record)
    requires |c.dates| == 2 && DateOf(x.time) == c.dates[1] && x.time.nanos > 0
    ensures x !in FilterRecords(df, c)
  {
    FilterMembership(df, c, x);
  }

  /** A range whose end date is before its start date keeps nothing. */
  lemma ReversedRangeKeepsNothing(df: seq<Record>, c: Criteria)
    requires |c.dates| == 2 && DateBefore(c.dates[1], c.dates[0])
    ensures FilterRecords(df, c) == []
  {
    var r := FilterRecords(df, c);
    if r != [] {
      KeptRowsWithinRange(df, c, r[0]);
      AtOrBeforeTotalOrder(Midnight(c.dates[0]), r[0].time, Midnight(c.dates[1]));
      AfterMidnight(c.dates[0], Midnight(c.dates[1]));
      assert false;
    }
  }

  /** The picked range 2024-01-15 to 2024-03-10: a fault at 2024-01-15T00:00:00
      is kept, while faults at 2024-03-10T23:59:59 and 2024-03-11T00:00:01 are
      dropped (the first of these two because the end bound is midnight). */
  lemma RangeExample(x: Record)
    ensures
      var c := Criteria(All, All, All, [Date(2024, 1, 15), Date(2024, 3, 10)]);
      var first := x.(time := Timestamp(2024, 1, 15, 0));
      var lateEndDay := x.(time := Timestamp(2024, 3, 10, 86_399 * NanosPerSecond));
      var nextDay := x.(time := Timestamp(2024, 3, 11, 1 * NanosPerSecond));
      var df := [first, lateEndDay, nextDay];
      FilterRecords(df, c) == [first]
  {
    var c := Criteria(All, All, All, [Date(2024, 1, 15), Date(2024, 3, 10)]);
    var first := x.(time := Timestamp(2024, 1, 15, 0));
    var lateEndDay := x.(time := Timestamp(2024, 3, 10, 86_399 * NanosPerSecond));
    var nextDay := x.(time := Timestamp(2024, 3, 11, 1 * NanosPerSecond));
    var df := [first, lateEndDay, nextDay];
    FilterIsConjunction(df, c);
    var m := (y: Record) => Matches(c, y);
    assert Matches(c, first) && !Matches(c, lateEndDay) && !Matches(c, nextDay);
    assert df[1..] == [lateEndDay, nextDay] && df[1..][1..] == [nextDay];
    assert Select(df[1..][1..], m) == [] by {
      assert Select(df[1..][1..], m) == [] + Select(df[1..][1..][1..], m);
    }
    assert df[1..][1..][1..] == [];
  }
}
