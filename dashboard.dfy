/** One run of the dashboard script, from the loaded rows and the user's
    current choices to what is displayed: the three option lists and the
    monthly fault series. */
module Dashboard {
  import opened Wrappers
  import opened Seqs
  import opened Table
  import opened FilterOptions
  import opened FilterEngine
  import opened Monthly

  /** What one run puts on the page. */
  datatype View = View(devices: seq<string>, vendors: seq<string>, roles: seq<string>, faults: seq<MonthCount>)

  /** Recompute everything from scratch: nothing is shown when the load gave
      no rows; otherwise clean, list the options, filter and aggregate. */
  function Recompute(raw: seq<RawRow>, c: Criteria): (v: Option<View>)
    ensures v.None? <==> raw == []
  {
    if raw == [] then None
    else
      var df := Clean(raw);
      var filtered := FilterRecords(df, c);
      Some(View(DeviceOptions(df), VendorOptions(df), RoleOptions(df), MonthlyCounts(filtered)))
  }

  /** A non-empty load in which no timestamp parsed shows only the `All`
      options and an empty series. */
  lemma NothingParsedShowsEmpty(raw: seq<RawRow>, c: Criteria)
    requires raw != [] && forall i :: 0 <= i < |raw| ==> raw[i].time.None?
    ensures Recompute(raw, c) == Some(View([All], [All], [All], []))
  {
    CleanNothingParsed(raw);
    assert FilterRecords([], c) == [] by {
      FilterIsConjunction([], c);
    }
    assert forall col :: ColumnValues([], col) == [];
    assert Distinct([]) == [];
    assert DeviceOptions([]) == [All] && VendorOptions([]) == [All] && RoleOptions([]) == [All];
    assert MonthlyCounts([]) == [];
  }

  /** The view depends on the loaded rows only through the cleaned table. */
  lemma RecomputeThroughClean(a: seq<RawRow>, b: seq<RawRow>, c: Criteria)
    requires a != [] && b != [] && Clean(a) == Clean(b)
    ensures Recompute(a, c) == Recompute(b, c)
  {
  }

  /** Rows whose timestamp did not parse change nothing on the page: removing
      them up front gives the same view, as long as some row remains. */
  lemma UnparsedRowsIgnored(raw: seq<RawRow>, c: Criteria, i: nat)
    requires i < |raw| && raw[i].time.Some?
    ensures Recompute(Select(raw, Parsed), c) == Recompute(raw, c)
  {
    SelectNonEmpty(raw, Parsed, i);
    CleanIgnoresUnparsed(raw);
    RecomputeThroughClean(Select(raw, Parsed), raw, c);
  }

  /** The values of a column in the cleaned table are those of the parsed rows. */
  lemma CleanColumn(raw: seq<RawRow>, col: Column, name: string)
    ensures (exists k :: 0 <= k < |Clean(raw)| && Field(Clean(raw)[k], col) == name) <==>
      exists i :: 0 <= i < |raw| && raw[i].time.Some? && RawField(raw[i], col) == name
  {
    var df := Clean(raw);
    CleanSelectsParsed(raw);
    if exists k :: 0 <= k < |df| && Field(df[k], col) == name {
      var k :| 0 <= k < |df| && Field(df[k], col) == name;
      assert LiftAll(df)[k] in Select(raw, Parsed);
      var i :| 0 <= i < |raw| && raw[i] == LiftAll(df)[k];
      assert raw[i].time.Some? && RawField(raw[i], col) == name;
    }
    if exists i :: 0 <= i < |raw| && raw[i].time.Some? && RawField(raw[i], col) == name {
      var i :| 0 <= i < |raw| && raw[i].time.Some? && RawField(raw[i], col) == name;
      assert raw[i] in Select(raw, Parsed);
      var k :| 0 <= k < |LiftAll(df)| && LiftAll(df)[k] == raw[i];
      assert Field(df[k], col) == name;
    }
  }

  /** The option list a view shows for one column. */
  function OptionsShown(v: View, col: Column): seq<string> {
    match col
    case DeviceName => v.devices
    case Vendor => v.vendors
    case Role => v.roles
  }

  /** A value is offered as an option of a column exactly when some row with
      a parsed timestamp carries it in that column. */
  lemma OptionsFromParsedRows(raw: seq<RawRow>, c: Criteria, col: Column, name: string)
    requires raw != []
    ensures name in OptionsShown(Recompute(raw, c).value, col)[1..] <==>
      exists i :: 0 <= i < |raw| && raw[i].time.Some? && RawField(raw[i], col) == name
  {
    assert OptionsShown(Recompute(raw, c).value, col) == Options(Clean(raw), col);
    CleanColumn(raw, col, name);
  }

  /** The displayed series counts, per month, the cleaned rows that match the
      criteria; its counts sum to the number of matching rows, which is at
      most the number of rows whose timestamp parsed. */
  lemma FaultsCountMatchingRows(raw: seq<RawRow>, c: Criteria, m: Time.Month)
    requires raw != []
    ensures CountFor(Recompute(raw, c).value.faults, m)
         == RowsIn(Select(Clean(raw), (x: Record) => Matches(c, x)), m)
    ensures Total(Recompute(raw, c).value.faults) == |FilterRecords(Clean(raw), c)|
    ensures |FilterRecords(Clean(raw), c)| <= |Select(raw, Parsed)|
  {
    var df := Clean(raw);
    FilterIsConjunction(df, c);
    MonthlyCountsCorrect(FilterRecords(df, c));
    CleanSelectsParsed(raw);
    assert |LiftAll(df)| == |df|;
  }
}
