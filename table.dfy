/** Fault records and the cleaning step: rows whose `event_time` did not parse
    are dropped, the others keep their order. */
module Table {
  import opened Wrappers
  import opened Time
  import opened Seqs

  /** A row as loaded, after timestamp coercion: `time` is `None` where the
      value could not be read as a timestamp. */
  datatype RawRow = RawRow(device: string, vendor: string, role: string, time: Option<Timestamp>)

  /** A row of the cleaned table: its timestamp is known. */
  datatype Record = Record(device: string, vendor: string, role: string, time: Timestamp)

  /** The categorical columns of a record. */
  datatype Column = DeviceName | Vendor | Role

  /** The value of one categorical column (`df['device_name']` and so on). */
  function Field(x: Record, col: Column): string {
    match col
    case DeviceName => x.device
    case Vendor => x.vendor
    case Role => x.role
  }

  /** The same column of a row as loaded. */
  function RawField(row: RawRow, col: Column): string {
    match col
    case DeviceName => row.device
    case Vendor => row.vendor
    case Role => row.role
  }

  predicate Parsed(row: RawRow) {
    row.time.Some?
  }

  /** The raw row a cleaned record stands for. */
  function Lift(rec: Record): (row: RawRow)
    ensures Parsed(row)
  {
    RawRow(rec.device, rec.vendor, rec.role, Some(rec.time))
  }

  function LiftAll(recs: seq<Record>): seq<RawRow> {
    seq(|recs|, i requires 0 <= i < |recs| => Lift(recs[i]))
  }

  /** Drop every row whose timestamp is missing: there are as many records as
      parsed rows (`CleanSelectsParsed` says which records they are). */
  function Clean(raw: seq<RawRow>): (df: seq<Record>)
    ensures |df| == |Select(raw, Parsed)|
  {
    if raw == [] then []
    else
      var kept := match raw[0].time
        case Some(t) => [Record(raw[0].device, raw[0].vendor, raw[0].role, t)]
        case None => [];
      kept + Clean(raw[1..])
  }

  /** Cleaning is the selection of the parsed rows: read back as raw rows, the
      cleaned table is exactly the parsed rows, in their original order. */
  lemma {:induction false} CleanSelectsParsed(raw: seq<RawRow>)
    ensures LiftAll(Clean(raw)) == Select(raw, Parsed)
  {
    if raw != [] {
      var rest := Clean(raw[1..]);
      CleanSelectsParsed(raw[1..]);
      match raw[0].time
      case Some(t) =>
        var rec := Record(raw[0].device, raw[0].vendor, raw[0].role, t);
        assert Clean(raw) == [rec] + rest;
        assert Lift(rec) == raw[0];
        LiftAllCons(rec, rest);
        assert Select(raw, Parsed) == [raw[0]] + Select(raw[1..], Parsed);
      case None =>
        assert Clean(raw) == rest;
        assert Select(raw, Parsed) == Select(raw[1..], Parsed);
    }
  }

  lemma LiftAllCons(rec: Record, recs: seq<Record>)
    ensures LiftAll([rec] + recs) == [Lift(rec)] + LiftAll(recs)
  {
    assert forall i :: 0 <= i < |recs| ==> ([rec] + recs)[i + 1] == recs[i];
  }

  /** The cleaned table takes its k-th record from the k-th parsed row of the
      input, every parsed row is taken, and no other. */
  lemma CleanKeepsExactlyParsed(raw: seq<RawRow>)
    ensures Embeds(LiftAll(Clean(raw)), raw, SelectIndices(raw, Parsed))
    ensures forall i: nat :: i in SelectIndices(raw, Parsed) <==> i < |raw| && raw[i].time.Some?
  {
    CleanSelectsParsed(raw);
    SelectEmbeds(raw, Parsed);
    SelectIndicesExact(raw, Parsed);
  }

  /** Rows that failed to parse contribute nothing: cleaning an input from which
      they were removed beforehand gives the same table. */
  lemma {:induction false} CleanIgnoresUnparsed(raw: seq<RawRow>)
    ensures Clean(Select(raw, Parsed)) == Clean(raw)
  {
    if raw != [] {
      CleanIgnoresUnparsed(raw[1..]);
      if Parsed(raw[0]) {
        assert Select(raw, Parsed) == [raw[0]] + Select(raw[1..], Parsed);
        assert (Select(raw, Parsed))[1..] == Select(raw[1..], Parsed);
      } else {
        assert Select(raw, Parsed) == Select(raw[1..], Parsed);
      }
    }
  }

  /** An input with no parsed row cleans to the empty table. */
  lemma {:induction false} CleanNothingParsed(raw: seq<RawRow>)
    requires forall i :: 0 <= i < |raw| ==> raw[i].time.None?
    ensures Clean(raw) == []
  {
    if raw != [] {
      CleanNothingParsed(raw[1..]);
    }
  }
}
