/** The monthly aggregation: each filtered row's timestamp is truncated to its
    month, rows are grouped by month, and each group is counted. The series
    lists only months that occur, in ascending order. */
module Monthly {
  import opened Time
  import opened Table

  /** One point of the series: a month and the number of faults in it. */
  datatype MonthCount = MonthCount(month: Month, count: nat)

  /** The reference count: how many rows fall in month `m`. */
  function RowsIn(rows: seq<Record>, m: Month): nat {
    if rows == [] then 0
    else (if MonthOf(rows[0].time) == m then 1 else 0) + RowsIn(rows[1..], m)
  }

  ghost predicate StrictlyAscending(series: seq<MonthCount>) {
    forall i, j :: 0 <= i < j < |series| ==> MonthBefore(series[i].month, series[j].month)
  }

  function Months(series: seq<MonthCount>): seq<Month> {
    seq(|series|, i requires 0 <= i < |series| => series[i].month)
  }

  /** The count the series records for `m`, or 0 when `m` is not in it. */
  function CountFor(series: seq<MonthCount>, m: Month): nat {
    if series == [] then 0
    else if series[0].month == m then series[0].count
    else CountFor(series[1..], m)
  }

  /** The sum of the counts of the series. */
  function Total(series: seq<MonthCount>): nat {
    if series == [] then 0 else series[0].count + Total(series[1..])
  }

  /** Count one more row in month `m`, keeping the months in ascending order. */
  function AddOne(series: seq<MonthCount>, m: Month): seq<MonthCount> {
    if series == [] then [MonthCount(m, 1)]
    else if series[0].month == m then [MonthCount(m, series[0].count + 1)] + series[1..]
    else if MonthBefore(m, series[0].month) then [MonthCount(m, 1)] + series
    else [series[0]] + AddOne(series[1..], m)
  }

  /** The series of fault counts per month (the group-by and count): months
      strictly ascending, every count positive, the lookup of every month equal
      to the number of rows in it, and the counts summing to the row count. */
  function MonthlyCounts(rows: seq<Record>): (series: seq<MonthCount>)
    ensures StrictlyAscending(series)
    ensures forall i :: 0 <= i < |series| ==> series[i].count >= 1
    ensures forall m :: CountFor(series, m) == RowsIn(rows, m)
    ensures Total(series) == |rows|
  {
    if rows == [] then []
    else
      var rest, m := MonthlyCounts(rows[1..]), MonthOf(rows[0].time);
      AddOneAscending(rest, m);
      AddOnePositive(rest, m);
      AddOneTotal(rest, m);
      AddOneCountsAll(rest, m);
      AddOne(rest, m)
  }

  lemma {:induction false} AddOneAscending(series: seq<MonthCount>, m: Month)
    requires StrictlyAscending(series)
    ensures StrictlyAscending(AddOne(series, m))
    ensures forall k :: k in Months(AddOne(series, m)) <==> k == m || k in Months(series)
  {
    if series != [] && series[0].month != m && !MonthBefore(m, series[0].month) {
      var tail := series[1..];
      assert StrictlyAscending(tail);
      AddOneAscending(tail, m);
      var r := AddOne(series, m);
      assert r == [series[0]] + AddOne(tail, m);
      forall k | k in Months(AddOne(tail, m)) ensures MonthBefore(series[0].month, k) {
        if k != m {
          var i :| 0 <= i < |tail| && tail[i].month == k;
          assert series[i + 1] == tail[i];
        }
      }
      forall i, j | 0 <= i < j < |r| ensures MonthBefore(r[i].month, r[j].month) {
        if i == 0 {
          assert r[j].month in Months(AddOne(tail, m)) by {
            assert Months(AddOne(tail, m))[j - 1] == r[j].month;
          }
        } else {
          assert r[i] == AddOne(tail, m)[i - 1] && r[j] == AddOne(tail, m)[j - 1];
        }
      }
      forall k ensures k in Months(r) <==> k == m || k in Months(series) {
        assert Months(r) == [series[0].month] + Months(AddOne(tail, m));
        assert Months(series) == [series[0].month] + Months(tail);
      }
    } else if series != [] && series[0].month == m {
      assert Months(AddOne(series, m)) == Months(series);
      assert Months(series)[0] == m;
    } else if series != [] {
      assert Months(AddOne(series, m)) == [m] + Months(series);
    } else {
      assert Months(AddOne(series, m)) == [m];
    }
  }

  /** A month that is not in the series has count 0. */
  lemma {:induction false} CountForAbsent(series: seq<MonthCount>, m: Month)
    requires m !in Months(series)
    ensures CountFor(series, m) == 0
  {
    if series != [] {
      assert Months(series) == [series[0].month] + Months(series[1..]);
      CountForAbsent(series[1..], m);
    }
  }

  /** In an ascending series, each listed month's count is found by lookup. */
  lemma {:induction false} CountForListed(series: seq<MonthCount>, i: nat)
    requires StrictlyAscending(series) && i < |series|
    ensures CountFor(series, series[i].month) == series[i].count
  {
    if i > 0 {
      assert MonthBefore(series[0].month, series[i].month);
      assert series[1..][i - 1] == series[i];
      CountForListed(series[1..], i - 1);
    }
  }

  /** Adding a row in month `m` raises the count of `m` by one and no other. */
  lemma {:induction false} AddOneCounts(series: seq<MonthCount>, m: Month, k: Month)
    requires StrictlyAscending(series)
    ensures CountFor(AddOne(series, m), k) == CountFor(series, k) + (if k == m then 1 else 0)
  {
    if series != [] && series[0].month != m {
      if MonthBefore(m, series[0].month) {
        if k == m {
          forall i | 0 <= i < |series| ensures series[i].month != m {
            assert i == 0 || MonthBefore(series[0].month, series[i].month);
          }
          CountForAbsent(series, m);
        }
      } else if k != series[0].month {
        AddOneCounts(series[1..], m, k);
      }
    }
  }

  lemma AddOneCountsAll(series: seq<MonthCount>, m: Month)
    requires StrictlyAscending(series)
    ensures forall k :: CountFor(AddOne(series, m), k) == CountFor(series, k) + (if k == m then 1 else 0)
  {
    forall k ensures CountFor(AddOne(series, m), k) == CountFor(series, k) + (if k == m then 1 else 0) {
      AddOneCounts(series, m, k);
    }
  }

  /** Adding a row adds one to the total. */
  lemma {:induction false} AddOneTotal(series: seq<MonthCount>, m: Month)
    ensures Total(AddOne(series, m)) == Total(series) + 1
  {
    if series != [] && series[0].month != m && !MonthBefore(m, series[0].month) {
      AddOneTotal(series[1..], m);
    }
  }

  /** Adding a row keeps every count positive. */
  lemma {:induction false} AddOnePositive(series: seq<MonthCount>, m: Month)
    requires forall i :: 0 <= i < |series| ==> series[i].count >= 1
    ensures forall i :: 0 <= i < |AddOne(series, m)| ==> AddOne(series, m)[i].count >= 1
  {
    if series != [] && series[0].month != m && !MonthBefore(m, series[0].month) {
      AddOnePositive(series[1..], m);
      assert AddOne(series, m) == [series[0]] + AddOne(series[1..], m);
    }
  }

  /** The aggregated series: months strictly ascending, each count positive,
      the lookup of every month equal to the number of rows in that month,
      only months that have rows listed, and the counts summing to the
      number of rows. */
  lemma MonthlyCountsCorrect(rows: seq<Record>)
    ensures StrictlyAscending(MonthlyCounts(rows))
    ensures forall i :: 0 <= i < |MonthlyCounts(rows)| ==> MonthlyCounts(rows)[i].count >= 1
    ensures forall m :: CountFor(MonthlyCounts(rows), m) == RowsIn(rows, m)
    ensures forall m :: m in Months(MonthlyCounts(rows)) <==> RowsIn(rows, m) > 0
    ensures Total(MonthlyCounts(rows)) == |rows|
  {
    var series := MonthlyCounts(rows);
    forall m ensures m in Months(series) <==> RowsIn(rows, m) > 0 {
      if m in Months(series) {
        var i :| 0 <= i < |series| && series[i].month == m;
        CountForListed(series, i);
      } else {
        CountForAbsent(series, m);
      }
    }
  }

  /** Each entry of the series is the number of rows in its month. */
  lemma EntryCounts(rows: seq<Record>, i: nat)
    requires i < |MonthlyCounts(rows)|
    ensures MonthlyCounts(rows)[i].count == RowsIn(rows, MonthlyCounts(rows)[i].month) >= 1
  {
    MonthlyCountsCorrect(rows);
    CountForListed(MonthlyCounts(rows), i);
  }

  /** No rows, no points: the series is empty exactly when the table is. */
  lemma MonthlyCountsEmpty(rows: seq<Record>)
    ensures MonthlyCounts(rows) == [] <==> rows == []
  {
    MonthlyCountsCorrect(rows);
  }

  /** In an ascending series, a month at or before the first listed month is
      absent from the rest, and a month strictly before it is absent altogether. */
  lemma AbsentBeforeHead(series: seq<MonthCount>, m: Month)
    requires StrictlyAscending(series) && series != []
    requires m == series[0].month || MonthBefore(m, series[0].month)
    ensures CountFor(series[1..], m) == 0
    ensures MonthBefore(m, series[0].month) ==> CountFor(series, m) == 0
  {
    forall i | 0 <= i < |series[1..]| ensures series[1..][i].month != m {
      assert MonthBefore(series[0].month, series[i + 1].month);
    }
    CountForAbsent(series[1..], m);
  }

  /** An ascending series of positive counts is determined by its lookups. */
  lemma {:induction false} SeriesDeterminedByCounts(s: seq<MonthCount>, t: seq<MonthCount>)
    requires StrictlyAscending(s) && StrictlyAscending(t)
    requires forall i :: 0 <= i < |s| ==> s[i].count >= 1
    requires forall i :: 0 <= i < |t| ==> t[i].count >= 1
    requires forall m :: CountFor(s, m) == CountFor(t, m)
    ensures s == t
  {
    if s == [] || t == [] {
      if s != [] {
        CountForListed(s, 0);
      }
      if t != [] {
        CountForListed(t, 0);
      }
    } else {
      CountForListed(s, 0);
      CountForListed(t, 0);
      if MonthBefore(s[0].month, t[0].month) {
        AbsentBeforeHead(t, s[0].month);
      } else if MonthBefore(t[0].month, s[0].month) {
        AbsentBeforeHead(s, t[0].month);
      } else {
        assert s[0] == t[0];
        forall m ensures CountFor(s[1..], m) == CountFor(t[1..], m) {
          if m == s[0].month {
            AbsentBeforeHead(s, m);
            AbsentBeforeHead(t, m);
          } else {
            assert CountFor(s, m) == CountFor(t, m);
          }
        }
        SeriesDeterminedByCounts(s[1..], t[1..]);
        assert s == [s[0]] + s[1..] && t == [t[0]] + t[1..];
      }
    }
  }

  /** The series is the only ascending series of positive counts whose
      lookups agree with the per-month row counts. */
  lemma MonthlyCountsUnique(rows: seq<Record>, series: seq<MonthCount>)
    requires StrictlyAscending(series)
    requires forall i :: 0 <= i < |series| ==> series[i].count >= 1
    requires forall m :: CountFor(series, m) == RowsIn(rows, m)
    ensures series == MonthlyCounts(rows)
  {
    MonthlyCountsCorrect(rows);
    SeriesDeterminedByCounts(series, MonthlyCounts(rows));
  }

  /** Faults in January 2024 (two), February 2024 (one) and March 2024 (three)
      give the series (2024-01, 2), (2024-02, 1), (2024-03, 3). */
  lemma ThreeMonthExample(x: Record)
    ensures
      var jan, feb, mar := x.(time := Timestamp(2024, 1, 5, 0)), x.(time := Timestamp(2024, 2, 9, 0)),
        x.(time := Timestamp(2024, 3, 1, 0));
      MonthlyCounts([jan, jan, feb, mar, mar, mar])
        == [MonthCount(Month(2024, 1), 2), MonthCount(Month(2024, 2), 1), MonthCount(Month(2024, 3), 3)]
  {
    var jan, feb, mar := x.(time := Timestamp(2024, 1, 5, 0)), x.(time := Timestamp(2024, 2, 9, 0)),
      x.(time := Timestamp(2024, 3, 1, 0));
    var rows := [jan, jan, feb, mar, mar, mar];
    var j, f, m := Month(2024, 1), Month(2024, 2), Month(2024, 3);
    assert MonthlyCounts(rows[5..]) == [MonthCount(m, 1)];
    assert rows[4..][1..] == rows[5..];
    assert MonthlyCounts(rows[4..]) == [MonthCount(m, 2)];
    assert rows[3..][1..] == rows[4..];
    assert MonthlyCounts(rows[3..]) == [MonthCount(m, 3)];
    assert rows[2..][1..] == rows[3..];
    assert MonthlyCounts(rows[2..]) == [MonthCount(f, 1), MonthCount(m, 3)];
    assert rows[1..][1..] == rows[2..];
    assert MonthlyCounts(rows[1..]) == [MonthCount(j, 1), MonthCount(f, 1), MonthCount(m, 3)];
  }
}
