/** The selectable options of each categorical column: the no-filter sentinel
    followed by the column's distinct values in order of first appearance. */
module FilterOptions {
  import opened Table

  /** The no-filter sentinel. */
  const All: string := "All"

  predicate NoDuplicates(s: seq<string>) {
    forall i, j :: 0 <= i < j < |s| ==> s[i] != s[j]
  }

  /** The position of the first occurrence of `x` in `s`. */
  function FirstIndex(s: seq<string>, x: string): (i: nat)
    requires x in s
    ensures i < |s| && s[i] == x && x !in s[..i]
  {
    if s[0] == x then 0 else 1 + FirstIndex(s[1..], x)
  }

  /** The distinct values of `s`, each at the place where it first appears. */
  function Distinct(s: seq<string>): (d: seq<string>)
    ensures forall x :: x in d <==> x in s
    ensures NoDuplicates(d)
  {
    if s == [] then []
    else
      var d := Distinct(s[..|s| - 1]);
      if s[|s| - 1] in d then d else d + [s[|s| - 1]]
  }

  lemma FirstIndexExtend(s: seq<string>, y: string, x: string)
    requires x in s + [y]
    ensures FirstIndex(s + [y], x) == if x in s then FirstIndex(s, x) else |s|
  {
    var i := FirstIndex(s + [y], x);
    assert (s + [y])[..i] == if i <= |s| then s[..i] else s + [y];
    if x in s {
      var j := FirstIndex(s, x);
      assert (s + [y])[j] == x;
    } else {
      assert i == |s|;
    }
  }

  /** The distinct values are listed in the order of their first occurrence in `s`. */
  lemma {:induction false} DistinctFirstAppearance(s: seq<string>)
    ensures forall i, j :: 0 <= i < j < |Distinct(s)| ==>
      FirstIndex(s, Distinct(s)[i]) < FirstIndex(s, Distinct(s)[j])
  {
    if s != [] {
      var prefix, last := s[..|s| - 1], s[|s| - 1];
      assert s == prefix + [last];
      var d := Distinct(prefix);
      DistinctFirstAppearance(prefix);
      forall x | x in d ensures FirstIndex(s, x) == FirstIndex(prefix, x) < |prefix| {
        FirstIndexExtend(prefix, last, x);
      }
      if last !in d {
        FirstIndexExtend(prefix, last, last);
        assert Distinct(s) == d + [last];
      }
    }
  }

  /** The option list of a column: `All` first, then every observed value once. */
  function OptionList(values: seq<string>): (opts: seq<string>)
    ensures |opts| >= 1 && opts[0] == All
    ensures forall x :: x in opts[1..] <==> x in values
    ensures NoDuplicates(opts[1..])
  {
    [All] + Distinct(values)
  }

  /** The option list keeps the values in the order they first appear in the column. */
  lemma OptionListOrder(values: seq<string>)
    ensures forall i, j :: 1 <= i < j < |OptionList(values)| ==>
      FirstIndex(values, OptionList(values)[i]) < FirstIndex(values, OptionList(values)[j])
  {
    var d := Distinct(values);
    DistinctFirstAppearance(values);
    forall i, j | 1 <= i < j < |OptionList(values)|
      ensures FirstIndex(values, OptionList(values)[i]) < FirstIndex(values, OptionList(values)[j])
    {
      assert OptionList(values)[i] == d[i - 1] && OptionList(values)[j] == d[j - 1];
    }
  }

  /** The values of one column, row by row. */
  function ColumnValues(df: seq<Record>, col: Column): seq<string> {
    seq(|df|, i requires 0 <= i < |df| => Field(df[i], col))
  }

  /** The option list of one column of the table: `All`, then each value of
      the column once, in order of first appearance. */
  function Options(df: seq<Record>, col: Column): (opts: seq<string>)
    ensures |opts| >= 1 && opts[0] == All
    ensures forall x :: x in opts[1..] <==> exists i :: 0 <= i < |df| && Field(df[i], col) == x
    ensures NoDuplicates(opts[1..])
    ensures forall i, j :: 1 <= i < j < |opts| ==>
      opts[i] in ColumnValues(df, col) && opts[j] in ColumnValues(df, col) &&
      FirstIndex(ColumnValues(df, col), opts[i]) < FirstIndex(ColumnValues(df, col), opts[j])
  {
    var column := ColumnValues(df, col);
    assert forall x :: x in column <==> exists i :: 0 <= i < |df| && Field(df[i], col) == x by {
      forall x ensures x in column <==> exists i :: 0 <= i < |df| && Field(df[i], col) == x {
        if exists i :: 0 <= i < |df| && Field(df[i], col) == x {
          var i :| 0 <= i < |df| && Field(df[i], col) == x;
          assert column[i] == x;
        }
      }
    }
    OptionListOrder(column);
    var opts := OptionList(column);
    assert forall i :: 1 <= i < |opts| ==> opts[i] in column by {
      forall i | 1 <= i < |opts| ensures opts[i] in column {
        assert opts[1..][i - 1] == opts[i];
      }
    }
    opts
  }

  /** Device options: `All`, then each device name of the table once. */
  function DeviceOptions(df: seq<Record>): (opts: seq<string>)
    ensures |opts| >= 1 && opts[0] == All
    ensures forall x :: x in opts[1..] <==> exists i :: 0 <= i < |df| && df[i].device == x
    ensures NoDuplicates(opts[1..])
  {
    Options(df, DeviceName)
  }

  /** Vendor options: `All`, then each vendor of the table once. */
  function VendorOptions(df: seq<Record>): (opts: seq<string>)
    ensures |opts| >= 1 && opts[0] == All
    ensures forall x :: x in opts[1..] <==> exists i :: 0 <= i < |df| && df[i].vendor == x
    ensures NoDuplicates(opts[1..])
  {
    Options(df, Vendor)
  }

  /** Role options: `All`, then each role of the table once. */
  function RoleOptions(df: seq<Record>): (opts: seq<string>)
    ensures |opts| >= 1 && opts[0] == All
    ensures forall x :: x in opts[1..] <==> exists i :: 0 <= i < |df| && df[i].role == x
    ensures NoDuplicates(opts[1..])
  {
    Options(df, Role)
  }
}
