/**
 * Dated rows and the column operations the analytics share: sums of a column,
 * `sort_values('date')` and `clip(lower=0)`. Calendar days are integer day numbers.
 */
module Frames {
  import opened Wrappers

  /** One row of a frame: a day number and the value on that day. */
  datatype Row<V> = Row(date: int, value: V)

  function Sum(s: seq<real>): real
  {
    if s == [] then 0.0 else s[0] + Sum(s[1..])
  }

  lemma {:induction false} SumNonNeg(s: seq<real>)
    requires forall i :: 0 <= i < |s| ==> s[i] >= 0.0
    ensures Sum(s) >= 0.0
  {
    if s != [] {
      SumNonNeg(s[1..]);
    }
  }

  /** A non-negative column with zero sum is all zeros. */
  lemma {:induction false} SumZeroAllZero(s: seq<real>)
    requires forall i :: 0 <= i < |s| ==> s[i] >= 0.0
    requires Sum(s) <= 0.0
    ensures forall i :: 0 <= i < |s| ==> s[i] == 0.0
  {
    if s != [] {
      SumNonNeg(s[1..]);
      SumZeroAllZero(s[1..]);
      forall i | 0 <= i < |s| ensures s[i] == 0.0 {
        if i > 0 { assert s[i] == s[1..][i - 1]; }
      }
    }
  }

  lemma DivideAdd(a: real, b: real, c: real)
    requires c != 0.0
    ensures a / c + b / c == (a + b) / c
  {
  }

  /** Dividing every entry by `c` divides the sum by `c`. */
  lemma {:induction false} SumDivide(s: seq<real>, t: seq<real>, c: real)
    requires c != 0.0
    requires |t| == |s|
    requires forall i :: 0 <= i < |s| ==> t[i] == s[i] / c
    ensures Sum(t) == Sum(s) / c
  {
    if s != [] {
      SumDivide(s[1..], t[1..], c);
      assert t[0] == s[0] / c;
      DivideAdd(s[0], Sum(s[1..]), c);
    }
  }

  /** If every entry exceeds `m`, the sum exceeds |s| times `m`. */
  lemma {:induction false} SumAbove(s: seq<real>, m: real)
    requires s != []
    requires forall i :: 0 <= i < |s| ==> s[i] > m
    ensures Sum(s) > (|s| as real) * m
  {
    if |s| > 1 {
      SumAbove(s[1..], m);
    }
  }

  /** If every entry is below `m`, the sum is below |s| times `m`. */
  lemma {:induction false} SumBelow(s: seq<real>, m: real)
    requires s != []
    requires forall i :: 0 <= i < |s| ==> s[i] < m
    ensures Sum(s) < (|s| as real) * m
  {
    if |s| > 1 {
      SumBelow(s[1..], m);
    }
  }

  /** The mean of a non-empty column lies between its smallest and largest entry. */
  lemma MeanBetween(s: seq<real>)
    requires s != []
    ensures exists i :: 0 <= i < |s| && s[i] <= Sum(s) / (|s| as real)
    ensures exists i :: 0 <= i < |s| && s[i] >= Sum(s) / (|s| as real)
  {
    var n := |s| as real;
    var m := Sum(s) / n;
    assert m * n == Sum(s);
    if forall i :: 0 <= i < |s| ==> s[i] > m {
      SumAbove(s, m);
      assert false;
    }
    if forall i :: 0 <= i < |s| ==> s[i] < m {
      SumBelow(s, m);
      assert false;
    }
  }

  /** Every present case count is non-negative. */
  predicate CasesNonNeg(rows: seq<Row<Option<real>>>)
  {
    forall i :: 0 <= i < |rows| && rows[i].value.Some? ==> rows[i].value.value >= 0.0
  }

  // ----- sort_values('date') -----

  predicate SortedByDate<V(!new)>(rows: seq<Row<V>>)
  {
    forall i, j :: 0 <= i < j < |rows| ==> rows[i].date <= rows[j].date
  }

  predicate StrictlyIncreasingDates<V(!new)>(rows: seq<Row<V>>)
  {
    forall i, j :: 0 <= i < j < |rows| ==> rows[i].date < rows[j].date
  }

  /** No two rows share a day. */
  predicate UniqueDates<V(!new)>(rows: seq<Row<V>>)
  {
    forall i, j :: 0 <= i < j < |rows| ==> rows[i].date != rows[j].date
  }

  ghost function DateSet<V(!new)>(rows: seq<Row<V>>): set<int>
  {
    set i | 0 <= i < |rows| :: rows[i].date
  }

  /** A row dated no later than every row of a sorted list can go in front of it. */
  lemma PrependSorted<V(!new)>(y: Row<V>, t: seq<Row<V>>)
    requires SortedByDate(t)
    requires forall e :: e in t ==> y.date <= e.date
    ensures SortedByDate([y] + t)
  {
    var u := [y] + t;
    forall i, j | 0 <= i < j < |u| ensures u[i].date <= u[j].date {
      assert u[j] == t[j - 1] && u[j] in t;
      if i > 0 { assert u[i] == t[i - 1]; }
    }
  }

  /** Every row of a sorted list is dated no earlier than its first row. */
  lemma FirstIsEarliest<V(!new)>(s: seq<Row<V>>)
    requires SortedByDate(s) && s != []
    ensures forall e :: e in s ==> s[0].date <= e.date
  {
    forall e | e in s ensures s[0].date <= e.date {
      var k :| 0 <= k < |s| && s[k] == e;
    }
  }

  /** Places `x` before the first row of `s` dated on or after it. */
  function Insert<V(!new)>(x: Row<V>, s: seq<Row<V>>): (r: seq<Row<V>>)
    requires SortedByDate(s)
    ensures SortedByDate(r)
    ensures multiset(r) == multiset(s) + multiset{x}
    ensures |r| == |s| + 1
    ensures forall e :: e in r <==> e == x || e in s
  {
    if s == [] then [x]
    else
      FirstIsEarliest(s);
      if x.date <= s[0].date then
        PrependSorted(x, s);
        [x] + s
      else
        var t := s[1..];
        assert s == [s[0]] + t;
        var rest := Insert(x, t);
        PrependSorted(s[0], rest);
        [s[0]] + rest
  }

  /** The rows reordered by ascending date; rows with equal dates keep their input order. */
  function SortByDate<V(!new)>(rows: seq<Row<V>>): (r: seq<Row<V>>)
    ensures SortedByDate(r)
    ensures multiset(r) == multiset(rows)
    ensures |r| == |rows|
    ensures forall e :: e in r <==> e in rows
  {
    if rows == [] then []
    else
      assert rows == [rows[0]] + rows[1..];
      Insert(rows[0], SortByDate(rows[1..]))
  }

  /** A row dated before every row of a strictly increasing list can go in front of it. */
  lemma PrependStrict<V(!new)>(y: Row<V>, t: seq<Row<V>>)
    requires StrictlyIncreasingDates(t)
    requires forall e :: e in t ==> y.date < e.date
    ensures StrictlyIncreasingDates([y] + t)
  {
    var u := [y] + t;
    forall i, j | 0 <= i < j < |u| ensures u[i].date < u[j].date {
      assert u[j] == t[j - 1] && u[j] in t;
      if i > 0 { assert u[i] == t[i - 1]; }
    }
  }

  lemma {:induction false} InsertStrict<V(!new)>(x: Row<V>, s: seq<Row<V>>)
    requires StrictlyIncreasingDates(s)
    requires forall e :: e in s ==> e.date != x.date
    ensures StrictlyIncreasingDates(Insert(x, s))
  {
    if s == [] {
    } else if x.date <= s[0].date {
      FirstIsEarliest(s);
      assert s[0] in s;
      PrependStrict(x, s);
    } else {
      var t := s[1..];
      assert s == [s[0]] + t;
      InsertStrict(x, t);
      var rest := Insert(x, t);
      forall e | e in rest ensures s[0].date < e.date {
        if e != x {
          var k :| 0 <= k < |t| && t[k] == e;
          assert s[k + 1] == e;
        }
      }
      PrependStrict(s[0], rest);
    }
  }

  /** The last row of a date-sorted reordering of `rows` is dated no earlier than any row. */
  lemma SortedLast<V(!new)>(s: seq<Row<V>>, rows: seq<Row<V>>)
    requires SortedByDate(s) && s != []
    requires forall e :: e in s <==> e in rows
    ensures s[|s| - 1] in rows
    ensures forall e :: e in rows ==> e.date <= s[|s| - 1].date
  {
    assert s[|s| - 1] in s;
    forall e | e in rows ensures e.date <= s[|s| - 1].date {
      var k :| 0 <= k < |s| && s[k] == e;
    }
  }

  /** The value column, `df['value'].values`. */
  function Values<V>(rows: seq<Row<V>>): (vs: seq<V>)
    ensures |vs| == |rows|
    ensures forall i :: 0 <= i < |rows| ==> vs[i] == rows[i].value
  {
    seq(|rows|, i requires 0 <= i < |rows| => rows[i].value)
  }

  /** Sorting rows whose dates are all distinct orders them strictly by date. */
  lemma {:induction false} SortStrict<V(!new)>(rows: seq<Row<V>>)
    requires UniqueDates(rows)
    ensures StrictlyIncreasingDates(SortByDate(rows))
  {
    if rows != [] {
      var tail := rows[1..];
      SortStrict(tail);
      forall e | e in SortByDate(tail) ensures e.date != rows[0].date {
        var k :| 0 <= k < |tail| && tail[k] == e;
        assert rows[k + 1] == e;
      }
      InsertStrict(rows[0], SortByDate(tail));
    }
  }

  // ----- clip(lower=0) -----

  /** `max(0, x)`. */
  function Max0(x: real): (r: real)
    ensures r >= 0.0
    ensures x >= 0.0 ==> r == x
    ensures x < 0.0 ==> r == 0.0
  {
    if x < 0.0 then 0.0 else x
  }

  function ClipNonNeg(s: seq<real>): (r: seq<real>)
    ensures |r| == |s|
    ensures forall i :: 0 <= i < |s| ==> r[i] >= 0.0
    ensures forall i :: 0 <= i < |s| ==> r[i] == s[i] || (s[i] < 0.0 && r[i] == 0.0)
  {
    seq(|s|, i requires 0 <= i < |s| => Max0(s[i]))
  }

  /** Clipping keeps a pointwise ordering between two columns. */
  lemma ClipMonotone(a: seq<real>, b: seq<real>)
    requires |a| == |b|
    requires forall i :: 0 <= i < |a| ==> a[i] <= b[i]
    ensures forall i :: 0 <= i < |a| ==> ClipNonNeg(a)[i] <= ClipNonNeg(b)[i]
  {
  }
}
