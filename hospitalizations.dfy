/**
 * `get_hospitalization_data` after the CSV download: the rows of one country (compared
 * case-insensitively) are split into daily hospital and ICU occupancy, outer-joined on the
 * date, sorted by date, and a side missing on a date (or NaN) is filled with 0.
 */
module Hospitalizations {
  import opened Wrappers
  import opened Frames

  /** One row of the downloaded table: `entity`, `date`, `indicator`, `value`. */
  datatype OwidRow = OwidRow(entity: string, date: int, indicator: string, value: Option<real>)

  /** One row of the result: `date`, `hospitalizations`, `icu`. */
  datatype Record = Record(date: int, hospitalizations: real, icu: real)

  const HospitalIndicator: string := "Daily hospital occupancy"
  const IcuIndicator: string := "Daily ICU occupancy"

  /** `str.lower()` on one character; only the ASCII letters A..Z change. */
  function LowerChar(c: char): char
  {
    if 'A' <= c <= 'Z' then (c as int - 'A' as int + 'a' as int) as char else c
  }

  function Lower(s: string): (r: string)
    ensures |r| == |s|
    ensures forall i :: 0 <= i < |s| ==> r[i] == LowerChar(s[i])
  {
    seq(|s|, i requires 0 <= i < |s| => LowerChar(s[i]))
  }

  predicate Matches(row: OwidRow, country: string)
  {
    Lower(row.entity) == Lower(country)
  }

  /** `df[df['entity'].str.lower() == country.lower()]`. */
  function CountryRows(rows: seq<OwidRow>, country: string): (r: seq<OwidRow>)
    ensures forall x :: x in r <==> x in rows && Matches(x, country)
  {
    if rows == [] then []
    else
      var rest := CountryRows(rows[1..], country);
      assert rows == [rows[0]] + rows[1..];
      if Matches(rows[0], country) then [rows[0]] + rest else rest
  }

  /** `country_df[country_df['indicator'] == name]`. */
  function IndicatorRows(rows: seq<OwidRow>, name: string): (r: seq<OwidRow>)
    ensures forall x :: x in r <==> x in rows && x.indicator == name
  {
    if rows == [] then []
    else
      var rest := IndicatorRows(rows[1..], name);
      assert rows == [rows[0]] + rows[1..];
      if rows[0].indicator == name then [rows[0]] + rest else rest
  }

  /** `[['date', 'value']]`. */
  function DateValue(rows: seq<OwidRow>): (r: seq<Row<Option<real>>>)
    ensures |r| == |rows|
    ensures forall i :: 0 <= i < |rows| ==> r[i] == Row(rows[i].date, rows[i].value)
  {
    seq(|rows|, i requires 0 <= i < |rows| => Row(rows[i].date, rows[i].value))
  }

  /** `hospitalizations[['date', 'value']]`: the `(date, value)` of every hospital row of the country. */
  function HospitalRows(rows: seq<OwidRow>, country: string): (r: seq<Row<Option<real>>>)
    ensures forall e :: e in r <==> exists x :: From(x, rows, country, HospitalIndicator) && e == Row(x.date, x.value)
  {
    IndicatorColumn(rows, country, HospitalIndicator);
    DateValue(IndicatorRows(CountryRows(rows, country), HospitalIndicator))
  }

  /** `icu[['date', 'value']]`: the `(date, value)` of every ICU row of the country. */
  function IcuRows(rows: seq<OwidRow>, country: string): (r: seq<Row<Option<real>>>)
    ensures forall e :: e in r <==> exists x :: From(x, rows, country, IcuIndicator) && e == Row(x.date, x.value)
  {
    IndicatorColumn(rows, country, IcuIndicator);
    DateValue(IndicatorRows(CountryRows(rows, country), IcuIndicator))
  }

  /** `fillna(0)`. */
  function Fill(v: Option<real>): real
  {
    v.GetOr(0.0)
  }

  predicate IncreasingRecords(r: seq<Record>)
  {
    forall i, j :: 0 <= i < j < |r| ==> r[i].date < r[j].date
  }

  ghost function RecordDates(r: seq<Record>): set<int>
  {
    set i | 0 <= i < |r| :: r[i].date
  }

  lemma DateSetCons(h: seq<Row<Option<real>>>)
    ensures h != [] ==> DateSet(h) == {h[0].date} + DateSet(h[1..])
    ensures h == [] ==> DateSet(h) == {}
  {
    if h == [] { return; }
    forall d | d in DateSet(h) ensures d in {h[0].date} + DateSet(h[1..]) {
      var i :| 0 <= i < |h| && h[i].date == d;
      if i > 0 { assert h[1..][i - 1] == h[i]; }
    }
    forall d | d in DateSet(h[1..]) ensures d in DateSet(h) {
      var i :| 0 <= i < |h[1..]| && h[1..][i].date == d;
      assert h[i + 1].date == d;
    }
  }

  lemma DateSetAbove(h: seq<Row<Option<real>>>)
    requires StrictlyIncreasingDates(h)
    ensures h != [] ==> forall d :: d in DateSet(h[1..]) ==> d > h[0].date
    ensures h != [] ==> StrictlyIncreasingDates(h[1..])
  {
    if h == [] { return; }
    forall d | d in DateSet(h[1..]) ensures d > h[0].date {
      var i :| 0 <= i < |h[1..]| && h[1..][i].date == d;
      assert h[i + 1].date == d;
    }
  }

  lemma RecordDatesCons(x: Record, r: seq<Record>)
    ensures RecordDates([x] + r) == {x.date} + RecordDates(r)
  {
    var s := [x] + r;
    assert s[0] == x;
    forall d | d in RecordDates(s) ensures d in {x.date} + RecordDates(r) {
      var i :| 0 <= i < |s| && s[i].date == d;
      if i > 0 { assert s[i] == r[i - 1]; }
    }
    forall d | d in RecordDates(r) ensures d in RecordDates(s) {
      var i :| 0 <= i < |r| && r[i].date == d;
      assert s[i + 1].date == d;
    }
  }

  /** Prepending a record dated before every other keeps the records increasing. */
  lemma PrependIncreasing(x: Record, r: seq<Record>)
    requires IncreasingRecords(r)
    requires forall d :: d in RecordDates(r) ==> x.date < d
    ensures IncreasingRecords([x] + r)
  {
    var s := [x] + r;
    forall i, j | 0 <= i < j < |s| ensures s[i].date < s[j].date {
      if i == 0 {
        assert s[j] == r[j - 1];
        assert r[j - 1].date in RecordDates(r);
      } else {
        assert s[i] == r[i - 1] && s[j] == r[j - 1];
      }
    }
  }

  /** The column value a record takes from an indicator's date-strictly-increasing rows. */
  ghost predicate TakesFrom(r: seq<Record>, h: seq<Row<Option<real>>>, hosp: bool)
  {
    && (forall k, j :: 0 <= k < |r| && 0 <= j < |h| && h[j].date == r[k].date ==>
          (if hosp then r[k].hospitalizations else r[k].icu) == Fill(h[j].value))
    && (forall k :: 0 <= k < |r| && r[k].date !in DateSet(h) ==>
          (if hosp then r[k].hospitalizations else r[k].icu) == 0.0)
  }

  lemma TakesFromCons(x: Record, r: seq<Record>, h: seq<Row<Option<real>>>, hosp: bool)
    requires TakesFrom(r, h, hosp)
    requires forall j :: 0 <= j < |h| && h[j].date == x.date ==>
      (if hosp then x.hospitalizations else x.icu) == Fill(h[j].value)
    requires x.date !in DateSet(h) ==> (if hosp then x.hospitalizations else x.icu) == 0.0
    ensures TakesFrom([x] + r, h, hosp)
  {
    var s := [x] + r;
    forall k | 1 <= k < |s| ensures s[k] == r[k - 1] { }
  }

  /** Moving past the first row of `h` does not change what later records take from it. */
  lemma TakesFromTail(r: seq<Record>, h: seq<Row<Option<real>>>, hosp: bool)
    requires h != [] && StrictlyIncreasingDates(h)
    requires TakesFrom(r, h[1..], hosp)
    requires forall k :: 0 <= k < |r| ==> r[k].date != h[0].date
    ensures TakesFrom(r, h, hosp)
  {
    DateSetCons(h);
    forall k, j | 0 <= k < |r| && 0 <= j < |h| && h[j].date == r[k].date
      ensures (if hosp then r[k].hospitalizations else r[k].icu) == Fill(h[j].value)
    {
      assert j > 0;
      assert h[1..][j - 1] == h[j];
    }
  }

  /**
   * The outer join on `date` of two date-ordered indicator columns, in date order, with
   * the side missing on a date filled with 0.
   */
  function MergeJoin(h: seq<Row<Option<real>>>, c: seq<Row<Option<real>>>): (r: seq<Record>)
    ensures r == [] <==> h == [] && c == []
    decreases |h| + |c|
  {
    if h == [] && c == [] then []
    else if c == [] || (h != [] && h[0].date < c[0].date) then
      [Record(h[0].date, Fill(h[0].value), 0.0)] + MergeJoin(h[1..], c)
    else if h == [] || c[0].date < h[0].date then
      [Record(c[0].date, 0.0, Fill(c[0].value))] + MergeJoin(h, c[1..])
    else
      [Record(h[0].date, Fill(h[0].value), Fill(c[0].value))] + MergeJoin(h[1..], c[1..])
  }

  /** The joined dates are exactly the dates of either side. */
  lemma {:induction false} MergeJoinDates(h: seq<Row<Option<real>>>, c: seq<Row<Option<real>>>)
    ensures RecordDates(MergeJoin(h, c)) == DateSet(h) + DateSet(c)
    decreases |h| + |c|
  {
    var r := MergeJoin(h, c);
    DateSetCons(h);
    DateSetCons(c);
    if h == [] && c == [] {
    } else if c == [] || (h != [] && h[0].date < c[0].date) {
      MergeJoinDates(h[1..], c);
      RecordDatesCons(r[0], MergeJoin(h[1..], c));
    } else if h == [] || c[0].date < h[0].date {
      MergeJoinDates(h, c[1..]);
      RecordDatesCons(r[0], MergeJoin(h, c[1..]));
    } else {
      MergeJoinDates(h[1..], c[1..]);
      RecordDatesCons(r[0], MergeJoin(h[1..], c[1..]));
    }
  }

  /** Joining two date-strictly-increasing sides gives strictly increasing dates. */
  lemma {:induction false} MergeJoinIncreasing(h: seq<Row<Option<real>>>, c: seq<Row<Option<real>>>)
    requires StrictlyIncreasingDates(h) && StrictlyIncreasingDates(c)
    ensures IncreasingRecords(MergeJoin(h, c))
    decreases |h| + |c|
  {
    var r := MergeJoin(h, c);
    DateSetCons(h);
    DateSetCons(c);
    DateSetAbove(h);
    DateSetAbove(c);
    if h == [] && c == [] {
    } else if c == [] || (h != [] && h[0].date < c[0].date) {
      MergeJoinIncreasing(h[1..], c);
      MergeJoinDates(h[1..], c);
      PrependIncreasing(r[0], MergeJoin(h[1..], c));
    } else if h == [] || c[0].date < h[0].date {
      MergeJoinIncreasing(h, c[1..]);
      MergeJoinDates(h, c[1..]);
      PrependIncreasing(r[0], MergeJoin(h, c[1..]));
    } else {
      MergeJoinIncreasing(h[1..], c[1..]);
      MergeJoinDates(h[1..], c[1..]);
      PrependIncreasing(r[0], MergeJoin(h[1..], c[1..]));
    }
  }

  /**
   * Each joined record's `hospitalizations` is the value of the hospital row with its date
   * (0 when the value is NaN), and 0 when there is no hospital row with its date.
   */
  lemma {:induction false} MergeJoinHospital(h: seq<Row<Option<real>>>, c: seq<Row<Option<real>>>)
    requires StrictlyIncreasingDates(h) && StrictlyIncreasingDates(c)
    ensures TakesFrom(MergeJoin(h, c), h, true)
    decreases |h| + |c|
  {
    var r := MergeJoin(h, c);
    DateSetCons(h);
    DateSetAbove(h);
    DateSetAbove(c);
    if h == [] && c == [] {
    } else if c == [] || (h != [] && h[0].date < c[0].date) {
      var rest := MergeJoin(h[1..], c);
      MergeJoinHospital(h[1..], c);
      MergeJoinDates(h[1..], c);
      DateSetCons(c);
      forall k | 0 <= k < |rest| ensures rest[k].date != h[0].date {
        assert rest[k].date in RecordDates(rest);
      }
      TakesFromTail(rest, h, true);
      TakesFromCons(r[0], rest, h, true);
    } else if h == [] || c[0].date < h[0].date {
      var rest := MergeJoin(h, c[1..]);
      MergeJoinHospital(h, c[1..]);
      TakesFromCons(r[0], rest, h, true);
    } else {
      var rest := MergeJoin(h[1..], c[1..]);
      MergeJoinHospital(h[1..], c[1..]);
      MergeJoinDates(h[1..], c[1..]);
      DateSetCons(c);
      forall k | 0 <= k < |rest| ensures rest[k].date != h[0].date {
        assert rest[k].date in RecordDates(rest);
      }
      TakesFromTail(rest, h, true);
      TakesFromCons(r[0], rest, h, true);
    }
  }

  /**
   * Each joined record's `icu` is the value of the ICU row with its date (0 when the value
   * is NaN), and 0 when there is no ICU row with its date.
   */
  lemma {:induction false} MergeJoinIcu(h: seq<Row<Option<real>>>, c: seq<Row<Option<real>>>)
    requires StrictlyIncreasingDates(h) && StrictlyIncreasingDates(c)
    ensures TakesFrom(MergeJoin(h, c), c, false)
    decreases |h| + |c|
  {
    var r := MergeJoin(h, c);
    DateSetCons(c);
    DateSetAbove(h);
    DateSetAbove(c);
    if h == [] && c == [] {
    } else if c == [] || (h != [] && h[0].date < c[0].date) {
      var rest := MergeJoin(h[1..], c);
      MergeJoinIcu(h[1..], c);
      TakesFromCons(r[0], rest, c, false);
    } else if h == [] || c[0].date < h[0].date {
      var rest := MergeJoin(h, c[1..]);
      MergeJoinIcu(h, c[1..]);
      MergeJoinDates(h, c[1..]);
      DateSetCons(h);
      forall k | 0 <= k < |rest| ensures rest[k].date != c[0].date {
        assert rest[k].date in RecordDates(rest);
      }
      TakesFromTail(rest, c, false);
      TakesFromCons(r[0], rest, c, false);
    } else {
      var rest := MergeJoin(h[1..], c[1..]);
      MergeJoinIcu(h[1..], c[1..]);
      MergeJoinDates(h[1..], c[1..]);
      DateSetCons(h);
      forall k | 0 <= k < |rest| ensures rest[k].date != c[0].date {
        assert rest[k].date in RecordDates(rest);
      }
      TakesFromTail(rest, c, false);
      TakesFromCons(r[0], rest, c, false);
    }
  }

  /** No two rows of `country` for the indicator `name` carry the same date. */
  predicate OneRowPerDate(rows: seq<OwidRow>, country: string, name: string)
  {
    forall i, j ::
      (0 <= i < j < |rows| && Matches(rows[i], country) && rows[i].indicator == name &&
       Matches(rows[j], country) && rows[j].indicator == name) ==> rows[i].date != rows[j].date
  }

  /** `get_hospitalization_data(country)` over the downloaded rows. */
  function HospitalizationData(rows: seq<OwidRow>, country: string): (r: seq<Record>)
    requires OneRowPerDate(rows, country, HospitalIndicator) && OneRowPerDate(rows, country, IcuIndicator)
  {
    var countryRows := CountryRows(rows, country);
    if countryRows == [] then []
    else
      var hosp := DateValue(IndicatorRows(countryRows, HospitalIndicator));
      var icu := DateValue(IndicatorRows(countryRows, IcuIndicator));
      if hosp == [] && icu == [] then []
      else MergeJoin(SortByDate(hosp), SortByDate(icu))
  }

  /** `x` is a row of `country` for the indicator `name`. */
  predicate From(x: OwidRow, rows: seq<OwidRow>, country: string, name: string)
  {
    x in rows && Matches(x, country) && x.indicator == name
  }

  /** The `[['date', 'value']]` rows of an indicator are exactly those of its source rows. */
  lemma IndicatorColumn(rows: seq<OwidRow>, country: string, name: string)
    ensures forall e :: e in DateValue(IndicatorRows(CountryRows(rows, country), name)) <==>
      exists x :: From(x, rows, country, name) && e == Row(x.date, x.value)
  {
    var ir := IndicatorRows(CountryRows(rows, country), name);
    var dv := DateValue(ir);
    forall e | e in dv ensures exists x :: From(x, rows, country, name) && e == Row(x.date, x.value) {
      var i :| 0 <= i < |dv| && dv[i] == e;
      assert ir[i] in ir;
      assert From(ir[i], rows, country, name);
    }
    forall x | From(x, rows, country, name) ensures Row(x.date, x.value) in dv {
      assert x in ir;
      var i :| 0 <= i < |ir| && ir[i] == x;
      assert dv[i] == Row(x.date, x.value);
    }
  }

  /** The column of an indicator, built from a first row and the rest. */
  lemma ColumnCons(rows: seq<OwidRow>, country: string, name: string)
    requires rows != []
    ensures DateValue(IndicatorRows(CountryRows(rows, country), name)) ==
      (if Matches(rows[0], country) && rows[0].indicator == name then [Row(rows[0].date, rows[0].value)] else [])
      + DateValue(IndicatorRows(CountryRows(rows[1..], country), name))
  {
    var rest := CountryRows(rows[1..], country);
    if Matches(rows[0], country) {
      assert CountryRows(rows, country) == [rows[0]] + rest;
      assert ([rows[0]] + rest)[1..] == rest;
      var ir := IndicatorRows(rest, name);
      if rows[0].indicator == name {
        assert IndicatorRows([rows[0]] + rest, name) == [rows[0]] + ir;
        assert DateValue([rows[0]] + ir) == [Row(rows[0].date, rows[0].value)] + DateValue(ir);
      } else {
        assert IndicatorRows([rows[0]] + rest, name) == ir;
      }
    } else {
      assert CountryRows(rows, country) == rest;
    }
  }

  /** A row whose date no row of `col` carries can go in front of it. */
  lemma PrependUnique(y: Row<Option<real>>, col: seq<Row<Option<real>>>)
    requires UniqueDates(col)
    requires forall k :: 0 <= k < |col| ==> col[k].date != y.date
    ensures UniqueDates([y] + col)
  {
    var whole := [y] + col;
    forall i, j | 0 <= i < j < |whole| ensures whole[i].date != whole[j].date {
      assert whole[j] == col[j - 1];
      if i > 0 { assert whole[i] == col[i - 1]; }
    }
  }

  /** Under one row per date, no later row of the column shares the first row's date. */
  lemma FirstDateFresh(rows: seq<OwidRow>, country: string, name: string)
    requires rows != [] && OneRowPerDate(rows, country, name)
    requires Matches(rows[0], country) && rows[0].indicator == name
    ensures var col := DateValue(IndicatorRows(CountryRows(rows[1..], country), name));
      forall k :: 0 <= k < |col| ==> col[k].date != rows[0].date
  {
    var t := rows[1..];
    var col := DateValue(IndicatorRows(CountryRows(t, country), name));
    IndicatorColumn(t, country, name);
    forall k | 0 <= k < |col| ensures col[k].date != rows[0].date {
      assert col[k] in col;
      var x :| From(x, t, country, name) && col[k] == Row(x.date, x.value);
      var m :| 0 <= m < |t| && t[m] == x;
      assert rows[m + 1] == x;
    }
  }

  lemma OneRowPerDateTail(rows: seq<OwidRow>, country: string, name: string)
    requires rows != [] && OneRowPerDate(rows, country, name)
    ensures OneRowPerDate(rows[1..], country, name)
  {
    var t := rows[1..];
    forall i, j | 0 <= i < j < |t| && Matches(t[i], country) && t[i].indicator == name &&
      Matches(t[j], country) && t[j].indicator == name
      ensures t[i].date != t[j].date
    {
      assert t[i] == rows[i + 1] && t[j] == rows[j + 1];
    }
  }

  /** One row per date in the input gives a column in which no date repeats. */
  lemma {:induction false} OneRowPerDateUnique(rows: seq<OwidRow>, country: string, name: string)
    requires OneRowPerDate(rows, country, name)
    ensures UniqueDates(DateValue(IndicatorRows(CountryRows(rows, country), name)))
  {
    if rows != [] {
      OneRowPerDateTail(rows, country, name);
      OneRowPerDateUnique(rows[1..], country, name);
      ColumnCons(rows, country, name);
      if Matches(rows[0], country) && rows[0].indicator == name {
        FirstDateFresh(rows, country, name);
        PrependUnique(Row(rows[0].date, rows[0].value), DateValue(IndicatorRows(CountryRows(rows[1..], country), name)));
      }
    }
  }

  /** The dates of the result are those of the country's hospital and ICU rows, each once. */
  lemma SortedColumnDates(rows: seq<OwidRow>, country: string, name: string, d: int)
    ensures var s := SortByDate(DateValue(IndicatorRows(CountryRows(rows, country), name)));
      d in DateSet(s) <==> exists x :: From(x, rows, country, name) && x.date == d
  {
    var s := SortByDate(DateValue(IndicatorRows(CountryRows(rows, country), name)));
    IndicatorColumn(rows, country, name);
    if d in DateSet(s) {
      var j :| 0 <= j < |s| && s[j].date == d;
      assert s[j] in s;
    }
    if x :| From(x, rows, country, name) && x.date == d {
      assert Row(x.date, x.value) in s;
      var j :| 0 <= j < |s| && s[j] == Row(x.date, x.value);
      assert s[j].date == d;
    }
  }

  /**
   * A joined record takes in a column the value of the country's row for that indicator
   * on its date (0 for NaN), and 0 when there is no such row.
   */
  lemma SortedColumnValues(rows: seq<OwidRow>, country: string, name: string, r: seq<Record>, hosp: bool)
    requires TakesFrom(r, SortByDate(DateValue(IndicatorRows(CountryRows(rows, country), name))), hosp)
    ensures forall k, x :: 0 <= k < |r| && From(x, rows, country, name) && x.date == r[k].date ==>
      (if hosp then r[k].hospitalizations else r[k].icu) == Fill(x.value)
    ensures forall k :: 0 <= k < |r| && (forall x :: From(x, rows, country, name) ==> x.date != r[k].date) ==>
      (if hosp then r[k].hospitalizations else r[k].icu) == 0.0
  {
    var s := SortByDate(DateValue(IndicatorRows(CountryRows(rows, country), name)));
    IndicatorColumn(rows, country, name);
    forall k, x | 0 <= k < |r| && From(x, rows, country, name) && x.date == r[k].date
      ensures (if hosp then r[k].hospitalizations else r[k].icu) == Fill(x.value)
    {
      assert Row(x.date, x.value) in s;
      var j :| 0 <= j < |s| && s[j] == Row(x.date, x.value);
    }
    forall k | 0 <= k < |r| && (forall x :: From(x, rows, country, name) ==> x.date != r[k].date)
      ensures (if hosp then r[k].hospitalizations else r[k].icu) == 0.0
    {
      SortedColumnDates(rows, country, name, r[k].date);
    }
  }

  /** The result is empty exactly when the country has no hospital and no ICU row. */
  lemma HospitalizationDataEmpty(rows: seq<OwidRow>, country: string)
    requires OneRowPerDate(rows, country, HospitalIndicator) && OneRowPerDate(rows, country, IcuIndicator)
    ensures HospitalizationData(rows, country) == [] <==>
      forall x :: x in rows && Matches(x, country) ==>
        x.indicator != HospitalIndicator && x.indicator != IcuIndicator
  {
    var hosp := HospitalRows(rows, country);
    var icu := IcuRows(rows, country);
    IndicatorColumn(rows, country, HospitalIndicator);
    IndicatorColumn(rows, country, IcuIndicator);
    forall x | x in rows && Matches(x, country)
      ensures x.indicator != HospitalIndicator || Row(x.date, x.value) in hosp
      ensures x.indicator != IcuIndicator || Row(x.date, x.value) in icu
    {
      assert From(x, rows, country, x.indicator);
    }
    if CountryRows(rows, country) == [] || (hosp == [] && icu == []) {
    } else if hosp != [] {
      assert hosp[0] in hosp;
    } else {
      assert icu[0] in icu;
    }
  }

  /**
   * The result holds one record per date carried by a hospital or ICU row of the country,
   * in strictly increasing date order.
   */
  lemma HospitalizationDataDates(rows: seq<OwidRow>, country: string)
    requires OneRowPerDate(rows, country, HospitalIndicator) && OneRowPerDate(rows, country, IcuIndicator)
    ensures var r := HospitalizationData(rows, country);
      && IncreasingRecords(r)
      && (forall k :: 0 <= k < |r| ==> exists x ::
            (From(x, rows, country, HospitalIndicator) || From(x, rows, country, IcuIndicator)) && x.date == r[k].date)
      && (forall x :: From(x, rows, country, HospitalIndicator) || From(x, rows, country, IcuIndicator) ==>
            exists k :: 0 <= k < |r| && r[k].date == x.date)
  {
    var r := HospitalizationData(rows, country);
    var hosp := HospitalRows(rows, country);
    var icu := IcuRows(rows, country);
    if CountryRows(rows, country) == [] || (hosp == [] && icu == []) {
      HospitalizationDataEmpty(rows, country);
    } else {
      var sh := SortByDate(hosp);
      var sc := SortByDate(icu);
      OneRowPerDateUnique(rows, country, HospitalIndicator);
      OneRowPerDateUnique(rows, country, IcuIndicator);
      SortStrict(hosp);
      SortStrict(icu);
      MergeJoinDates(sh, sc);
      MergeJoinIncreasing(sh, sc);
      assert r == MergeJoin(sh, sc);
      forall k | 0 <= k < |r| ensures exists x ::
        (From(x, rows, country, HospitalIndicator) || From(x, rows, country, IcuIndicator)) && x.date == r[k].date
      {
        assert r[k].date in RecordDates(r);
        SortedColumnDates(rows, country, HospitalIndicator, r[k].date);
        SortedColumnDates(rows, country, IcuIndicator, r[k].date);
      }
      forall x | From(x, rows, country, HospitalIndicator) || From(x, rows, country, IcuIndicator)
        ensures exists k :: 0 <= k < |r| && r[k].date == x.date
      {
        SortedColumnDates(rows, country, HospitalIndicator, x.date);
        SortedColumnDates(rows, country, IcuIndicator, x.date);
        assert x.date in RecordDates(r);
      }
    }
  }

  /**
   * Each record's `hospitalizations` and `icu` are the country's values for that indicator
   * on the record's date (NaN filled with 0), and 0 where the indicator has no row that day.
   */
  lemma HospitalizationDataValues(rows: seq<OwidRow>, country: string)
    requires OneRowPerDate(rows, country, HospitalIndicator) && OneRowPerDate(rows, country, IcuIndicator)
    ensures var r := HospitalizationData(rows, country);
      && (forall k, x :: 0 <= k < |r| && From(x, rows, country, HospitalIndicator) && x.date == r[k].date ==>
            r[k].hospitalizations == Fill(x.value))
      && (forall k :: 0 <= k < |r| && (forall x :: From(x, rows, country, HospitalIndicator) ==> x.date != r[k].date) ==>
            r[k].hospitalizations == 0.0)
      && (forall k, x :: 0 <= k < |r| && From(x, rows, country, IcuIndicator) && x.date == r[k].date ==>
            r[k].icu == Fill(x.value))
      && (forall k :: 0 <= k < |r| && (forall x :: From(x, rows, country, IcuIndicator) ==> x.date != r[k].date) ==>
            r[k].icu == 0.0)
  {
    var r := HospitalizationData(rows, country);
    var hosp := HospitalRows(rows, country);
    var icu := IcuRows(rows, country);
    if !(CountryRows(rows, country) == [] || (hosp == [] && icu == [])) {
      var sh := SortByDate(hosp);
      var sc := SortByDate(icu);
      OneRowPerDateUnique(rows, country, HospitalIndicator);
      OneRowPerDateUnique(rows, country, IcuIndicator);
      SortStrict(hosp);
      SortStrict(icu);
      MergeJoinHospital(sh, sc);
      MergeJoinIcu(sh, sc);
      assert r == MergeJoin(sh, sc);
      SortedColumnValues(rows, country, HospitalIndicator, r, true);
      SortedColumnValues(rows, country, IcuIndicator, r, false);
    }
  }

  /**
   * Nothing ties the two columns together: a day with only an ICU row gives a record whose
   * `icu` exceeds its `hospitalizations`.
   */
  lemma IcuMayExceedHospital()
    ensures var rows := [OwidRow("France", 5, IcuIndicator, Some(3.0))];
      HospitalizationData(rows, "france") == [Record(5, 0.0, 3.0)]
  {
    var rows := [OwidRow("France", 5, IcuIndicator, Some(3.0))];
    assert Lower("France") == Lower("france");
    assert CountryRows(rows, "france") == rows;
    assert IndicatorRows(rows, HospitalIndicator) == [];
    assert IndicatorRows(rows, IcuIndicator) == rows;
  }
}
