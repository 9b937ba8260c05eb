/** The row transforms of the Flask serving layer: each route reads a
    table, rewrites whole columns and returns the rows.  Reading the CSV,
    `to_datetime`'s parsing and the JSON encoding are outside the model;
    a route's input is the table as it stands after parsing, with every
    column the route does not touch kept as an opaque `A`. */
module App {
  import opened Seqs
  import opened Calendar

  /** A table: its column names and its rows. */
  datatype Table<R> = Table(columns: seq<string>, rows: seq<R>)

  /** A row whose `Date` column has been parsed by `to_datetime`; `None`
      is `NaT`, what an empty cell parses to. */
  datatype DatedRow<A> = DatedRow(date: Option<Date>, rest: A)

  /** A row after `Year` has been added and `Date` rewritten as `dd/mm/yyyy`;
      both are `None` (NaN) where the date was `NaT`. */
  datatype YearRow<A> = YearRow(date: Option<string>, rest: A, year: Option<int>)

  /** A row after `Date` has been rewritten as `dd/mm/yyyy`, without a `Year`. */
  datatype TextRow<A> = TextRow(date: Option<string>, rest: A)

  /** Every date lies within the range of a `Timestamp`; for any other date
      `to_datetime` raises `OutOfBoundsDatetime` and the route fails. */
  predicate AllSupported<A>(rows: seq<DatedRow<A>>)
  {
    forall i :: 0 <= i < |rows| ==> rows[i].date.Some? ==> Supported(rows[i].date.value)
  }

  // ---------------------------------------------------------------------
  // Date + Year columns (price_data, matched_events)

  /** One row of `df["Year"] = df["Date"].dt.year; df["Date"] = df["Date"].dt.strftime("%d/%m/%Y")`:
      the text reads back as the parsed date and `Year` is its year; a `NaT`
      date leaves both missing. */
  function FormatRow<A>(row: DatedRow<A>): (r: YearRow<A>)
    requires row.date.Some? ==> Supported(row.date.value)
    ensures r.rest == row.rest
    ensures r.date.Some? <==> row.date.Some?
    ensures r.year == if row.date.Some? then Some(row.date.value.year) else None
    ensures row.date.Some? ==> ParseDate(r.date.value) == row.date
  {
    match row.date
    case None => YearRow(None, row.rest, None)
    case Some(d) =>
      FormatDateRoundTrip(d);
      YearRow(Some(FormatDate(d)), row.rest, Some(d.year))
  }

  /** The two column assignments over the whole table; this is all the
      `matched_events` route does. */
  function WithYear<A>(rows: seq<DatedRow<A>>): (r: seq<YearRow<A>>)
    requires AllSupported(rows)
    ensures |r| == |rows|
    ensures forall i :: 0 <= i < |r| ==>
      && r[i].rest == rows[i].rest
      && (r[i].date.Some? <==> rows[i].date.Some?)
      && r[i].year == (if rows[i].date.Some? then Some(rows[i].date.value.year) else None)
      && (rows[i].date.Some? ==> ParseDate(r[i].date.value) == rows[i].date)
  {
    if rows == [] then []
    else WithYear(rows[..|rows| - 1]) + [FormatRow(rows[|rows| - 1])]
  }

  /** What the dashboard's tick formatter relies on: every `Date` text splits
      on `/` into three fields, and the third reads back as the row's `Year`. */
  lemma YearFieldMatchesYear<A>(rows: seq<DatedRow<A>>)
    requires AllSupported(rows)
    ensures forall i :: 0 <= i < |rows| && WithYear(rows)[i].date.Some? ==>
      var f := Split(WithYear(rows)[i].date.value, '/');
      && |f| == 3
      && (forall j :: 0 <= j < |f[2]| ==> IsDigit(f[2][j]))
      && Some(DecimalValue(f[2])) == WithYear(rows)[i].year
  {
    forall i | 0 <= i < |rows| && WithYear(rows)[i].date.Some?
      ensures var f := Split(WithYear(rows)[i].date.value, '/');
        && |f| == 3
        && (forall j :: 0 <= j < |f[2]| ==> IsDigit(f[2][j]))
        && Some(DecimalValue(f[2])) == WithYear(rows)[i].year
    {
      SplitFormatted(rows[i].date.value);
    }
  }

  /** No cell of the row is NaN (`Date` and `Year` never are). */
  predicate NoMissing<V>(cells: seq<Option<V>>)
  {
    forall k :: 0 <= k < |cells| ==> cells[k].Some?
  }

  predicate CompleteRow<V>(d: DatedRow<seq<Option<V>>>)
  {
    d.date.Some? && NoMissing(d.rest)
  }

  predicate CompleteYearRow<V>(y: YearRow<seq<Option<V>>>)
  {
    y.date.Some? && y.year.Some? && NoMissing(y.rest)
  }

  /** The `price_data` route: format, then `dropna()` over every column. */
  function PriceData<V>(rows: seq<DatedRow<seq<Option<V>>>>): (r: seq<YearRow<seq<Option<V>>>>)
    requires AllSupported(rows)
    ensures forall k :: 0 <= k < |r| ==> r[k].date.Some? && r[k].year.Some? && NoMissing(r[k].rest)
  {
    Filter(WithYear(rows), CompleteYearRow)
  }

  /** `dropna` leaves exactly the complete rows, formatted, in their original
      order: the same as formatting only the rows that have no missing cell. */
  lemma {:induction false} PriceDataKeepsCompleteRows<V>(rows: seq<DatedRow<seq<Option<V>>>>)
    requires AllSupported(rows)
    ensures AllSupported(Filter(rows, CompleteRow))
    ensures PriceData(rows) == WithYear(Filter(rows, CompleteRow))
  {
    FilterSupported(rows, CompleteRow);
    if rows != [] {
      var n := |rows| - 1;
      var init, x := rows[..n], rows[n];
      PriceDataKeepsCompleteRows(init);
      var formatted := WithYear(rows);
      assert formatted[..n] == WithYear(init);
      assert formatted[n] == FormatRow(x);
      var kept := Filter(init, CompleteRow);
      assert Filter(formatted, CompleteYearRow)
        == Filter(WithYear(init), CompleteYearRow) + (if CompleteYearRow(formatted[n]) then [formatted[n]] else []);
      assert CompleteYearRow(formatted[n]) == CompleteRow(x);
      assert Filter(rows, CompleteRow) == kept + (if CompleteRow(x) then [x] else []);
      if CompleteRow(x) {
        var k := kept + [x];
        assert k[..|k| - 1] == kept;
        assert WithYear(k) == WithYear(kept) + [FormatRow(x)];
      } else {
        assert Filter(rows, CompleteRow) == kept;
      }
    }
  }

  lemma FilterSupported<A>(rows: seq<DatedRow<A>>, p: DatedRow<A> -> bool)
    requires AllSupported(rows)
    ensures AllSupported(Filter(rows, p))
  {
    var kept := Filter(rows, p);
    forall i | 0 <= i < |kept| && kept[i].date.Some? ensures Supported(kept[i].date.value) {
      FilterPositions(rows, p);
    }
  }

  // ---------------------------------------------------------------------
  // event_overlay

  /** A row of the event table: its `Event Type` (`None` for NaN) and its
      other columns.  The route rewrites `Date` too, but that column does
      not reach the counts it returns. */
  datatype EventRow<A> = EventRow(eventType: Option<string>, rest: A)

  /** The `Event Type` column. */
  function TypeColumn<A>(rows: seq<EventRow<A>>): (r: seq<Option<string>>)
    ensures |r| == |rows| && forall i :: 0 <= i < |rows| ==> r[i] == rows[i].eventType
  {
    seq(|rows|, i requires 0 <= i < |rows| => rows[i].eventType)
  }

  /** The types `value_counts` counts: NaN is dropped. */
  function PresentTypes<A>(rows: seq<EventRow<A>>): (r: seq<string>)
  {
    if rows == [] then []
    else
      var last := rows[|rows| - 1];
      PresentTypes(rows[..|rows| - 1]) + (if last.eventType.Some? then [last.eventType.value] else [])
  }

  lemma {:induction false} PresentTypesCount<A>(rows: seq<EventRow<A>>, t: string)
    ensures multiset(PresentTypes(rows))[t] == multiset(TypeColumn(rows))[Some(t)]
    ensures |PresentTypes(rows)| == |rows| - multiset(TypeColumn(rows))[None]
  {
    if rows != [] {
      var n := |rows| - 1;
      PresentTypesCount(rows[..n], t);
      assert TypeColumn(rows) == TypeColumn(rows[..n]) + [rows[n].eventType];
    }
  }

  /** `df["Event Type"].value_counts()`; the counts are kept in order of
      first occurrence. */
  function EventTypeCounts<A>(rows: seq<EventRow<A>>): seq<(string, nat)>
  {
    Tally(PresentTypes(rows))
  }

  /** Every type that some event has gets exactly one entry, no other type
      gets one, each entry counts the events of its type, and the counts
      add up to the number of events with a type. */
  lemma EventTypeCountsCorrect<A>(rows: seq<EventRow<A>>)
    ensures DistinctKeys(EventTypeCounts(rows))
    ensures forall t :: t in Keys(EventTypeCounts(rows)) <==> Some(t) in TypeColumn(rows)
    ensures forall i :: 0 <= i < |EventTypeCounts(rows)| ==>
      EventTypeCounts(rows)[i].1 == multiset(TypeColumn(rows))[Some(EventTypeCounts(rows)[i].0)]
    ensures Total(EventTypeCounts(rows)) == |rows| - multiset(TypeColumn(rows))[None]
  {
    TallyCorrect(PresentTypes(rows));
    forall t ensures t in Keys(EventTypeCounts(rows)) <==> Some(t) in TypeColumn(rows) {
      PresentTypesCount(rows, t);
    }
    forall i | 0 <= i < |EventTypeCounts(rows)|
      ensures EventTypeCounts(rows)[i].1 == multiset(TypeColumn(rows))[Some(EventTypeCounts(rows)[i].0)]
    {
      PresentTypesCount(rows, EventTypeCounts(rows)[i].0);
    }
    PresentTypesCount(rows, "");
  }

  // ---------------------------------------------------------------------
  // regime_volatility

  /** A row of the regime volatility table: its `Regime` label and the rest. */
  datatype RegimeRow<A> = RegimeRow(regime: string, rest: A)

  const BeforeTau1 := "Before \U{3C4}\U{2081}"
  const BetweenTaus := "Between \U{3C4}\U{2081}\U{2013}\U{3C4}\U{2082}"
  const AfterTau2 := "After \U{3C4}\U{2082}"

  /** `regime_map`. */
  const RegimeMap: map<string, string> := map[
    BeforeTau1 := "Before 2011",
    BetweenTaus := "2011\U{2013}2020",
    AfterTau2 := "After 2020"
  ]

  /** `Series.replace(regime_map)` on one label: a key is replaced once, any
      other label is left as it is. */
  function Relabel(regime: string): (r: string)
    ensures regime == BeforeTau1 ==> r == "Before 2011"
    ensures regime == BetweenTaus ==> r == "2011\U{2013}2020"
    ensures regime == AfterTau2 ==> r == "After 2020"
    ensures regime !in {BeforeTau1, BetweenTaus, AfterTau2} ==> r == regime
  {
    if regime in RegimeMap then RegimeMap[regime] else regime
  }

  /** The `regime_volatility` route. */
  function RegimeVolatility<A>(rows: seq<RegimeRow<A>>): (r: seq<RegimeRow<A>>)
    ensures |r| == |rows|
    ensures forall i :: 0 <= i < |r| ==> r[i] == RegimeRow(Relabel(rows[i].regime), rows[i].rest)
  {
    if rows == [] then []
    else
      var last := rows[|rows| - 1];
      RegimeVolatility(rows[..|rows| - 1]) + [RegimeRow(Relabel(last.regime), last.rest)]
  }

  /** No new label is itself a key, so relabelling twice is relabelling once. */
  lemma RelabelIdempotent(regime: string)
    ensures Relabel(Relabel(regime)) == Relabel(regime)
  {
    assert "Before 2011" != BeforeTau1 && "Before 2011" != BetweenTaus && "Before 2011" != AfterTau2 by {
      assert "Before 2011"[7] != BeforeTau1[7];
      assert |"Before 2011"| != |BetweenTaus| && |"Before 2011"| != |AfterTau2|;
    }
    assert "2011\U{2013}2020" != BeforeTau1 && "2011\U{2013}2020" != BetweenTaus && "2011\U{2013}2020" != AfterTau2 by {
      assert "2011\U{2013}2020"[0] != BeforeTau1[0];
      assert "2011\U{2013}2020"[0] != BetweenTaus[0];
      assert "2011\U{2013}2020"[0] != AfterTau2[0];
    }
    assert "After 2020" != BeforeTau1 && "After 2020" != BetweenTaus && "After 2020" != AfterTau2 by {
      assert "After 2020"[0] != BeforeTau1[0];
      assert "After 2020"[0] != BetweenTaus[0];
      assert "After 2020"[6] != AfterTau2[6];
    }
  }

  lemma RegimeVolatilityIdempotent<A>(rows: seq<RegimeRow<A>>)
    ensures RegimeVolatility(RegimeVolatility(rows)) == RegimeVolatility(rows)
  {
    forall i | 0 <= i < |rows| ensures RegimeVolatility(RegimeVolatility(rows))[i] == RegimeVolatility(rows)[i] {
      RelabelIdempotent(rows[i].regime);
    }
  }

  // ---------------------------------------------------------------------
  // change_points, posterior_summary

  /** `df.rename(columns={old: new})`: every column named `oldName` becomes `newName`. */
  function RenameColumn(columns: seq<string>, oldName: string, newName: string): (r: seq<string>)
    ensures |r| == |columns|
  {
    if columns == [] then []
    else
      var last := columns[|columns| - 1];
      RenameColumn(columns[..|columns| - 1], oldName, newName) + [if last == oldName then newName else last]
  }

  /** Renaming touches only the columns named `oldName`, leaves the table
      as it is when there is none, and leaves no column named `oldName`
      behind (unless that is the new name). */
  lemma {:induction false} RenameColumnOnlyTouchesOld(columns: seq<string>, oldName: string, newName: string)
    ensures forall i :: 0 <= i < |columns| ==>
      RenameColumn(columns, oldName, newName)[i] == if columns[i] == oldName then newName else columns[i]
    ensures oldName !in columns ==> RenameColumn(columns, oldName, newName) == columns
    ensures oldName != newName ==> oldName !in RenameColumn(columns, oldName, newName)
    ensures newName in RenameColumn(columns, oldName, newName) <==> newName in columns || oldName in columns
  {
    if columns != [] {
      var n := |columns| - 1;
      RenameColumnOnlyTouchesOld(columns[..n], oldName, newName);
      assert columns == columns[..n] + [columns[n]];
      var r := RenameColumn(columns, oldName, newName);
      assert r == RenameColumn(columns[..n], oldName, newName) + [r[n]];
    }
  }

  /** The new name occurs as often as the new and the old name did together. */
  lemma {:induction false} RenameColumnCount(columns: seq<string>, oldName: string, newName: string)
    requires oldName != newName
    ensures multiset(RenameColumn(columns, oldName, newName))[newName] == multiset(columns)[newName] + multiset(columns)[oldName]
  {
    if columns != [] {
      var n := |columns| - 1;
      var last := columns[n];
      var renamed := if last == oldName then newName else last;
      RenameColumnCount(columns[..n], oldName, newName);
      assert columns == columns[..n] + [last];
      assert multiset(RenameColumn(columns, oldName, newName))
        == multiset(RenameColumn(columns[..n], oldName, newName)) + multiset{renamed};
    }
  }

  /** The `change_points` route: `date` becomes `Date`, which is then
      formatted.  It fails (`None`) unless exactly one column is then named
      `Date`: with none, `df["Date"]` raises `KeyError`; with two, it is a
      frame that `to_datetime` refuses to assemble (`ValueError`). */
  function ChangePoints<A>(t: Table<DatedRow<A>>): (r: Option<Table<TextRow<A>>>)
    requires AllSupported(t.rows)
    ensures r.Some? <==> multiset(t.columns)["Date"] + multiset(t.columns)["date"] == 1
    ensures r.Some? ==> r.value.columns == RenameColumn(t.columns, "date", "Date")
    ensures r.Some? ==> |r.value.rows| == |t.rows| && forall i :: 0 <= i < |t.rows| ==>
      && r.value.rows[i].rest == t.rows[i].rest
      && (r.value.rows[i].date.Some? <==> t.rows[i].date.Some?)
      && (t.rows[i].date.Some? ==> ParseDate(r.value.rows[i].date.value) == t.rows[i].date)
  {
    var columns := RenameColumn(t.columns, "date", "Date");
    RenameColumnOnlyTouchesOld(t.columns, "date", "Date");
    RenameColumnCount(t.columns, "date", "Date");
    if multiset(columns)["Date"] != 1 then None
    else
      var rows := WithYear(t.rows);
      Some(Table(columns, seq(|rows|, i requires 0 <= i < |rows| => TextRow(rows[i].date, rows[i].rest))))
  }

  /** The `posterior_summary` route: the unnamed index column becomes
      `parameter`; the rows are returned untouched. */
  function PosteriorSummary<R>(t: Table<R>): (r: Table<R>)
    ensures r.rows == t.rows && |r.columns| == |t.columns|
    ensures forall i :: 0 <= i < |t.columns| ==>
      r.columns[i] == if t.columns[i] == "Unnamed: 0" then "parameter" else t.columns[i]
    ensures "Unnamed: 0" in t.columns ==> "parameter" in r.columns && "Unnamed: 0" !in r.columns
  {
    RenameColumnOnlyTouchesOld(t.columns, "Unnamed: 0", "parameter");
    Table(RenameColumn(t.columns, "Unnamed: 0", "parameter"), t.rows)
  }
}
