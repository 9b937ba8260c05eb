/** Event matching in `ChangePointAnalysis`: the posterior `tau` draws are
    reduced to a change index by truncating their mean, the index is looked
    up in the price frame's date index, and the events dated within a
    symmetric window around that date are selected.  Dates are day numbers;
    an event's other columns are an opaque `A`. */
module BayesianInferenceVis {
  import opened Seqs
  import opened Calendar
  import BayesianModel

  /** `window_days`'s default. */
  const DefaultWindowDays := 60

  /** One row of the event table: its `Date` and its other columns. */
  datatype Event<A> = Event(date: Day, attrs: A)

  // ---------------------------------------------------------------------
  // The change index: int(mean(tau))

  function Sum(s: seq<int>): int
  {
    if s == [] then 0 else Sum(s[..|s| - 1]) + s[|s| - 1]
  }

  /** `int(a / b)` for a positive `b`: the quotient truncated toward zero, as
      Python's `int` does to a float (Dafny's `/` rounds down instead). */
  function TruncDiv(a: int, b: int): (q: int)
    requires b > 0
    ensures a >= 0 ==> q == a / b
    ensures a < 0 ==> q == -((-a) / b)
    ensures a >= 0 ==> 0 <= q * b <= a < q * b + b
    ensures a < 0 ==> q * b - b < a <= q * b <= 0
  {
    if a >= 0 then
      FloorDivBracket(a, b);
      a / b
    else
      FloorDivBracket(-a, b);
      NegateTimes((-a) / b, b);
      -((-a) / b)
  }

  /** Floor division of a non-negative number brackets it between two
      consecutive multiples of the divisor. */
  lemma FloorDivBracket(a: int, b: int)
    requires a >= 0 && b > 0
    ensures 0 <= (a / b) * b <= a < (a / b) * b + b
  {
    assert a == b * (a / b) + a % b;
  }

  lemma NegateTimes(q: int, b: int)
    ensures (-q) * b == -(q * b)
  {
  }

  /** `int(trace.posterior["tau"].mean().values)` over the pooled draws;
      `None` without draws (the mean is NaN and `int` raises). */
  function MeanIndex(samples: seq<int>): (r: Option<int>)
    ensures r.None? <==> samples == []
  {
    if samples == [] then None else Some(TruncDiv(Sum(samples), |samples|))
  }

  lemma {:induction false} SumBounds(s: seq<int>, lo: int, hi: int)
    requires forall k :: 0 <= k < |s| ==> lo <= s[k] <= hi
    ensures |s| * lo <= Sum(s) <= |s| * hi
  {
    if s != [] {
      SumBounds(s[..|s| - 1], lo, hi);
      assert lo <= s[|s| - 1] <= hi;
    }
  }

  lemma TruncDivBounds(a: int, n: int, lo: int, hi: int)
    requires n > 0 && n * lo <= a <= n * hi
    ensures lo <= TruncDiv(a, n) <= hi
  {
    if a >= 0 {
      var q, r := a / n, a % n;
      assert a == n * q + r && 0 <= r < n;
      assert n * lo < n * (q + 1);
      LessAfterScaling(lo, q + 1, n);
      assert n * q <= n * hi;
      AtMostAfterScaling(q, hi, n);
    } else {
      var q, r := (-a) / n, (-a) % n;
      assert -a == n * q + r && 0 <= r < n;
      assert n * (-hi) < n * (q + 1);
      LessAfterScaling(-hi, q + 1, n);
      assert n * q <= n * (-lo);
      AtMostAfterScaling(q, -lo, n);
    }
  }

  lemma LessAfterScaling(x: int, y: int, n: int)
    requires n > 0 && n * x < n * y
    ensures x < y
  {
  }

  lemma AtMostAfterScaling(x: int, y: int, n: int)
    requires n > 0 && n * x <= n * y
    ensures x <= y
  {
  }

  /** The change index lies between the smallest and the largest draw: any
      bounds every draw respects, it respects too. */
  lemma MeanIndexWithinDrawBounds(samples: seq<int>, lo: int, hi: int)
    requires samples != []
    requires forall k :: 0 <= k < |samples| ==> lo <= samples[k] <= hi
    ensures lo <= MeanIndex(samples).value <= hi
  {
    SumBounds(samples, lo, hi);
    TruncDivBounds(Sum(samples), |samples|, lo, hi);
  }

  /** For non-negative draws (as `tau`'s are) truncation is plain integer division. */
  lemma MeanIndexOfNonNegative(samples: seq<int>)
    requires samples != []
    requires forall k :: 0 <= k < |samples| ==> samples[k] >= 0
    ensures MeanIndex(samples) == Some(Sum(samples) / |samples|)
  {
    SumNonNegative(samples);
  }

  lemma {:induction false} SumNonNegative(s: seq<int>)
    requires forall k :: 0 <= k < |s| ==> s[k] >= 0
    ensures Sum(s) >= 0
  {
    if s != [] {
      SumNonNegative(s[..|s| - 1]);
    }
  }

  // ---------------------------------------------------------------------
  // The window and the filter

  /** `Series.between(start, end)` on the event dates: both ends included. */
  function WindowMask<A>(start: Day, end: Day): Event<A> -> bool
  {
    (e: Event<A>) => start <= e.date <= end
  }

  /** The events the boolean mask selects. */
  function MatchEvents<A>(events: seq<Event<A>>, start: Day, end: Day): (r: seq<Event<A>>)
    ensures forall k :: 0 <= k < |r| ==> start <= r[k].date <= end
  {
    Filter(events, WindowMask(start, end))
  }

  /** An event is matched exactly when it is in the list and its date is in
      the window; the matched events keep their order and attributes, and
      form a subsequence of the list; no events, no matches. */
  lemma MatchEventsExact<A>(events: seq<Event<A>>, start: Day, end: Day)
    ensures forall e :: e in MatchEvents(events, start, end) <==> e in events && start <= e.date <= end
    ensures IsSubsequence(MatchEvents(events, start, end), events)
    ensures forall i :: 0 <= i < |events| ==>
      (start <= events[i].date <= end <==> i in Positions(events, WindowMask(start, end)))
    ensures events == [] ==> MatchEvents(events, start, end) == []
  {
    forall e ensures e in MatchEvents(events, start, end) <==> e in events && start <= e.date <= end {
      FilterMembership(events, WindowMask(start, end), e);
    }
    FilterIsSubsequence(events, WindowMask(start, end));
    FilterPositions(events, WindowMask(start, end));
  }

  /** Widening the window only adds matches: whatever a window of `w` days
      matches, a window of `w2 >= w` days matches too, in the same order
      (the narrower match is a subsequence of the wider one). */
  lemma WiderWindowMatchesMore<A>(events: seq<Event<A>>, change: Day, w: int, w2: int)
    requires w <= w2
    ensures IsSubsequence(MatchEvents(events, change - w, change + w), MatchEvents(events, change - w2, change + w2))
  {
    FilterMonotone(events, WindowMask(change - w, change + w), WindowMask(change - w2, change + w2));
  }

  /** A negative window has its end before its start and matches nothing. */
  lemma {:induction false} NegativeWindowMatchesNothing<A>(events: seq<Event<A>>, change: Day, w: int)
    requires w < 0
    ensures MatchEvents(events, change - w, change + w) == []
  {
    if events != [] {
      NegativeWindowMatchesNothing(events[..|events| - 1], change, w);
    }
  }

  // ---------------------------------------------------------------------
  // match_change_point_to_event

  /** What a matching run ends in. */
  datatype MatchOutcome<A> =
    | NoChangeDate                         // no draws, or the index lookup raised
    | MissingEvents(changeDate: Day)        // events never loaded: returned before filtering
    | Matched(changeDate: Day, windowStart: Day, windowEnd: Day, events: seq<Event<A>>)

  /** The change date is `priceIndex[int(mean(tau))]`; without events the run
      stops there; otherwise the events within `window_days` of it are matched. */
  function ChangePointEvents<A>(priceIndex: seq<Day>, chains: seq<seq<int>>, events: Option<seq<Event<A>>>,
                                windowDays: int := DefaultWindowDays): (r: MatchOutcome<A>)
    ensures r.NoChangeDate? <==>
      MeanIndex(BayesianModel.Pool(chains)).None? || At(priceIndex, MeanIndex(BayesianModel.Pool(chains)).value).None?
    ensures !r.NoChangeDate? ==>
      r.changeDate == At(priceIndex, MeanIndex(BayesianModel.Pool(chains)).value).value
    ensures r.MissingEvents? <==> !r.NoChangeDate? && events.None?
    ensures r.Matched? ==>
      && r.changeDate - r.windowStart == windowDays && r.windowEnd - r.changeDate == windowDays
      && Embeds(Positions(events.value, WindowMask(r.windowStart, r.windowEnd)), r.events, events.value)
      && forall i :: 0 <= i < |events.value| ==>
           ((r.windowStart <= events.value[i].date <= r.windowEnd)
             <==> i in Positions(events.value, WindowMask(r.windowStart, r.windowEnd)))
  {
    match MeanIndex(BayesianModel.Pool(chains))
    case None => NoChangeDate
    case Some(t) =>
      match At(priceIndex, t)
      case None => NoChangeDate
      case Some(c) =>
        if events.None? then MissingEvents(c)
        else
          var start, end := c - windowDays, c + windowDays;
          FilterPositions(events.value, WindowMask(start, end));
          Matched(c, start, end, MatchEvents(events.value, start, end))
  }

  /** Draws that stay within the positions of the price index always yield
      a change date: the date at the truncated mean of the draws. */
  lemma ChangeDateInRange<A>(priceIndex: seq<Day>, chains: seq<seq<int>>, events: Option<seq<Event<A>>>,
                             windowDays: int, lo: int, hi: int)
    requires 0 <= lo && hi < |priceIndex|
    requires BayesianModel.Pool(chains) != []
    requires forall c, d :: 0 <= c < |chains| && 0 <= d < |chains[c]| ==> lo <= chains[c][d] <= hi
    ensures var r := ChangePointEvents(priceIndex, chains, events, windowDays);
      var t := MeanIndex(BayesianModel.Pool(chains)).value;
      && !r.NoChangeDate?
      && lo <= t <= hi
      && r.changeDate == priceIndex[t]
  {
    BayesianModel.PoolBounds(chains, lo, hi);
    MeanIndexWithinDrawBounds(BayesianModel.Pool(chains), lo, hi);
  }

  /** With change date 2011-03-01 and the default 60-day window, an event on
      2011-02-15 (14 days before) is matched and one on 2011-06-01 (92 days
      after) is not. */
  lemma ExampleMarch2011<A>(a: A, b: A)
    ensures var change := DayNumber(Date(2011, 3, 1));
      var early := Event(DayNumber(Date(2011, 2, 15)), a);
      var late := Event(DayNumber(Date(2011, 6, 1)), b);
      && change - early.date == 14 && late.date - change == 92
      && MatchEvents([early, late], change - DefaultWindowDays, change + DefaultWindowDays) == [early]
  {
    var change := DayNumber(Date(2011, 3, 1));
    var early := Event(DayNumber(Date(2011, 2, 15)), a);
    var late := Event(DayNumber(Date(2011, 6, 1)), b);
    assert DaysBeforeYear(2011) == 734137;
    assert DaysBeforeMonth(2011, 2) == 31;
    assert DaysBeforeMonth(2011, 3) == 59;
    assert DaysBeforeMonth(2011, 6) == 151;
    assert change == 15034 && early.date == 15020 && late.date == 15126;
    var mask := WindowMask<A>(change - DefaultWindowDays, change + DefaultWindowDays);
    assert mask(early) && !mask(late);
    assert [early, late][..1] == [early];
    assert [early][..0] == [];
    assert Filter([early], mask) == [early];
  }

  /** The posterior mean and the posterior mode are different estimates: for
      the draws 0, 0, 3 this file's change index is 1 while the modal `tau`
      of `run_volatility_inference` is 0. */
  lemma MeanIndexDiffersFromMode()
    ensures MeanIndex([0, 0, 3]) == Some(1)
    ensures BayesianModel.Mode([0, 0, 3]) == Some(0)
  {
    var s := [0, 0, 3];
    assert s[..2][..1][..0] == [] && s[..2][..1] == [0] && s[..2] == [0, 0];
    assert Sum(s[..2][..1][..0]) == 0;
    assert Sum(s[..2][..1]) == 0;
    assert Sum(s[..2]) == 0;
    assert Sum(s) == 3;
    var m := BayesianModel.Mode(s).value;
    assert multiset(s)[0] == 2 && multiset(s)[3] == 1;
    assert BayesianModel.Beats(s, m, 0);
  }

  /** The date index differs from `log_return_index`: when the first price
      row is the only one without a log return (the usual shape, a log
      return needs a previous price), position `t` of the log-return index is
      row `t + 1` of the price frame, so this file's lookup of an index
      finds the date one row earlier than the lookup in
      `run_volatility_inference`. */
  lemma LogReturnIndexIsShifted<V>(f: BayesianModel.PriceFrame<V>, t: int)
    requires |f.rows| >= 2 && f.rows[0].logReturn.None?
    requires forall i :: 1 <= i < |f.rows| ==> f.rows[i].logReturn.Some?
    requires 0 <= t < |f.rows| - 1
    ensures BayesianModel.BuildVolatilityModel(f).Some?
    ensures |BayesianModel.BuildVolatilityModel(f).value.logReturnIndex| == |f.rows| - 1
    ensures BayesianModel.BuildVolatilityModel(f).value.logReturnIndex[t] == f.rows[t + 1].date
  {
    var col := BayesianModel.LogReturnColumn(f);
    DropLeadingMissing(col);
    BayesianModel.DropNaEmptyIffAllMissing(col);
    var m := BayesianModel.BuildVolatilityModel(f).value;
    assert m.logReturnIndex == BayesianModel.Dates(col[1..]);
    assert col[1..][t] == col[t + 1];
  }

  /** A column whose only missing entry is its first loses exactly that entry. */
  lemma DropLeadingMissing<V>(col: seq<BayesianModel.Obs<V>>)
    requires col != [] && col[0].value.None?
    requires forall i :: 1 <= i < |col| ==> col[i].value.Some?
    ensures BayesianModel.DropNa(col) == col[1..]
  {
    var p := BayesianModel.Present<V>;
    assert col == [col[0]] + col[1..];
    FilterConcat([col[0]], col[1..], p);
    assert Filter([col[0]], p) == [] by { assert [col[0]][..0] == []; }
    FilterAll(col[1..], p);
  }

  // ---------------------------------------------------------------------
  // The object whose fields the analysis fills in

  class ChangePointAnalysis<A> {
    var priceIndex: seq<Day>
    var trace: seq<seq<int>>
    var events: Option<seq<Event<A>>>
    var changeDate: Option<Day>

    /** `__init__` with the price frame's date index and the trace's `tau` draws per chain. */
    constructor (priceIndex: seq<Day>, trace: seq<seq<int>>)
      ensures this.priceIndex == priceIndex && this.trace == trace
      ensures events == None && changeDate == None
    {
      this.priceIndex, this.trace := priceIndex, trace;
      events, changeDate := None, None;
    }

    /** `load_event_data` with the rows the CSV held. */
    method LoadEventData(loaded: seq<Event<A>>) returns (r: seq<Event<A>>)
      modifies this`events
      ensures events == Some(loaded) && r == loaded
    {
      events := Some(loaded);
      r := loaded;
    }

    /** `match_change_point_to_event`: `change_date` is set as soon as the
        lookup succeeds, before the guard on `events`. */
    method MatchChangePointToEvent(windowDays: int := DefaultWindowDays) returns (r: MatchOutcome<A>)
      modifies this`changeDate
      ensures r == ChangePointEvents(priceIndex, trace, events, windowDays)
      ensures changeDate == if r.NoChangeDate? then old(changeDate) else Some(r.changeDate)
    {
      r := ChangePointEvents(priceIndex, trace, events, windowDays);
      if !r.NoChangeDate? {
        changeDate := Some(r.changeDate);
      }
    }

    /** `run_analysis` after the plots: load the events, then match with the default window. */
    method RunAnalysis(loaded: seq<Event<A>>) returns (r: MatchOutcome<A>)
      modifies this`events, this`changeDate
      ensures events == Some(loaded)
      ensures r == ChangePointEvents(priceIndex, trace, Some(loaded), DefaultWindowDays)
      ensures changeDate == if r.NoChangeDate? then old(changeDate) else Some(r.changeDate)
      ensures r.NoChangeDate? || r.Matched?
    {
      var _ := LoadEventData(loaded);
      r := MatchChangePointToEvent();
    }
  }
}
