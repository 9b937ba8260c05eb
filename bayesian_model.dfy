/** The deterministic layer of `RegimeMixtureModel` around its three library
    calls: the guards and breakpoint trimming around the PELT detector, the
    `tau` bounds and the index-to-scale switch of the volatility model, and
    the posterior mode of `tau` with its date lookup.  The detector is a
    parameter (`pelt`), the sampler is a parameter returning the `tau` draws
    of each chain, and prices, log returns and scales are opaque values of
    type `V` or `S`. */
module BayesianModel {
  import opened Seqs
  import opened Calendar

  // ---------------------------------------------------------------------
  // Data

  /** One row of the enriched price frame: its date and its `Price` and
      `LogReturn` cells, `None` standing for NaN. */
  datatype PriceRow<V> = PriceRow(date: Day, price: Option<V>, logReturn: Option<V>)

  /** The frame `load_data` reads, indexed by date; `hasPrice` says whether
      the CSV has a `Price` column at all. */
  datatype PriceFrame<V> = PriceFrame(hasPrice: bool, rows: seq<PriceRow<V>>)

  /** One entry of a date-indexed series. */
  datatype Obs<V> = Obs(date: Day, value: Option<V>)

  function PriceColumn<V>(f: PriceFrame<V>): (r: seq<Obs<V>>)
    ensures |r| == |f.rows|
    ensures forall i :: 0 <= i < |r| ==> r[i] == Obs(f.rows[i].date, f.rows[i].price)
  {
    seq(|f.rows|, i requires 0 <= i < |f.rows| => Obs(f.rows[i].date, f.rows[i].price))
  }

  function LogReturnColumn<V>(f: PriceFrame<V>): (r: seq<Obs<V>>)
    ensures |r| == |f.rows|
    ensures forall i :: 0 <= i < |r| ==> r[i] == Obs(f.rows[i].date, f.rows[i].logReturn)
  {
    seq(|f.rows|, i requires 0 <= i < |f.rows| => Obs(f.rows[i].date, f.rows[i].logReturn))
  }

  /** `isna().all()`: every entry is missing (vacuously true of an empty column). */
  predicate AllMissing<V>(col: seq<Obs<V>>)
  {
    forall i :: 0 <= i < |col| ==> col[i].value.None?
  }

  /** The entry's value is not NaN. */
  predicate Present<V>(o: Obs<V>)
  {
    o.value.Some?
  }

  /** `Series.dropna()`. */
  function DropNa<V>(col: seq<Obs<V>>): (r: seq<Obs<V>>)
    ensures forall k :: 0 <= k < |r| ==> r[k].value.Some?
  {
    Filter(col, Present)
  }

  /** `.values` of a series without missing entries. */
  function Values<V>(series: seq<Obs<V>>): (r: seq<V>)
    requires forall k :: 0 <= k < |series| ==> series[k].value.Some?
    ensures |r| == |series|
    ensures forall k :: 0 <= k < |series| ==> series[k].value == Some(r[k])
  {
    seq(|series|, k requires 0 <= k < |series| => series[k].value.value)
  }

  /** The dates of a series (its index). */
  function Dates<V>(series: seq<Obs<V>>): (r: seq<Day>)
    ensures |r| == |series|
    ensures forall k :: 0 <= k < |series| ==> r[k] == series[k].date
  {
    seq(|series|, k requires 0 <= k < |series| => series[k].date)
  }

  /** `dropna` keeps exactly the entries that are present, in their original
      order and unchanged: the kept positions increase, each holds the entry
      it came from, and a position is kept if and only if its value is present. */
  lemma DropNaKeepsExactlyPresent<V>(col: seq<Obs<V>>)
    ensures Embeds(Positions(col, Present), DropNa(col), col)
    ensures forall i :: 0 <= i < |col| ==>
      (col[i].value.Some? <==> i in Positions(col, Present))
  {
    FilterPositions(col, Present);
  }

  /** Nothing survives `dropna` exactly when every entry is missing. */
  lemma DropNaEmptyIffAllMissing<V>(col: seq<Obs<V>>)
    ensures DropNa(col) == [] <==> AllMissing(col)
  {
    DropNaKeepsExactlyPresent(col);
    if DropNa(col) == [] {
      assert |Positions(col, Present)| == 0;
      forall i | 0 <= i < |col| ensures col[i].value.None? {
        assert i !in Positions(col, Present);
      }
    } else {
      var p := Positions(col, Present);
      assert p[0] < |col| && DropNa(col)[0] == col[p[0]];
    }
  }

  // ---------------------------------------------------------------------
  // Change-point post-processing (change_point_detection_with_ruptures)

  /** The detector appends the series length as an "end of series"
      breakpoint; it is removed when (and only when) it is there. */
  function TrimEndOfSeries(bps: seq<int>, n: int): (r: seq<int>)
    ensures |bps| - 1 <= |r| <= |bps| && r == bps[..|r|]
    ensures |r| < |bps| <==> (bps != [] && bps[|bps| - 1] == n)
    ensures bps == [] ==> r == []
  {
    if bps != [] && bps[|bps| - 1] == n then bps[..|bps| - 1] else bps
  }

  predicate StrictlyIncreasing(s: seq<int>)
  {
    forall i, j :: 0 <= i < j < |s| ==> s[i] < s[j]
  }

  /** `index[breakpoints]`: the date at each breakpoint, or `None` when one of
      them is out of range (pandas raises `IndexError`). */
  function IndexDates<V>(series: seq<Obs<V>>, bps: seq<int>): (r: Option<seq<Day>>)
    ensures r.Some? <==> forall k :: 0 <= k < |bps| ==> At(series, bps[k]).Some?
    ensures r.Some? ==> |r.value| == |bps|
    ensures r.Some? ==> forall k :: 0 <= k < |bps| ==>
      At(series, bps[k]).Some? && r.value[k] == At(series, bps[k]).value.date
  {
    if bps == [] then Some([])
    else
      match (IndexDates(series, bps[..|bps| - 1]), At(series, bps[|bps| - 1]))
      case (Some(ds), Some(o)) => Some(ds + [o.date])
      case _ => None
  }

  /** What a detection run ends in. */
  datatype Detection =
    | PriceMissing                                   // `Price` absent or all NaN: skipped
    | EmptyAfterDropna                               // nothing left after `dropna`: skipped
    | BreakpointOutOfRange                           // a breakpoint outside the series (IndexError)
    | Detected(breakpoints: seq<int>, dates: seq<Day>)  // trimmed breakpoints and their dates

  /** Frequentist detection: guard, `dropna`, run the detector on the values,
      trim the trailing breakpoint, map the rest to dates. */
  function ChangePointDetection<V>(f: PriceFrame<V>, pelt: seq<V> -> seq<int>): (r: Detection)
    ensures r.PriceMissing? <==> !f.hasPrice || AllMissing(PriceColumn(f))
    ensures r.Detected? ==> |r.dates| == |r.breakpoints|
  {
    if !f.hasPrice || AllMissing(PriceColumn(f)) then PriceMissing
    else
      var series := DropNa(PriceColumn(f));
      if series == [] then EmptyAfterDropna
      else
        var bps := TrimEndOfSeries(pelt(Values(series)), |series|);
        match IndexDates(series, bps)
        case None => BreakpointOutOfRange
        case Some(dates) => Detected(bps, dates)
  }

  /** The second guard never fires: `isna().all()` already holds of a column
      with no present value, including an empty one. */
  lemma EmptyAfterDropnaUnreachable<V>(f: PriceFrame<V>, pelt: seq<V> -> seq<int>)
    ensures !ChangePointDetection(f, pelt).EmptyAfterDropna?
  {
    DropNaEmptyIffAllMissing(PriceColumn(f));
  }

  /** A detector run that yields change points and dates had a `Price`
      column with a present value; each date is the date of the present price
      at that breakpoint, and the breakpoints are the detector's output less
      its end-of-series marker. */
  lemma DetectedDatesAreSeriesDates<V>(f: PriceFrame<V>, pelt: seq<V> -> seq<int>)
    requires ChangePointDetection(f, pelt).Detected?
    ensures f.hasPrice && !AllMissing(PriceColumn(f))
    ensures var series := DropNa(PriceColumn(f));
      var r := ChangePointDetection(f, pelt);
      && r.breakpoints == TrimEndOfSeries(pelt(Values(series)), |series|)
      && forall k :: 0 <= k < |r.breakpoints| ==>
           At(series, r.breakpoints[k]).Some? && r.dates[k] == At(series, r.breakpoints[k]).value.date
  {
    EmptyAfterDropnaUnreachable(f, pelt);
  }

  /** From a strictly increasing breakpoint list that stays within the
      series length, trimming removes the only occurrence of the length. */
  lemma TrimNeverKeepsLength(bps: seq<int>, n: int)
    requires StrictlyIncreasing(bps)
    requires forall k :: 0 <= k < |bps| ==> bps[k] <= n
    ensures n !in TrimEndOfSeries(bps, n)
    ensures forall k :: 0 <= k < |TrimEndOfSeries(bps, n)| ==> TrimEndOfSeries(bps, n)[k] < n
  {
    var r := TrimEndOfSeries(bps, n);
    forall k | 0 <= k < |r| ensures r[k] < n {
      if |r| == |bps| {
        assert bps[|bps| - 1] != n;
      } else {
        assert r[k] == bps[k] < bps[|bps| - 1] == n;
      }
    }
  }

  /** With a detector whose breakpoints are non-negative, strictly increasing and
      end at the series length (as PELT's do), detection succeeds: every
      trimmed breakpoint is a position in the series, and its date is the
      date of that position. */
  lemma WellFormedDetectorIndexesInRange<V>(f: PriceFrame<V>, pelt: seq<V> -> seq<int>)
    requires f.hasPrice && !AllMissing(PriceColumn(f))
    requires var series := DropNa(PriceColumn(f));
      var out := pelt(Values(series));
      && out != [] && out[0] >= 0 && StrictlyIncreasing(out) && out[|out| - 1] == |series|
    ensures var series := DropNa(PriceColumn(f));
      var out := pelt(Values(series));
      var r := ChangePointDetection(f, pelt);
      && r.Detected?
      && r.breakpoints == out[..|out| - 1]
      && forall k :: 0 <= k < |r.breakpoints| ==>
           0 <= r.breakpoints[k] < |series| && r.dates[k] == series[r.breakpoints[k]].date
  {
    var series := DropNa(PriceColumn(f));
    DropNaEmptyIffAllMissing(PriceColumn(f));
    var out := pelt(Values(series));
    var bps := TrimEndOfSeries(out, |series|);
    TrimNeverKeepsLength(out, |series|);
    assert forall k :: 0 <= k < |bps| ==> 0 <= bps[k] < |series| by {
      forall k | 0 <= k < |bps| ensures 0 <= bps[k] {
        assert k == 0 || out[0] < out[k];
      }
    }
    assert IndexDates(series, bps).Some?;
  }

  // ---------------------------------------------------------------------
  // The volatility model (build_volatility_model_with_pymc)

  /** What the PyMC model is built from: the log returns after `dropna`,
      their dates (`log_return_index`) and the bounds of `tau`'s
      `DiscreteUniform` prior. */
  datatype VolatilityModel<V> = VolatilityModel(data: seq<V>, logReturnIndex: seq<Day>, tauLower: int, tauUpper: int)

  /** `None` when the log-return series is empty (the model is not built).
      Otherwise `data` and `logReturnIndex` are the present log returns and
      their dates, in row order: entry `k` comes from the `k`-th row that has
      a log return, and every such row contributes one entry. */
  function BuildVolatilityModel<V>(f: PriceFrame<V>): (r: Option<VolatilityModel<V>>)
    ensures r.None? <==> AllMissing(LogReturnColumn(f))
    ensures r.Some? ==>
      && |r.value.data| == |r.value.logReturnIndex| >= 1
      && r.value.tauLower == 0 && r.value.tauUpper == |r.value.data| - 1
    ensures r.Some? ==>
      var rowsUsed := Positions(LogReturnColumn(f), Present);
      && |rowsUsed| == |r.value.data|
      && (forall k :: 0 <= k < |rowsUsed| ==>
            && rowsUsed[k] < |f.rows|
            && r.value.logReturnIndex[k] == f.rows[rowsUsed[k]].date
            && Some(r.value.data[k]) == f.rows[rowsUsed[k]].logReturn)
      && (forall k, l :: 0 <= k < l < |rowsUsed| ==> rowsUsed[k] < rowsUsed[l])
      && (forall i :: 0 <= i < |f.rows| ==> (f.rows[i].logReturn.Some? <==> i in rowsUsed))
  {
    var logReturns := DropNa(LogReturnColumn(f));
    DropNaEmptyIffAllMissing(LogReturnColumn(f));
    DropNaKeepsExactlyPresent(LogReturnColumn(f));
    if logReturns == [] then None
    else Some(VolatilityModel(Values(logReturns), Dates(logReturns), 0, |logReturns| - 1))
  }

  datatype Regime = Regime1 | Regime2

  /** The regime of each of `n` observations: `idx < tau` selects regime 1. */
  function Regimes(n: nat, tau: int): (r: seq<Regime>)
    ensures |r| == n
  {
    seq(n, i requires 0 <= i < n => if i < tau then Regime1 else Regime2)
  }

  function ScaleOf<S>(g: Regime, sigma1: S, sigma2: S): S
  {
    match g
    case Regime1 => sigma1
    case Regime2 => sigma2
  }

  /** `pm.math.switch(idx < tau, sigma_1, sigma_2)` over `idx = 0 .. n-1`:
      the scale regime by regime. */
  function ScaleSwitch<S>(n: nat, tau: int, sigma1: S, sigma2: S): (r: seq<S>)
    ensures |r| == n
    ensures forall i :: 0 <= i < n ==> r[i] == if i < tau then sigma1 else sigma2
  {
    var g := Regimes(n, tau);
    seq(n, i requires 0 <= i < n => ScaleOf(g[i], sigma1, sigma2))
  }

  lemma {:induction false} ConstantCount<T>(k: nat, x: T)
    ensures multiset(seq(k, _ => x))[x] == k
  {
    if k > 0 {
      ConstantCount(k - 1, x);
      assert seq(k, _ => x) == seq(k - 1, _ => x) + [x];
    }
  }

  /** For `tau` in `[0, n]` the regimes form one block of `tau` observations
      in regime 1 followed by one block of `n - tau` in regime 2. */
  lemma RegimeBlocks(n: nat, tau: int)
    requires 0 <= tau <= n
    ensures Regimes(n, tau) == seq(tau, _ => Regime1) + seq(n - tau, _ => Regime2)
    ensures multiset(Regimes(n, tau))[Regime1] == tau
    ensures multiset(Regimes(n, tau))[Regime2] == n - tau
  {
    var a, b := seq(tau, _ => Regime1), seq(n - tau, _ => Regime2);
    assert Regimes(n, tau) == a + b;
    ConstantCount(tau, Regime1);
    ConstantCount(n - tau, Regime2);
    assert multiset(a)[Regime2] == 0 by { assert Regime2 !in a; }
    assert multiset(b)[Regime1] == 0 by { assert Regime1 !in b; }
  }

  /** Under the prior's bounds, regime 2 always covers at least one
      observation and regime 1 covers exactly `tau` of them. */
  lemma PriorTauSplitsSeries<V>(f: PriceFrame<V>, tau: int)
    requires BuildVolatilityModel(f).Some?
    requires var m := BuildVolatilityModel(f).value; m.tauLower <= tau <= m.tauUpper
    ensures var n := |BuildVolatilityModel(f).value.data|;
      && multiset(Regimes(n, tau))[Regime1] == tau
      && multiset(Regimes(n, tau))[Regime2] == n - tau >= 1
  {
    RegimeBlocks(|BuildVolatilityModel(f).value.data|, tau);
  }

  // ---------------------------------------------------------------------
  // The point estimate of tau (run_volatility_inference)

  /** `trace.posterior["tau"].values.flatten()`: the draws of every chain,
      chain after chain. */
  function Pool(chains: seq<seq<int>>): (r: seq<int>)
  {
    if chains == [] then [] else Pool(chains[..|chains| - 1]) + chains[|chains| - 1]
  }

  /** A value is in the pool exactly when some chain drew it. */
  lemma {:induction false} PoolMembership(chains: seq<seq<int>>, x: int)
    ensures x in Pool(chains) <==> exists c :: 0 <= c < |chains| && x in chains[c]
  {
    if chains != [] {
      var n := |chains| - 1;
      PoolMembership(chains[..n], x);
      if x in Pool(chains) && x !in chains[n] {
        var c :| 0 <= c < n && x in chains[..n][c];
        assert x in chains[c];
      }
      if exists c :: 0 <= c < |chains| && x in chains[c] {
        var c :| 0 <= c < |chains| && x in chains[c];
        if c < n { assert x in chains[..n][c]; }
      }
    }
  }

  /** Every chain's draws lie in `[lo, hi]`, so every pooled draw does. */
  lemma {:induction false} PoolBounds(chains: seq<seq<int>>, lo: int, hi: int)
    requires forall c, d :: 0 <= c < |chains| && 0 <= d < |chains[c]| ==> lo <= chains[c][d] <= hi
    ensures forall k :: 0 <= k < |Pool(chains)| ==> lo <= Pool(chains)[k] <= hi
  {
    if chains != [] {
      var n := |chains| - 1;
      PoolBounds(chains[..n], lo, hi);
      assert forall d :: 0 <= d < |chains[n]| ==> lo <= chains[n][d] <= hi;
    }
  }

  /** `m` is at least as frequent in `s` as `v`, and not larger than `v` when
      equally frequent: the order `mode().iloc[0]` picks by. */
  predicate Beats(s: seq<int>, m: int, v: int)
  {
    multiset(s)[v] < multiset(s)[m] || (multiset(s)[v] == multiset(s)[m] && m <= v)
  }

  /** `m` occurs in `s`, no value occurs more often, and among values that
      occur as often `m` is the smallest. */
  ghost predicate IsSmallestMode(s: seq<int>, m: int)
  {
    m in s && forall v :: Beats(s, m, v)
  }

  /** The best of `s[..k]` in the order `Beats`. */
  function BestOf(s: seq<int>, k: nat): (r: int)
    requires 0 < k <= |s|
    ensures r in s[..k]
    ensures forall j :: 0 <= j < k ==> Beats(s, r, s[j])
  {
    if k == 1 then s[0]
    else
      var b, c := BestOf(s, k - 1), s[k - 1];
      assert b in s[..k] by { assert s[..k - 1] <= s[..k]; }
      if Beats(s, c, b) && c != b then c else b
  }

  /** `Series.mode().iloc[0]`; `None` for no draws (pandas raises `IndexError`). */
  function Mode(s: seq<int>): (r: Option<int>)
    ensures r.None? <==> s == []
    ensures r.Some? ==> IsSmallestMode(s, r.value)
  {
    if s == [] then None
    else
      var m := BestOf(s, |s|);
      assert s[..|s|] == s;
      assert forall v :: Beats(s, m, v) by {
        forall v ensures Beats(s, m, v) {
          if v in s {
            var j :| 0 <= j < |s| && s[j] == v;
          }
        }
      }
      Some(m)
  }

  /** There is only one smallest mode, so `Mode` is fully determined by the
      property it is specified by. */
  lemma SmallestModeUnique(s: seq<int>, a: int, b: int)
    requires IsSmallestMode(s, a) && IsSmallestMode(s, b)
    ensures a == b
  {
    assert Beats(s, a, b) && Beats(s, b, a);
  }

  /** What a sampling run ends in. */
  datatype Inference =
    | NoModel                              // no model built: returned early
    | NoTauDate                            // no draws, or a mode outside the log-return index (IndexError)
    | Inferred(tauMode: int, tauDate: Day)  // the modal tau and its log-return date

  /** The mode of the pooled `tau` draws and its date in `log_return_index`. */
  function VolatilityInference<V>(model: Option<VolatilityModel<V>>, chains: seq<seq<int>>): (r: Inference)
    ensures r.NoModel? <==> model.None?
    ensures r.Inferred? ==> IsSmallestMode(Pool(chains), r.tauMode)
  {
    if model.None? then NoModel
    else
      match Mode(Pool(chains))
      case None => NoTauDate
      case Some(t) =>
        match At(model.value.logReturnIndex, t)
        case None => NoTauDate
        case Some(d) => Inferred(t, d)
  }

  /** Draws within the prior's bounds always yield a date: the modal `tau`
      is a position of the log-return index, and the reported date is the
      date at that position. */
  lemma ModalTauHasDate<V>(f: PriceFrame<V>, chains: seq<seq<int>>)
    requires BuildVolatilityModel(f).Some?
    requires Pool(chains) != []
    requires var m := BuildVolatilityModel(f).value;
      forall c, d :: 0 <= c < |chains| && 0 <= d < |chains[c]| ==> m.tauLower <= chains[c][d] <= m.tauUpper
    ensures var m := BuildVolatilityModel(f).value;
      var r := VolatilityInference(Some(m), chains);
      && r.Inferred?
      && 0 <= r.tauMode < |m.logReturnIndex|
      && r.tauDate == m.logReturnIndex[r.tauMode]
  {
    var m := BuildVolatilityModel(f).value;
    PoolBounds(chains, m.tauLower, m.tauUpper);
  }

  // ---------------------------------------------------------------------
  // The object whose fields the pipeline fills in

  class RegimeMixtureModel<V> {
    var df: PriceFrame<V>
    var changeDate: Option<seq<Day>>
    var model: Option<VolatilityModel<V>>
    var trace: Option<seq<seq<int>>>

    /** `__init__` with the frame `load_data` read. */
    constructor (df: PriceFrame<V>)
      ensures this.df == df && changeDate == None && model == None && trace == None
    {
      this.df := df;
      changeDate, model, trace := None, None, None;
    }

    /** `change_point_detection_with_ruptures`: sets `change_date` only when
        detection gets past its guards and the date lookup. */
    method ChangePointDetectionWithRuptures(pelt: seq<V> -> seq<int>) returns (r: Detection)
      modifies this`changeDate
      ensures r == ChangePointDetection(df, pelt)
      ensures changeDate == if r.Detected? then Some(r.dates) else old(changeDate)
    {
      r := ChangePointDetection(df, pelt);
      if r.Detected? {
        changeDate := Some(r.dates);
      }
    }

    /** `build_volatility_model_with_pymc`: sets `model` (and with it
        `log_return_index`) unless there are no log returns. */
    method BuildVolatilityModelWithPymc()
      modifies this`model
      ensures model == if BuildVolatilityModel(df).Some? then BuildVolatilityModel(df) else old(model)
    {
      var m := BuildVolatilityModel(df);
      if m.Some? {
        model := m;
      }
    }

    /** `run_volatility_inference`: without a model nothing happens; otherwise
        the trace is stored before the mode and its date are computed. */
    method RunVolatilityInference(sampler: VolatilityModel<V> -> seq<seq<int>>) returns (r: Inference)
      modifies this`trace
      ensures model.None? ==> trace == old(trace)
      ensures model.Some? ==> trace == Some(sampler(model.value))
      ensures r == VolatilityInference(model, if model.Some? then sampler(model.value) else [])
    {
      if model.None? {
        r := NoModel;
      } else {
        var draws := sampler(model.value);
        trace := Some(draws);
        r := VolatilityInference(model, draws);
      }
    }

    /** `run_model_and_infer` up to saving the trace.  A breakpoint outside
        the series raises `IndexError` in detection, which ends the run
        before the volatility model is built (`inference` is then `None`). */
    method RunModelAndInfer(pelt: seq<V> -> seq<int>, sampler: VolatilityModel<V> -> seq<seq<int>>)
      returns (detection: Detection, inference: Option<Inference>)
      modifies this`changeDate, this`model, this`trace
      ensures detection == ChangePointDetection(df, pelt)
      ensures changeDate == if detection.Detected? then Some(detection.dates) else old(changeDate)
      ensures detection.BreakpointOutOfRange? ==>
        inference.None? && model == old(model) && trace == old(trace)
      ensures !detection.BreakpointOutOfRange? ==>
        && model == (if BuildVolatilityModel(df).Some? then BuildVolatilityModel(df) else old(model))
        && trace == (if model.Some? then Some(sampler(model.value)) else old(trace))
        && inference == Some(VolatilityInference(model, if model.Some? then sampler(model.value) else []))
    {
      detection := ChangePointDetectionWithRuptures(pelt);
      if detection.BreakpointOutOfRange? {
        inference := None;
        return;
      }
      BuildVolatilityModelWithPymc();
      var r := RunVolatilityInference(sampler);
      inference := Some(r);
    }
  }
}
