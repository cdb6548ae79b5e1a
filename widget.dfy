/**
 * The widget's refresh: fetch, then for each instrument in watchlist order
 * look up its rows, drop incomplete rows, find the baseline, hand the
 * normalised series to its plot and widen the shared vertical range.
 */
module Widget {
  import opened Wrappers
  import opened Samples
  import opened Normalise
  import opened Watchlist

  /** Why one instrument's step raised: KeyError on `data[code]`, or IndexError on `[-1]` of an empty selection. */
  datatype StepFailure = MissingColumn | NoBaseline

  /** The exception that ends a refresh, with the position in the watchlist of the instrument that raised it. */
  datatype UpdateError = UpdateError(position: nat, code: string, kind: StepFailure)

  datatype Outcome = Done | Raised(error: UpdateError)

  /** The per-instrument lookups of one loop iteration, up to the point where they can raise. */
  function Prepare(table: RawTable, code: string, midnight: int): (r: Result<Instrument, StepFailure>)
    ensures r.Failure? ==> (r.error == MissingColumn <==> code !in table)
    ensures r.Success? ==> code in table && r.value.rows == DropNa(table[code])
                           && Baseline(r.value.rows, midnight) == Some(r.value.baseline)
    ensures code in table ==> (r.Failure? <==> forall i :: 0 <= i < |DropNa(table[code])| ==> DropNa(table[code])[i].instant >= midnight)
  {
    if code !in table then Failure(MissingColumn)
    else
      var rows := DropNa(table[code]);
      BaselineIsLastBefore(rows, midnight);
      match Baseline(rows, midnight)
      case None => Failure(NoBaseline)
      case Some(b) => Success(Instrument(rows, b))
  }

  /**
   * The instruments of a whole refresh, or the exception of the first one
   * that raises; nothing after that instrument is looked at.
   */
  function PrepareAll(table: RawTable, codes: seq<string>, midnight: int): (r: Result<seq<Instrument>, UpdateError>)
    ensures r.Success? ==> |r.value| == |codes|
    ensures r.Success? ==>
      forall k :: 0 <= k < |codes| ==> Prepare(table, codes[k], midnight) == Success(r.value[k])
    ensures r.Failure? ==>
      && r.error.position < |codes|
      && r.error.code == codes[r.error.position]
      && Prepare(table, codes[r.error.position], midnight) == Failure(r.error.kind)
      && (forall k :: 0 <= k < r.error.position ==> Prepare(table, codes[k], midnight).Success?)
  {
    if codes == [] then Success([])
    else
      var n := |codes| - 1;
      assert forall k :: 0 <= k < n ==> codes[..n][k] == codes[k];
      match PrepareAll(table, codes[..n], midnight)
      case Failure(e) => Failure(e)
      case Success(ps) =>
        match Prepare(table, codes[n], midnight)
        case Failure(kind) => Failure(UpdateError(n, codes[n], kind))
        case Success(p) => Success(ps + [p])
  }

  /** The instruments before the first one that raises all succeed. */
  lemma {:induction false} FailurePrefixSucceeds(table: RawTable, codes: seq<string>, midnight: int)
    requires PrepareAll(table, codes, midnight).Failure?
    ensures PrepareAll(table, codes[..PrepareAll(table, codes, midnight).error.position], midnight).Success?
    decreases |codes|
  {
    var n := |codes| - 1;
    var pos := PrepareAll(table, codes, midnight).error.position;
    if PrepareAll(table, codes[..n], midnight).Failure? {
      FailurePrefixSucceeds(table, codes[..n], midnight);
      assert codes[..n][..pos] == codes[..pos];
    } else {
      assert pos == n;
    }
  }

  /** The series of each instrument, in order: what the plots show after a refresh. */
  function Plotted(ps: seq<Instrument>): (r: seq<seq<Point>>)
    requires NonZeroBaselines(ps)
    ensures |r| == |ps| && forall k :: 0 <= k < |ps| ==> r[k] == Series(ps[k].rows, ps[k].baseline)
  {
    seq(|ps|, k requires 0 <= k < |ps| => Series(ps[k].rows, ps[k].baseline))
  }

  /**
   * Every instrument that the refresh reaches and divides by, in watchlist
   * order up to the first one that raises, has a non-zero baseline.
   */
  predicate NonZeroBaselinesIn(table: RawTable, codes: seq<string>, midnight: int) {
    forall k :: 0 <= k < |codes| && (forall j :: 0 <= j <= k ==> Prepare(table, codes[j], midnight).Success?) ==>
      Prepare(table, codes[k], midnight).value.baseline != 0.0
  }

  /** The instrument after a successful prefix is divided by only when its baseline is non-zero. */
  lemma StepNonZero(table: RawTable, codes: seq<string>, i: nat, midnight: int)
    requires NonZeroBaselinesIn(table, codes, midnight)
    requires i < |codes| && PrepareAll(table, codes[..i], midnight).Success?
    requires Prepare(table, codes[i], midnight).Success?
    ensures Prepare(table, codes[i], midnight).value.baseline != 0.0
  {
    assert forall j :: 0 <= j < i ==> codes[..i][j] == codes[j];
  }

  /** The instruments of a successful prefix of the refresh all have non-zero baselines. */
  lemma PreparedNonZero(table: RawTable, codes: seq<string>, n: nat, midnight: int)
    requires NonZeroBaselinesIn(table, codes, midnight)
    requires n <= |codes| && PrepareAll(table, codes[..n], midnight).Success?
    ensures NonZeroBaselines(PrepareAll(table, codes[..n], midnight).value)
  {
    assert forall k :: 0 <= k < n ==> codes[..n][k] == codes[k];
  }

  class StockWidget {
    const tickers: Tickers
    /** The series last handed to each instrument's plot, in watchlist order. */
    var plots: seq<seq<Point>>
    /** The vertical range last handed to the plot, if any. */
    var yRange: Option<Range>

    ghost predicate Valid()
      reads this
    {
      |plots| == |tickers.tickers|
    }

    /** One empty plot per instrument; the first refresh is a separate call to Update. */
    constructor (tickers: Tickers)
      ensures this.tickers == tickers && Valid()
      ensures plots == seq(|tickers.tickers|, _ => []) && yRange == None
    {
      this.tickers := tickers;
      plots := seq(|tickers.tickers|, _ => []);
      yRange := None;
    }

    /**
     * `update`. The fetch result is the parameter `fetched`; midnight, morning
     * and evening are the day's boundary instants. When every instrument
     * succeeds, each plot shows its instrument's series and the range is the
     * fold over all instruments. When instrument k raises, plots 0..k-1 have
     * already been replaced, the rest and the range are untouched.
     */
    method Update(fetched: RawTable, midnight: int, morning: int, evening: int) returns (outcome: Outcome)
      requires Valid()
      requires NonZeroBaselinesIn(fetched, Codes(tickers.tickers), midnight)
      modifies this, tickers`data
      ensures Valid() && tickers.data == Some(fetched)
      ensures Refreshed(fetched, Codes(tickers.tickers), midnight, morning, evening,
                        old(plots), old(yRange), outcome, plots, yRange)
    {
      var _ := tickers.Update(fetched);
      ghost var codes := Codes(tickers.tickers);
      var yMin, yMax := SeedLow, SeedHigh;
      ghost var done: seq<Instrument> := [];
      var i := 0;
      while i < |tickers.tickers|
        invariant 0 <= i <= |tickers.tickers| == |plots|
        invariant tickers.data == Some(fetched) && yRange == old(yRange)
        invariant PrepareAll(fetched, codes[..i], midnight) == Success(done)
        invariant NonZeroBaselines(done)
        invariant Range(yMin, yMax) == FoldRange(done, morning, evening)
        invariant plots == Plotted(done) + old(plots)[i..]
      {
        // `for ticker in self.tickers` calls __getitem__ with 0, 1, ..., which yields
        // exactly tickers[i] at step i (Watchlist.IterationYieldsList)
        var ticker := tickers.tickers[i];
        if ticker.code !in fetched {
          outcome := Raised(UpdateError(i, ticker.code, MissingColumn));
          RefreshFails(fetched, codes, i, done, midnight, morning, evening, old(plots), old(yRange), plots);
          return;
        }
        var rows := DropNa(fetched[ticker.code]);
        var todayClose := InSession(rows, morning, evening);
        var lastClose := Baseline(rows, midnight);
        if lastClose.None? {
          outcome := Raised(UpdateError(i, ticker.code, NoBaseline));
          RefreshFails(fetched, codes, i, done, midnight, morning, evening, old(plots), old(yRange), plots);
          return;
        }
        var b := lastClose.value;
        ghost var p := Instrument(rows, b);
        assert Prepare(fetched, codes[i], midnight) == Success(p);
        StepNonZero(fetched, codes, i, midnight);
        var yValues := Series(rows, b);
        if |todayClose| > 0 {
          yMin := Min(yMin, MinClose(todayClose) / b);
          yMax := Max(yMax, MaxClose(todayClose) / b);
        }
        assert Range(yMin, yMax) == Widen(FoldRange(done, morning, evening), p, morning, evening);
        PlottedStep(plots, done, old(plots), i, p);
        plots := plots[i := yValues];
        PrepareStep(fetched, codes, i, done, midnight);
        FoldRangeStep(done, p, morning, evening);
        done := done + [p];
        i := i + 1;
      }
      yRange := Some(Range(yMin, yMax));
      outcome := Done;
      RefreshSucceeds(fetched, codes, done, midnight, morning, evening, old(plots), old(yRange), plots);
    }
  }

  /**
   * What the plots and the range show after a refresh that began with plots
   * `before` and range `oldRange`. When every instrument succeeds, each plot
   * shows its instrument's series and the range is the fold over all of them.
   * When the instrument at position k raises, plots 0..k-1 already show their
   * series, the others and the range are as before.
   */
  ghost predicate Refreshed(table: RawTable, codes: seq<string>, midnight: int, morning: int, evening: int,
                            before: seq<seq<Point>>, oldRange: Option<Range>,
                            outcome: Outcome, plots: seq<seq<Point>>, yRange: Option<Range>)
    requires NonZeroBaselinesIn(table, codes, midnight)
  {
    && |before| == |codes|
    && match PrepareAll(table, codes, midnight)
       case Success(ps) =>
         PreparedNonZero(table, codes, |codes|, midnight);
         assert codes[..|codes|] == codes;
         outcome == Done && plots == Plotted(ps) && yRange == Some(FoldRange(ps, morning, evening))
       case Failure(e) =>
         FailurePrefixSucceeds(table, codes, midnight);
         PreparedNonZero(table, codes, e.position, midnight);
         && outcome == Raised(e)
         && plots == Plotted(PrepareAll(table, codes[..e.position], midnight).value) + before[e.position..]
         && yRange == oldRange
  }

  lemma RefreshSucceeds(table: RawTable, codes: seq<string>, done: seq<Instrument>,
                        midnight: int, morning: int, evening: int,
                        before: seq<seq<Point>>, oldRange: Option<Range>, plots: seq<seq<Point>>)
    requires NonZeroBaselinesIn(table, codes, midnight) && NonZeroBaselines(done)
    requires |before| == |codes| && PrepareAll(table, codes[..|codes|], midnight) == Success(done)
    requires plots == Plotted(done) + before[|codes|..]
    ensures Refreshed(table, codes, midnight, morning, evening, before, oldRange,
                      Done, plots, Some(FoldRange(done, morning, evening)))
  {
    assert codes[..|codes|] == codes;
    assert before[|codes|..] == [];
    assert plots == Plotted(done);
  }

  lemma RefreshFails(table: RawTable, codes: seq<string>, i: nat, done: seq<Instrument>,
                     midnight: int, morning: int, evening: int,
                     before: seq<seq<Point>>, oldRange: Option<Range>, plots: seq<seq<Point>>)
    requires NonZeroBaselinesIn(table, codes, midnight) && NonZeroBaselines(done)
    requires i < |codes| == |before| && PrepareAll(table, codes[..i], midnight) == Success(done)
    requires Prepare(table, codes[i], midnight).Failure?
    requires plots == Plotted(done) + before[i..]
    ensures Refreshed(table, codes, midnight, morning, evening, before, oldRange,
                      Raised(UpdateError(i, codes[i], Prepare(table, codes[i], midnight).error)), plots, oldRange)
  {
    FirstFailure(table, codes, i, midnight);
  }

  /** One more successful instrument extends the prepared prefix by that instrument. */
  lemma PrepareStep(table: RawTable, codes: seq<string>, i: nat, done: seq<Instrument>, midnight: int)
    requires i < |codes|
    requires PrepareAll(table, codes[..i], midnight) == Success(done)
    requires Prepare(table, codes[i], midnight).Success?
    ensures PrepareAll(table, codes[..i + 1], midnight) ==
      Success(done + [Prepare(table, codes[i], midnight).value])
  {
    assert codes[..i + 1][..i] == codes[..i];
  }

  /** Replacing plot i with instrument i's series extends the updated prefix by one. */
  lemma PlottedStep(plots: seq<seq<Point>>, done: seq<Instrument>, before: seq<seq<Point>>, i: nat, p: Instrument)
    requires NonZeroBaselines(done) && p.baseline != 0.0
    requires i == |done| < |before| && plots == Plotted(done) + before[i..]
    ensures NonZeroBaselines(done + [p])
    ensures plots[i := Series(p.rows, p.baseline)] == Plotted(done + [p]) + before[i + 1..]
  {
  }

  /** Folding one more instrument is one more Widen step. */
  lemma FoldRangeStep(done: seq<Instrument>, p: Instrument, morning: int, evening: int)
    requires NonZeroBaselines(done) && p.baseline != 0.0
    ensures NonZeroBaselines(done + [p])
    ensures FoldRange(done + [p], morning, evening) == Widen(FoldRange(done, morning, evening), p, morning, evening)
  {
  }

  /**
   * If the first i instruments succeed and instrument i raises, the refresh
   * raises exactly that instrument's exception.
   */
  lemma {:induction false} FirstFailure(table: RawTable, codes: seq<string>, i: nat, midnight: int)
    requires i < |codes|
    requires PrepareAll(table, codes[..i], midnight).Success?
    requires Prepare(table, codes[i], midnight).Failure?
    ensures PrepareAll(table, codes, midnight) ==
      Failure(UpdateError(i, codes[i], Prepare(table, codes[i], midnight).error))
    decreases |codes|
  {
    var n := |codes| - 1;
    if n > i {
      assert codes[..n][..i] == codes[..i] && codes[..n][i] == codes[i];
      FirstFailure(table, codes[..n], i, midnight);
    }
  }
}
