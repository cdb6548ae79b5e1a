/**
 * The per-instrument data logic of the widget's refresh: the baseline close
 * before midnight, the baseline-relative series that is plotted, and the
 * running vertical range that the session band of every instrument widens.
 */
module Normalise {
  import opened Wrappers
  import opened Samples
  import opened Epoch

  /** The rows that survive `dropna()`. */
  function DropNa(rows: seq<Row>): seq<Row> {
    Filter(rows, Present)
  }

  /** The rows inside the inclusive session band [morning, evening]. */
  function InSession(rows: seq<Row>, morning: int, evening: int): seq<Row> {
    Filter(rows, Band(morning, evening))
  }

  /**
   * The close of the last row strictly before midnight, or None where
   * indexing that empty selection with [-1] raises.
   */
  function Baseline(rows: seq<Row>, midnight: int): Option<real> {
    var before := Filter(rows, Before(midnight));
    if |before| == 0 then None else Some(before[|before| - 1].close)
  }

  /**
   * Reference definition of "the last row before midnight": its position,
   * found by searching from the end, or -1 when there is none.
   */
  function LastBeforeIndex(rows: seq<Row>, midnight: int): (i: int)
    ensures -1 <= i < |rows|
    ensures i >= 0 ==> rows[i].instant < midnight
    ensures forall j :: i < j < |rows| ==> rows[j].instant >= midnight
  {
    if rows == [] then -1
    else if rows[|rows| - 1].instant < midnight then |rows| - 1
    else LastBeforeIndex(rows[..|rows| - 1], midnight)
  }

  /** The baseline is the close at the last position before midnight, and missing iff no row is before midnight. */
  lemma {:induction false} BaselineIsLastBefore(rows: seq<Row>, midnight: int)
    ensures var i := LastBeforeIndex(rows, midnight);
      Baseline(rows, midnight) == if i < 0 then None else Some(rows[i].close)
    ensures Baseline(rows, midnight).None? <==> forall j :: 0 <= j < |rows| ==> rows[j].instant >= midnight
  {
    if rows != [] {
      var init := rows[..|rows| - 1];
      BaselineIsLastBefore(init, midnight);
      var i := LastBeforeIndex(init, midnight);
      assert i >= 0 ==> init[i] == rows[i];
    }
  }

  /** One plotted point: whole epoch seconds and the close relative to the baseline. */
  datatype Point = Point(seconds: int, ratio: real)

  /**
   * The series handed to the plot: one point per remaining row, in table
   * order, each close divided by the baseline. The source does not guard
   * against a zero baseline; here the caller must exclude it.
   */
  function Series(rows: seq<Row>, baseline: real): (s: seq<Point>)
    requires baseline != 0.0
    ensures |s| == |rows|
    ensures forall i :: 0 <= i < |s| ==> s[i].ratio * baseline == rows[i].close
    ensures forall i :: 0 <= i < |s| ==>
      s[i].seconds * NanosPerSecond <= rows[i].instant < (s[i].seconds + 1) * NanosPerSecond
  {
    seq(|rows|, i requires 0 <= i < |rows| => Point(EpochSeconds(rows[i].instant), rows[i].close / baseline))
  }

  /** The sample that supplies the baseline is plotted at exactly 1. */
  lemma BaselineSampleIsOne(rows: seq<Row>, midnight: int, baseline: real)
    requires Baseline(rows, midnight) == Some(baseline) && baseline != 0.0
    ensures var i := LastBeforeIndex(rows, midnight);
      0 <= i < |rows| && rows[i].instant < midnight && Series(rows, baseline)[i].ratio == 1.0
  {
    BaselineIsLastBefore(rows, midnight);
  }

  /**
   * Two rows, the first before midnight at 10 and the second after it at 20,
   * are plotted at 1 and 2.
   */
  lemma TwoRowExample(t0: int, t1: int, midnight: int)
    requires t0 < midnight <= t1
    ensures var rows := [Row(t0, 10.0, false), Row(t1, 20.0, false)];
      && Baseline(rows, midnight) == Some(10.0)
      && Series(rows, 10.0) == [Point(EpochSeconds(t0), 1.0), Point(EpochSeconds(t1), 2.0)]
  {
    var rows := [Row(t0, 10.0, false), Row(t1, 20.0, false)];
    assert rows[..1] == [rows[0]] && rows[..1][..0] == [];
    assert Filter(rows, Before(midnight)) == [rows[0]];
  }

  /** numpy's `min()` of the Close column of a non-empty selection. */
  function MinClose(rows: seq<Row>): (m: real)
    requires |rows| > 0
    ensures exists i :: 0 <= i < |rows| && rows[i].close == m
    ensures forall i :: 0 <= i < |rows| ==> m <= rows[i].close
  {
    if |rows| == 1 then rows[0].close
    else
      var m := MinClose(rows[..|rows| - 1]);
      var last := rows[|rows| - 1].close;
      assert forall i :: 0 <= i < |rows| - 1 ==> rows[..|rows| - 1][i] == rows[i];
      if last < m then last else m
  }

  /** numpy's `max()` of the Close column of a non-empty selection. */
  function MaxClose(rows: seq<Row>): (m: real)
    requires |rows| > 0
    ensures exists i :: 0 <= i < |rows| && rows[i].close == m
    ensures forall i :: 0 <= i < |rows| ==> rows[i].close <= m
  {
    if |rows| == 1 then rows[0].close
    else
      var m := MaxClose(rows[..|rows| - 1]);
      var last := rows[|rows| - 1].close;
      assert forall i :: 0 <= i < |rows| - 1 ==> rows[..|rows| - 1][i] == rows[i];
      if last > m then last else m
  }

  /** Python's built-in `min` and `max` of two numbers. */
  function Min(a: real, b: real): (m: real)
    ensures m <= a && m <= b && (m == a || m == b)
  {
    if b < a then b else a
  }

  function Max(a: real, b: real): (m: real)
    ensures a <= m && b <= m && (m == a || m == b)
  {
    if b > a then b else a
  }

  /** The vertical plot range. */
  datatype Range = Range(lo: real, hi: real)

  const SeedLow: real := 0.95
  const SeedHigh: real := 1.05

  /** One instrument after dropna, with its baseline close. */
  datatype Instrument = Instrument(rows: seq<Row>, baseline: real)

  /**
   * One step of the fold: when the instrument has rows in the session band,
   * the range is widened to the band's smallest close over the baseline and
   * to its largest close over the baseline; otherwise it is left as it is.
   */
  function Widen(acc: Range, p: Instrument, morning: int, evening: int): (r: Range)
    requires p.baseline != 0.0
    ensures r.lo <= acc.lo && acc.hi <= r.hi
    ensures |InSession(p.rows, morning, evening)| == 0 ==> r == acc
  {
    var band := InSession(p.rows, morning, evening);
    if |band| > 0 then
      Range(Min(acc.lo, MinClose(band) / p.baseline), Max(acc.hi, MaxClose(band) / p.baseline))
    else acc
  }

  predicate NonZeroBaselines(ps: seq<Instrument>) {
    forall k :: 0 <= k < |ps| ==> ps[k].baseline != 0.0
  }

  /** The range after folding the instruments in order into the seed (0.95, 1.05). */
  function FoldRange(ps: seq<Instrument>, morning: int, evening: int): (r: Range)
    requires NonZeroBaselines(ps)
    ensures r.lo <= SeedLow && SeedHigh <= r.hi
  {
    if ps == [] then Range(SeedLow, SeedHigh)
    else Widen(FoldRange(ps[..|ps| - 1], morning, evening), ps[|ps| - 1], morning, evening)
  }

  /** Folding more instruments never narrows the range. */
  lemma {:induction false} FoldRangeMonotone(ps: seq<Instrument>, i: nat, j: nat, morning: int, evening: int)
    requires NonZeroBaselines(ps)
    requires i <= j <= |ps|
    ensures FoldRange(ps[..j], morning, evening).lo <= FoldRange(ps[..i], morning, evening).lo
    ensures FoldRange(ps[..i], morning, evening).hi <= FoldRange(ps[..j], morning, evening).hi
  {
    if i < j {
      assert ps[..j][..j - 1] == ps[..j - 1];
      FoldRangeMonotone(ps, i, j - 1, morning, evening);
    }
  }

  /** With no row of any instrument inside the band, the range is exactly the seed. */
  lemma {:induction false} FoldRangeEmptyBand(ps: seq<Instrument>, morning: int, evening: int)
    requires NonZeroBaselines(ps)
    requires forall k :: 0 <= k < |ps| ==> |InSession(ps[k].rows, morning, evening)| == 0
    ensures FoldRange(ps, morning, evening) == Range(SeedLow, SeedHigh)
  {
    if ps != [] {
      var init := ps[..|ps| - 1];
      assert forall k :: 0 <= k < |init| ==> init[k] == ps[k];
      FoldRangeEmptyBand(init, morning, evening);
    }
  }

  /** The ratios of an instrument's rows inside the session band. */
  ghost function BandRatios(p: Instrument, morning: int, evening: int): set<real>
    requires p.baseline != 0.0
  {
    var band := InSession(p.rows, morning, evening);
    set i | 0 <= i < |band| :: band[i].close / p.baseline
  }

  lemma DivideMonotone(x: real, y: real, b: real)
    requires b > 0.0 && x <= y
    ensures x / b <= y / b
  {
  }

  /** For a positive baseline, min(close)/baseline is the least band ratio and max(close)/baseline the greatest. */
  lemma BandExtremes(p: Instrument, morning: int, evening: int)
    requires p.baseline > 0.0
    requires |InSession(p.rows, morning, evening)| > 0
    ensures var band := InSession(p.rows, morning, evening);
      && MinClose(band) / p.baseline in BandRatios(p, morning, evening)
      && MaxClose(band) / p.baseline in BandRatios(p, morning, evening)
      && forall x :: x in BandRatios(p, morning, evening) ==>
           MinClose(band) / p.baseline <= x <= MaxClose(band) / p.baseline
  {
    var band := InSession(p.rows, morning, evening);
    forall i | 0 <= i < |band|
      ensures MinClose(band) / p.baseline <= band[i].close / p.baseline <= MaxClose(band) / p.baseline
    {
      DivideMonotone(MinClose(band), band[i].close, p.baseline);
      DivideMonotone(band[i].close, MaxClose(band), p.baseline);
    }
  }

  predicate PositiveBaselines(ps: seq<Instrument>) {
    forall k :: 0 <= k < |ps| ==> ps[k].baseline > 0.0
  }

  /**
   * For positive baselines the fold is the minimum of {0.95} together with
   * every band ratio of every instrument, and the maximum of {1.05} together
   * with them.
   */
  lemma {:induction false} FoldRangeIsExtremum(ps: seq<Instrument>, morning: int, evening: int)
    requires PositiveBaselines(ps)
    ensures var r := FoldRange(ps, morning, evening);
      && (forall k, x :: 0 <= k < |ps| && x in BandRatios(ps[k], morning, evening) ==> r.lo <= x <= r.hi)
      && (r.lo == SeedLow || exists k :: 0 <= k < |ps| && r.lo in BandRatios(ps[k], morning, evening))
      && (r.hi == SeedHigh || exists k :: 0 <= k < |ps| && r.hi in BandRatios(ps[k], morning, evening))
  {
    if ps != [] {
      var n := |ps| - 1;
      var init, p := ps[..n], ps[n];
      assert forall k :: 0 <= k < n ==> init[k] == ps[k];
      FoldRangeIsExtremum(init, morning, evening);
      if |InSession(p.rows, morning, evening)| > 0 {
        BandExtremes(p, morning, evening);
      }
    }
  }
}
