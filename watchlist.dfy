/**
 * The watchlist: its instruments, the validated choice of fetch range, the
 * symbol string of the batched request and the fetched table that each
 * refresh replaces wholesale.
 */
module Watchlist {
  import opened Wrappers
  import opened Samples

  /** An instrument: its exchange code and display name (its colour only styles the plot). */
  datatype Ticker = Ticker(code: string, name: string)

  /** The fetched quote table: for each code, that instrument's rows in index order. */
  type RawTable = map<string, seq<Row>>

  /** The exceptions raised by this model's Python counterpart. */
  datatype ConfigError = ValueError   // "Provide either a period or start and end times"
  datatype LookupError = IndexError   // list index out of range

  /** What the batched download asks for: the symbol string, the period and the interval. */
  datatype Request = Request(symbols: string, period: Option<string>, interval: Option<string>)

  function Codes(ts: seq<Ticker>): (cs: seq<string>)
    ensures |cs| == |ts| && forall i :: 0 <= i < |ts| ==> cs[i] == ts[i].code
  {
    seq(|ts|, i requires 0 <= i < |ts| => ts[i].code)
  }

  function TotalLength(xs: seq<string>): nat {
    if xs == [] then 0 else |xs[0]| + TotalLength(xs[1..])
  }

  /** Python's `" ".join(xs)`. */
  function Join(xs: seq<string>): (s: string)
    ensures xs == [] ==> s == ""
    ensures xs != [] ==> |s| == TotalLength(xs) + |xs| - 1
  {
    if xs == [] then ""
    else if |xs| == 1 then xs[0]
    else xs[0] + " " + Join(xs[1..])
  }

  /** Python's `s.split(" ")`: the pieces between single spaces, empty pieces included. */
  function Split(s: string): (parts: seq<string>)
    ensures |parts| > 0
  {
    if s == [] then [""]
    else
      var rest := Split(s[1..]);
      if s[0] == ' ' then [""] + rest else [[s[0]] + rest[0]] + rest[1..]
  }

  /** Splitting a space-free prefix glued to a tail extends the tail's first piece. */
  lemma {:induction false} SplitSpaceFree(x: string, tail: string)
    requires ' ' !in x
    ensures Split(x + tail) == [x + Split(tail)[0]] + Split(tail)[1..]
  {
    if x != [] {
      assert (x + tail)[1..] == x[1..] + tail;
      assert ' ' !in x[1..] by {
        forall i | 0 <= i < |x[1..]| ensures x[1..][i] != ' ' { assert x[1..][i] == x[i + 1]; }
      }
      SplitSpaceFree(x[1..], tail);
      assert [x[0]] + (x[1..] + Split(tail)[0]) == x + Split(tail)[0];
    } else {
      var parts := Split(tail);
      assert x + tail == tail && x + parts[0] == parts[0];
      assert parts == [parts[0]] + parts[1..];
    }
  }

  /** The symbol string can be split back into the codes, in watchlist order, when no code holds a space. */
  lemma {:induction false} SplitJoin(xs: seq<string>)
    requires xs != []
    requires forall i :: 0 <= i < |xs| ==> ' ' !in xs[i]
    ensures Split(Join(xs)) == xs
  {
    if |xs| == 1 {
      SplitSpaceFree(xs[0], "");
      assert xs[0] + "" == xs[0];
    } else {
      var rest := Join(xs[1..]);
      SplitJoin(xs[1..]);
      assert xs[0] + " " + rest == xs[0] + (" " + rest);
      SplitSpaceFree(xs[0], " " + rest);
      assert (" " + rest)[1..] == rest;
      assert xs[0] + "" == xs[0];
      assert xs == [xs[0]] + xs[1..];
    }
  }

  /**
   * Python raises ValueError unless exactly one form of range is given: a
   * period, or a start and/or an end (one of the two already counts).
   */
  function RangeSpecRaises(period: Option<string>, start: Option<int>, end: Option<int>): (raises: bool)
    ensures !raises <==>
      (period.Some? && start.None? && end.None?) || (period.None? && (start.Some? || end.Some?))
  {
    period.None? == (start.None? && end.None?)
  }

  class Tickers {
    const tickers: seq<Ticker>
    const period: Option<string>
    const start: Option<int>     // instants; kept but never sent with the request
    const end: Option<int>
    const interval: Option<string>
    var data: Option<RawTable>

    /** The part of construction after the range check has passed. */
    constructor Init(tickers: seq<Ticker>, period: Option<string>, start: Option<int>,
                     end: Option<int>, interval: Option<string>)
      requires !RangeSpecRaises(period, start, end)
      ensures this.tickers == tickers && this.period == period && this.start == start
      ensures this.end == end && this.interval == interval && data == None
    {
      this.tickers := tickers;
      this.period := period;
      this.start := start;
      this.end := end;
      this.interval := interval;
      data := None;
    }

    /** `__len__`: the number of instruments in the list. */
    function Len(): (n: nat)
      ensures n == |tickers|
    {
      |tickers|
    }

    /**
     * `__getitem__` for an integer index, with Python's negative indices:
     * raises IndexError outside [-len, len).
     */
    function GetItem(item: int): (r: Result<Ticker, LookupError>)
      ensures r.Success? <==> -|tickers| <= item < |tickers|
      ensures r.Success? ==> r.value == tickers[if item < 0 then item + |tickers| else item]
    {
      if 0 <= item < |tickers| then Success(tickers[item])
      else if -|tickers| <= item < 0 then Success(tickers[item + |tickers|])
      else Failure(IndexError)
    }

    /** `tickers_str`: the codes joined with single spaces, in watchlist order. */
    function TickersStr(): (s: string)
      ensures tickers == [] ==> s == ""
      ensures tickers != [] ==> |s| == TotalLength(Codes(tickers)) + |tickers| - 1
      ensures tickers != [] && (forall i :: 0 <= i < |tickers| ==> ' ' !in tickers[i].code) ==>
        Split(s) == Codes(tickers)
    {
      var codes := Codes(tickers);
      assert codes != [] && (forall i :: 0 <= i < |codes| ==> ' ' !in codes[i]) ==>
        Split(Join(codes)) == codes by {
        if codes != [] && (forall i :: 0 <= i < |codes| ==> ' ' !in codes[i]) {
          SplitJoin(codes);
        }
      }
      Join(codes)
    }

    /**
     * `update`: the batched download is asked for the symbol string, the
     * period and the interval (never start or end), and its result, given here
     * as `fetched`, replaces the previous table.
     */
    method Update(fetched: RawTable) returns (req: Request)
      modifies this`data
      ensures req == Request(TickersStr(), period, interval)
      ensures data == Some(fetched)
    {
      req := Request(TickersStr(), period, interval);
      data := Some(fetched);
    }
  }

  /** The constructor: ValueError for a bad range, otherwise a new watchlist with no data yet. */
  method NewTickers(tickers: seq<Ticker>, period: Option<string>, start: Option<int>,
                    end: Option<int>, interval: Option<string>) returns (r: Result<Tickers, ConfigError>)
    ensures r.Failure? <==> RangeSpecRaises(period, start, end)
    ensures r.Success? ==> fresh(r.value) && r.value.data == None
    ensures r.Success? ==> r.value.tickers == tickers && r.value.period == period
    ensures r.Success? ==> r.value.start == start && r.value.end == end && r.value.interval == interval
  {
    if RangeSpecRaises(period, start, end) {
      return Failure(ValueError);
    }
    var t := new Tickers.Init(tickers, period, start, end, interval);
    return Success(t);
  }

  /** Iterating a watchlist calls `__getitem__` with 0, 1, ... until IndexError: it yields the list in order. */
  lemma IterationYieldsList(t: Tickers)
    ensures t.GetItem(t.Len()).Failure?
    ensures forall i :: 0 <= i < t.Len() ==> t.GetItem(i) == Success(t.tickers[i])
  {
  }

  /** A negative index counts from the end. */
  lemma NegativeIndex(t: Tickers, i: int)
    requires 0 <= i < t.Len()
    ensures t.GetItem(i - t.Len()) == t.GetItem(i)
  {
  }
}
