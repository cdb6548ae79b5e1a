/**
 * The rows of one instrument's quote table and the three row selections that
 * the widget's refresh makes on them: dropping incomplete rows, keeping the
 * rows before midnight, and keeping the rows inside the session band.
 */
module Samples {
  /**
   * One row of an instrument's quote table: the instant of its index, in
   * nanoseconds since the epoch, its Close price, and whether any column of
   * the row holds a missing value.
   */
  datatype Row = Row(instant: int, close: real, missing: bool)

  /** Which rows a selection keeps. */
  datatype Selector =
    | Present                               // rows without a missing value (dropna)
    | Before(midnight: int)                 // index < midnight
    | Band(morning: int, evening: int)      // morning <= index <= evening

  predicate Selects(k: Selector, r: Row) {
    match k
    case Present => !r.missing
    case Before(midnight) => r.instant < midnight
    case Band(morning, evening) => morning <= r.instant <= evening
  }

  /**
   * Boolean-mask indexing of a table: the rows that `k` selects, in table
   * order. Every selected row is kept as often as it occurs, every other row
   * is dropped.
   */
  function Filter(rows: seq<Row>, k: Selector): (r: seq<Row>)
    ensures |r| <= |rows|
    ensures forall i :: 0 <= i < |r| ==> Selects(k, r[i])
  {
    if rows == [] then []
    else
      var last := rows[|rows| - 1];
      Filter(rows[..|rows| - 1], k) + (if Selects(k, last) then [last] else [])
  }

  /** Every selected row is kept exactly as often as it occurs; every other row is dropped. */
  lemma {:induction false} FilterCounts(rows: seq<Row>, k: Selector)
    ensures forall x :: multiset(Filter(rows, k))[x] == if Selects(k, x) then multiset(rows)[x] else 0
  {
    if rows != [] {
      var init, last := rows[..|rows| - 1], rows[|rows| - 1];
      assert rows == init + [last];
      FilterCounts(init, k);
    }
  }

  /** Selection distributes over concatenation, so it keeps table order. */
  lemma {:induction false} FilterConcat(a: seq<Row>, b: seq<Row>, k: Selector)
    ensures Filter(a + b, k) == Filter(a, k) + Filter(b, k)
  {
    if b == [] {
      assert a + b == a;
    } else {
      var init, last := b[..|b| - 1], b[|b| - 1];
      var ab := a + b;
      assert ab[..|ab| - 1] == a + init;
      assert ab[|ab| - 1] == last;
      var tail := if Selects(k, last) then [last] else [];
      calc {
        Filter(ab, k);
        Filter(a + init, k) + tail;
        { FilterConcat(a, init, k); }
        Filter(a, k) + Filter(init, k) + tail;
        Filter(a, k) + (Filter(init, k) + tail);
        Filter(a, k) + Filter(b, k);
      }
    }
  }

  /** A row is in a selection iff it is in the table and the selector keeps it. */
  lemma SelectedIff(rows: seq<Row>, k: Selector, x: Row)
    ensures x in Filter(rows, k) <==> x in rows && Selects(k, x)
  {
  }
}
