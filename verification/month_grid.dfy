/**
 * The month view's layout: the cells of the month grid (blank cells before
 * the first weekday, the days of the month, blank cells up to a whole week)
 * and the split of those cells into rows of seven.
 */
module MonthGrid {

  /** A grid cell: blank, or the day of the month it shows. */
  datatype Cell = Blank | Day(n: nat)

  /** The smallest multiple of 7 that is at least `n`. */
  function RoundUpToWeek(n: nat): (r: nat)
    ensures r % 7 == 0 && n <= r < n + 7
  {
    if n % 7 == 0 then n else n + (7 - n % 7)
  }

  /**
   * `useMonthGrid`: `leading` blank cells (the weekday of the 1st, Sunday
   * being 0), then days 1..`dayCount`, then blank cells while the length is
   * not a multiple of 7. The weekday and the month's length come from the
   * calendar and are inputs here.
   */
  method Grid(leading: nat, dayCount: nat) returns (cells: seq<Cell>)
    ensures |cells| == RoundUpToWeek(leading + dayCount)
    ensures forall i :: 0 <= i < leading ==> cells[i] == Blank
    ensures forall i :: leading <= i < leading + dayCount ==> cells[i] == Day(i - leading + 1)
    ensures forall i :: leading + dayCount <= i < |cells| ==> cells[i] == Blank
  {
    cells := seq(leading, _ => Blank) + seq(dayCount, d requires 0 <= d < dayCount => Day(d + 1));
    ghost var filled := leading + dayCount;
    while |cells| % 7 != 0
      invariant filled <= |cells| <= RoundUpToWeek(filled)
      invariant forall i :: 0 <= i < leading ==> cells[i] == Blank
      invariant forall i :: leading <= i < leading + dayCount ==> cells[i] == Day(i - leading + 1)
      invariant forall i :: filled <= i < |cells| ==> cells[i] == Blank
      decreases RoundUpToWeek(filled) - |cells|
    {
      cells := cells + [Blank];
    }
  }

  /** The rows in the order they were built, concatenated: `weeks.flat()`. */
  function Flatten(rows: seq<seq<Cell>>): seq<Cell> {
    if |rows| == 0 then [] else Flatten(rows[..|rows| - 1]) + rows[|rows| - 1]
  }

  /**
   * The `weeks` memo: `cells.slice(i, i + 7)` for `i` = 0, 7, 14, ...; the
   * last slice is cut short when the cells run out.
   */
  method Weeks(cells: seq<Cell>) returns (rows: seq<seq<Cell>>)
    ensures Flatten(rows) == cells
    ensures |rows| == (|cells| + 6) / 7
    ensures forall w :: 0 <= w < |rows| ==> 0 < |rows[w]| <= 7
    ensures forall w :: 0 <= w < |rows| - 1 ==> |rows[w]| == 7
    ensures |cells| % 7 == 0 ==> forall w :: 0 <= w < |rows| ==> |rows[w]| == 7
  {
    rows := [];
    var i := 0;
    while i < |cells|
      invariant i % 7 == 0 && i == 7 * |rows|
      invariant i <= |cells| + 6
      invariant Flatten(rows) == cells[..if i < |cells| then i else |cells|]
      invariant forall w :: 0 <= w < |rows| ==> 0 < |rows[w]| <= 7
      invariant forall w :: 0 <= w < |rows| && (w < |rows| - 1 || i <= |cells|) ==> |rows[w]| == 7
      decreases |cells| - i
    {
      var end := if i + 7 < |cells| then i + 7 else |cells|;
      var row := cells[i..end];
      assert cells[..end] == cells[..i] + row;
      assert (rows + [row])[..|rows|] == rows;
      rows := rows + [row];
      i := i + 7;
    }
  }

  /**
   * The month grid always splits into whole weeks, and flattening them gives
   * the grid back: the cells the calendar renders are exactly the grid's.
   */
  method GridWeeks(leading: nat, dayCount: nat) returns (cells: seq<Cell>, rows: seq<seq<Cell>>)
    ensures Flatten(rows) == cells
    ensures |cells| == 7 * |rows| && leading + dayCount <= |cells| < leading + dayCount + 7
    ensures forall w :: 0 <= w < |rows| ==> |rows[w]| == 7
    ensures forall i :: leading <= i < leading + dayCount ==> cells[i] == Day(i - leading + 1)
  {
    cells := Grid(leading, dayCount);
    rows := Weeks(cells);
  }
}
