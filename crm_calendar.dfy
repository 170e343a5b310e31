/**
 * The month view of the events calendar: up to six rows of seven cells,
 * Monday first. The cells before the first day of the month and after its
 * last day are blank; the days are numbered from 1 by a counter that moves
 * on at each day cell, and the rows stop once every day is placed.
 */
module CrmCalendar {
  import opened Seqs
  import opened Text
  import opened Dates
  import opened CrmRecords
  import opened CrmDates

  datatype Cell = Blank | Day(n: nat)

  /** What cell `k`, counted from the top-left, shows. */
  function CellAt(first: nat, days: nat, k: nat): (c: Cell)
    ensures c.Day? <==> first <= k < first + days
    ensures c.Day? ==> 1 <= c.n <= days
  {
    if first <= k < first + days then Day(k - first + 1) else Blank
  }

  /** The first `n` cells of the month view. */
  function Layout(first: nat, days: nat, n: nat): (r: seq<Cell>)
    ensures |r| == n
    ensures forall k :: 0 <= k < n ==> r[k] == CellAt(first, days, k)
  {
    seq(n, k requires 0 <= k < n => CellAt(first, days, k))
  }

  /** The number of day cells among the first `k`: the counter `jour` minus one. */
  function DaysBefore(first: nat, days: nat, k: nat): (n: nat)
    ensures n <= days
  {
    if k <= first then 0 else Min(k - first, days)
  }

  /** The rows read one after the other. */
  function Flatten(rows: seq<seq<Cell>>): seq<Cell>
  {
    if rows == [] then [] else Flatten(rows[..|rows| - 1]) + rows[|rows| - 1]
  }

  /**
   * The calendar loop. `first` is the weekday of the 1st (0 for Monday) and
   * `days` the length of the month. The grid is the month view cut at the
   * first row that completes it: every day is placed, the last row holds a
   * day, and no more than six rows are drawn.
   */
  method MonthGrid(first: nat, days: nat) returns (grid: seq<seq<Cell>>)
    requires first < 7 && 1 <= days <= 31
    ensures 1 <= |grid| <= 6
    ensures forall w :: 0 <= w < |grid| ==> |grid[w]| == 7
    ensures Flatten(grid) == Layout(first, days, 7 * |grid|)
    ensures first + days <= 7 * |grid| < first + days + 7
  {
    grid := [];
    var day := 1;
    var week := 0;
    while week < 6 && day <= days
      invariant 0 <= week <= 6 && |grid| == week
      invariant forall w :: 0 <= w < |grid| ==> |grid[w]| == 7
      invariant Flatten(grid) == Layout(first, days, 7 * week)
      invariant day == 1 + DaysBefore(first, days, 7 * week)
      invariant week > 0 ==> 7 * (week - 1) < first + days
    {
      var row: seq<Cell> := [];
      for i := 0 to 7
        invariant |row| == i
        invariant forall j :: 0 <= j < i ==> row[j] == CellAt(first, days, 7 * week + j)
        invariant day == 1 + DaysBefore(first, days, 7 * week + i)
      {
        if week == 0 && i < first {
          row := row + [Blank];
        } else if day > days {
          row := row + [Blank];
        } else {
          row := row + [Day(day)];
          day := day + 1;
        }
      }
      assert Flatten(grid + [row]) == Flatten(grid) + row by {
        assert (grid + [row])[..|grid|] == grid;
      }
      assert Layout(first, days, 7 * week) + row == Layout(first, days, 7 * (week + 1));
      grid := grid + [row];
      week := week + 1;
    }
  }

  /** The day numbers the cells show, in order. */
  function DaysShown(cells: seq<Cell>): seq<nat>
  {
    if cells == [] then []
    else
      var last := cells[|cells| - 1];
      DaysShown(cells[..|cells| - 1]) + (if last.Day? then [last.n] else [])
  }

  /** The first `n` cells show the days 1 to `DaysBefore(n)`, in order. */
  lemma {:induction false} DaysShownInLayout(first: nat, days: nat, n: nat)
    ensures DaysShown(Layout(first, days, n)) == seq(DaysBefore(first, days, n), j requires 0 <= j => j + 1)
  {
    if n > 0 {
      var cells := Layout(first, days, n);
      assert cells[..n - 1] == Layout(first, days, n - 1);
      DaysShownInLayout(first, days, n - 1);
    }
  }

  /** A grid that reaches past the last day shows 1, 2, ..., `days`: each day once, in increasing order. */
  lemma EveryDayOnce(first: nat, days: nat, n: nat)
    requires first + days <= n
    ensures DaysShown(Layout(first, days, n)) == seq(days, j requires 0 <= j => j + 1)
  {
    DaysShownInLayout(first, days, n);
  }

  /** The text a day cell looks events up by: `f"{annee}-{mois:02d}-{jour:02d}"`. */
  function DayKey(year: nat, month: nat, day: nat): string
  {
    NatToString(year) + "-" + Pad2(month) + "-" + Pad2(day)
  }

  /** The date text the app stores for a day is the key of that day's cell. */
  lemma DayKeyIsStoredDate(d: Date)
    requires ValidDate(d) && 1000 <= d.year
    ensures DayKey(d.year, d.month, d.day) == IsoDate(d)
  {
  }

  /** The events listed under a day cell: those whose date text is exactly the cell's key. */
  function EventsOn(events: seq<Event>, year: nat, month: nat, day: nat): (r: seq<Event>)
    ensures forall e :: e in r <==> e in events && e.date == DayKey(year, month, day)
    ensures IsSubsequence(r, events)
  {
    Filter(events, (e: Event) => e.date == DayKey(year, month, day))
  }

  /** An event stored with the date of a day is listed under that day's cell, and under no other day of the month. */
  lemma CalendarFindsStoredEvent(events: seq<Event>, e: Event, d: Date, other: nat)
    requires e in events && ValidDate(d) && 1000 <= d.year && e.date == IsoDate(d)
    requires 1 <= other <= DaysInMonth(d.year, d.month) && other != d.day
    ensures e in EventsOn(events, d.year, d.month, d.day)
    ensures e !in EventsOn(events, d.year, d.month, other)
  {
    DayKeyIsStoredDate(d);
    var d2 := Date(d.year, d.month, other);
    DayKeyIsStoredDate(d2);
    ParseIsoDate(d);
    ParseIsoDate(d2);
  }
}
