/**
 Day-by-year charts.

 Such a chart has one column per year and one row per day of a leap-year
 calendar: 366 rows from 1 January to 31 December, with row 59 (counting from
 zero) holding 29 February. The readers write a marker into row 59 of every
 non-leap year column, read the grid column by column, and drop the markers.
 This module defines that reshape once and proves that the cells it keeps
 line up one-to-one with consecutive calendar days.
 */
module Calendar {
  import opened Common
  import opened Grid
  import opened Utils

  /** Row of 29 February in a day-by-year chart (zero-based). */
  const Feb29Row: nat := 59

  /** Rows of a complete day-by-year chart. */
  const DayRows: nat := 366

  function DaysInYear(y: int): nat {
    if IsLeapYear(y) then 366 else 365
  }

  /** A calendar day: the year and the zero-based day of the year. */
  datatype Date = Date(year: int, day: nat)

  predicate ValidDate(d: Date) {
    d.day < DaysInYear(d.year)
  }

  /** The following calendar day. */
  function Next(d: Date): Date {
    if d.day + 1 < DaysInYear(d.year) then Date(d.year, d.day + 1) else Date(d.year + 1, 0)
  }

  /** All days of year `y`, in order. */
  function YearDates(y: int): (r: seq<Date>)
    ensures |r| == DaysInYear(y)
    ensures forall d :: 0 <= d < |r| ==> r[d] == Date(y, d)
  {
    seq(DaysInYear(y), d requires 0 <= d < DaysInYear(y) => Date(y, d))
  }

  /** The years of `n` consecutive columns starting with `y0`. */
  function YearsFrom(y0: int, n: nat): (r: seq<int>)
    ensures |r| == n && forall j :: 0 <= j < n ==> r[j] == y0 + j
  {
    seq(n, j requires 0 <= j < n => y0 + j)
  }

  /** The days of `n` consecutive years starting with `y0`. */
  function Days(y0: int, n: nat): seq<Date>
    decreases n
  {
    if n == 0 then [] else YearDates(y0) + Days(y0 + 1, n - 1)
  }

  /** `Days` really is a run of consecutive calendar days from 1 January of `y0`:
      it starts there, every entry is a valid date, and each entry is the day
      after the previous one. */
  lemma {:induction false} DaysConsecutive(y0: int, n: nat)
    ensures n > 0 ==> |Days(y0, n)| > 0 && Days(y0, n)[0] == Date(y0, 0)
    ensures forall k :: 0 <= k < |Days(y0, n)| ==> ValidDate(Days(y0, n)[k])
    ensures forall k :: 0 <= k < |Days(y0, n)| - 1 ==> Days(y0, n)[k + 1] == Next(Days(y0, n)[k])
    ensures n > 0 ==> Days(y0, n)[|Days(y0, n)| - 1] == Date(y0 + n - 1, DaysInYear(y0 + n - 1) - 1)
    decreases n
  {
    if n > 0 {
      DaysConsecutive(y0 + 1, n - 1);
      var head := YearDates(y0);
      var tail := Days(y0 + 1, n - 1);
      var all := Days(y0, n);
      assert all == head + tail;
      forall k | 0 <= k < |all| - 1
        ensures all[k + 1] == Next(all[k])
      {
        if k + 1 < |head| {
          assert all[k] == Date(y0, k) && all[k + 1] == Date(y0, k + 1);
        } else if k + 1 == |head| {
          assert all[k] == Date(y0, |head| - 1);
          assert all[k + 1] == tail[0];
        } else {
          assert all[k] == tail[k - |head|] && all[k + 1] == tail[k + 1 - |head|];
        }
      }
      forall k | 0 <= k < |all|
        ensures ValidDate(all[k])
      {
        if k >= |head| {
          assert all[k] == tail[k - |head|];
        }
      }
    }
  }

  /** The chart row that holds day `d` of year `y`: in a non-leap year every
      day from 1 March on sits one row below its position in the year. */
  function ChartRow(dt: Date): nat {
    if IsLeapYear(dt.year) || dt.day < Feb29Row then dt.day else dt.day + 1
  }

  /** `ChartRow` is strictly increasing within a year, covers every row of a
      leap year, and never lands on 29 February in a non-leap year. */
  lemma ChartRowFacts(y: int, d: nat, e: nat)
    ensures d < e ==> ChartRow(Date(y, d)) < ChartRow(Date(y, e))
    ensures !IsLeapYear(y) ==> ChartRow(Date(y, d)) != Feb29Row
    ensures d < DaysInYear(y) ==> ChartRow(Date(y, d)) < DayRows
    ensures IsLeapYear(y) ==> ChartRow(Date(y, d)) == d
  {
  }

  // ---------------------------------------------------------------------
  // The reshape
  // ---------------------------------------------------------------------

  /** `rawdata.iloc[59, nonleap] = marker`: the marker goes into row 59 of each
      column whose year is not a leap year. */
  function MarkFeb29(g: Rows, years: seq<int>): (r: Rows)
    requires IsRect(g, |years|) && |g| > Feb29Row
    ensures |r| == |g| && IsRect(r, |years|)
    ensures forall i, j :: 0 <= i < |g| && 0 <= j < |years| ==>
      r[i][j] == if i == Feb29Row && !IsLeapYear(years[j]) then Marker else g[i][j]
  {
    g[Feb29Row := seq(|years|, j requires 0 <= j < |years| =>
      if IsLeapYear(years[j]) then g[Feb29Row][j] else Marker)]
  }

  /** `data[data != marker]`: every marker cell removed, order kept. */
  function DropMarkers(cells: seq<Cell>): (r: seq<Cell>)
    ensures |r| <= |cells|
    ensures Marker !in r
  {
    if |cells| == 0 then []
    else if cells[0] == Marker then DropMarkers(cells[1..])
    else [cells[0]] + DropMarkers(cells[1..])
  }

  lemma {:induction false} DropMarkersAppend(a: seq<Cell>, b: seq<Cell>)
    ensures DropMarkers(a + b) == DropMarkers(a) + DropMarkers(b)
  {
    if |a| > 0 {
      assert (a + b)[1..] == a[1..] + b;
      DropMarkersAppend(a[1..], b);
    } else {
      assert a + b == b;
    }
  }

  lemma {:induction false} DropMarkersNone(a: seq<Cell>)
    requires Marker !in a
    ensures DropMarkers(a) == a
  {
    if |a| > 0 {
      DropMarkersNone(a[1..]);
    }
  }

  /** `DropMarkers` applied to each row. */
  function DropEach(g: Rows): (r: Rows)
    ensures |r| == |g| && forall j :: 0 <= j < |g| ==> r[j] == DropMarkers(g[j])
  {
    seq(|g|, j requires 0 <= j < |g| => DropMarkers(g[j]))
  }

  lemma {:induction false} DropMarkersFlatten(g: Rows)
    ensures DropMarkers(Flatten(g)) == Flatten(DropEach(g))
  {
    if |g| > 0 {
      DropMarkersAppend(g[0], Flatten(g[1..]));
      DropMarkersFlatten(g[1..]);
      assert DropEach(g)[1..] == DropEach(g[1..]);
    }
  }

  /** Whether a grid contains no marker cell (scraped charts never do). */
  predicate NoMarkers(g: Rows) {
    forall i, j :: 0 <= i < |g| && 0 <= j < |g[i]| ==> g[i][j] != Marker
  }

  /** The day-by-year reshape: mark 29 February of non-leap years, transpose,
      stack, and drop the marked cells. `years[j]` is the year of column `j`. */
  function DayYearCells(f: Frame, years: seq<int>): (r: seq<Cell>)
    requires f.Valid() && |years| == |f.columns| && |f.index| > Feb29Row
    ensures Marker !in r
  {
    var marked := Frame(f.index, f.columns, MarkFeb29(f.cells, years));
    DropMarkers(Stack(Transpose(marked)))
  }

  /** The kept cells of column `j`: one per day of `year`, read through `ChartRow`. */
  function YearCells(g: Rows, j: nat, year: int): (r: seq<Cell>)
    requires |g| == DayRows && forall i :: 0 <= i < |g| ==> j < |g[i]|
    ensures |r| == DaysInYear(year)
  {
    seq(DaysInYear(year), d requires 0 <= d < DaysInYear(year) => g[ChartRow(Date(year, d))][j])
  }

  /** The kept cells of every year column, in column order. */
  function AllYearCells(g: Rows, years: seq<int>): (r: Rows)
    requires |g| == DayRows && IsRect(g, |years|)
    ensures |r| == |years| && forall j :: 0 <= j < |years| ==> r[j] == YearCells(g, j, years[j])
  {
    seq(|years|, j requires 0 <= j < |years| => YearCells(g, j, years[j]))
  }

  /** A column of a day-by-year chart read through `ChartRow`: all of it in a
      leap year, everything but row 59 otherwise. */
  lemma ColumnDays(g: Rows, j: nat, y: int)
    requires |g| == DayRows && forall i :: 0 <= i < |g| ==> j < |g[i]|
    ensures IsLeapYear(y) ==> YearCells(g, j, y) == Column(g, j)
    ensures !IsLeapYear(y) ==>
      YearCells(g, j, y) == Column(g, j)[..Feb29Row] + Column(g, j)[Feb29Row + 1..]
  {
    var orig := Column(g, j);
    var r := YearCells(g, j, y);
    if !IsLeapYear(y) {
      var want := orig[..Feb29Row] + orig[Feb29Row + 1..];
      forall d | 0 <= d < |r|
        ensures r[d] == want[d]
      {
        assert r[d] == g[ChartRow(Date(y, d))][j];
      }
    }
  }

  /** Marking and dropping in one column leaves exactly the year's days. */
  lemma MarkedColumn(f: Frame, years: seq<int>, j: nat)
    requires f.Valid() && |years| == |f.columns| && |f.index| == DayRows && NoMarkers(f.cells)
    requires j < |years|
    ensures DropMarkers(Column(MarkFeb29(f.cells, years), j)) == YearCells(f.cells, j, years[j])
  {
    var g := f.cells;
    var c := Column(MarkFeb29(g, years), j);
    var y := years[j];
    var orig := Column(g, j);
    assert Marker !in orig;
    ColumnDays(g, j, y);
    if IsLeapYear(y) {
      assert c == orig;
      DropMarkersNone(orig);
    } else {
      assert c == orig[..Feb29Row] + [Marker] + orig[Feb29Row + 1..];
      DropMarkersAppend(orig[..Feb29Row] + [Marker], orig[Feb29Row + 1..]);
      DropMarkersAppend(orig[..Feb29Row], [Marker]);
      DropMarkersNone(orig[..Feb29Row]);
      DropMarkersNone(orig[Feb29Row + 1..]);
    }
  }

  /** The reshape is the concatenation, year column by year column, of each
      year's days. */
  lemma DayYearByColumns(f: Frame, years: seq<int>)
    requires f.Valid() && |years| == |f.columns| && |f.index| == DayRows && NoMarkers(f.cells)
    ensures DayYearCells(f, years) == Flatten(AllYearCells(f.cells, years))
  {
    var marked := Frame(f.index, f.columns, MarkFeb29(f.cells, years));
    var t := Transpose(marked);
    assert Stack(t) == Flatten(t.cells);
    DropMarkersFlatten(t.cells);
    var per := DropEach(t.cells);
    var want := AllYearCells(f.cells, years);
    forall j | 0 <= j < |years|
      ensures per[j] == want[j]
    {
      assert t.cells[j] == Column(marked.cells, j);
      MarkedColumn(f, years, j);
    }
    assert per == want;
    assert DayYearCells(f, years) == DropMarkers(Stack(t));
  }

  /** Where each kept cell comes from: column `col`, calendar day `date`. */
  datatype Slot = Slot(col: nat, date: Date)

  /** The slots of the kept cells, column by column, day by day. */
  function Slots(years: seq<int>): seq<Slot> {
    Flatten(seq(|years|, j requires 0 <= j < |years| =>
      seq(DaysInYear(years[j]), d requires 0 <= d < DaysInYear(years[j]) => Slot(j, Date(years[j], d)))))
  }

  /** Every kept cell is the chart cell of its slot's day, and there is one kept
      cell per day of every year column. */
  lemma DayYearAlignment(f: Frame, years: seq<int>)
    requires f.Valid() && |years| == |f.columns| && |f.index| == DayRows && NoMarkers(f.cells)
    ensures |DayYearCells(f, years)| == |Slots(years)|
    ensures forall k :: 0 <= k < |Slots(years)| ==>
      var s := Slots(years)[k];
      s.col < |years| && s.date.year == years[s.col] && ValidDate(s.date) &&
      DayYearCells(f, years)[k] == f.cells[ChartRow(s.date)][s.col]
  {
    DayYearByColumns(f, years);
    var g := f.cells;
    var xs := AllYearCells(g, years);
    var ys := seq(|years|, j requires 0 <= j < |years| =>
      seq(DaysInYear(years[j]), d requires 0 <= d < DaysInYear(years[j]) => Slot(j, Date(years[j], d))));
    var rel := (c: Cell, s: Slot) =>
      s.col < |years| && s.date.year == years[s.col] && ValidDate(s.date) &&
      ChartRow(s.date) < |g| && s.col < |g[ChartRow(s.date)]| &&
      c == g[ChartRow(s.date)][s.col];
    forall j, d | 0 <= j < |xs| && 0 <= d < |xs[j]|
      ensures rel(xs[j][d], ys[j][d])
    {
      var dt := Date(years[j], d);
      ChartRowFacts(years[j], d, d);
      assert ys[j][d] == Slot(j, dt);
      assert ChartRow(dt) < |g| && j < |g[ChartRow(dt)]|;
      assert xs[j][d] == g[ChartRow(dt)][j];
    }
    FlattenPointwise(xs, ys, rel);
  }

  /** For consecutive year columns starting at `y0`, the slots walk through
      `Days(y0, n)`: the k-th kept cell is the cell of the k-th day after
      1 January of `y0`. */
  lemma ConsecutiveSlots(y0: int, n: nat)
    ensures var years := YearsFrom(y0, n);
      |Slots(years)| == |Days(y0, n)| &&
      forall k :: 0 <= k < |Days(y0, n)| ==> Slots(years)[k].date == Days(y0, n)[k]
  {
    var years := YearsFrom(y0, n);
    var ys := seq(|years|, j requires 0 <= j < |years| =>
      seq(DaysInYear(years[j]), d requires 0 <= d < DaysInYear(years[j]) => Slot(j, Date(years[j], d))));
    var ds := seq(n, j requires 0 <= j < n => YearDates(y0 + j));
    DaysAsFlatten(y0, n);
    var rel := (s: Slot, dt: Date) => s.date == dt;
    forall j | 0 <= j < n
      ensures years[j] == y0 + j && |ys[j]| == |ds[j]|
      ensures forall d :: 0 <= d < |ys[j]| ==> rel(ys[j][d], ds[j][d])
    {
      var y := y0 + j;
      assert years[j] == y;
      assert |ys[j]| == DaysInYear(y);
      assert ds[j] == YearDates(y);
      forall d | 0 <= d < |ys[j]|
        ensures rel(ys[j][d], ds[j][d])
      {
        assert ys[j][d] == Slot(j, Date(y, d));
      }
    }
    FlattenPointwise(ys, ds, rel);
  }

  lemma {:induction false} DaysAsFlatten(y0: int, n: nat)
    ensures Days(y0, n) == Flatten(seq(n, j requires 0 <= j < n => YearDates(y0 + j)))
    decreases n
  {
    if n > 0 {
      DaysAsFlatten(y0 + 1, n - 1);
      var ds := seq(n, j requires 0 <= j < n => YearDates(y0 + j));
      assert ds[1..] == seq(n - 1, j requires 0 <= j < n - 1 => YearDates(y0 + 1 + j));
    }
  }

  /** The main alignment theorem for a chart whose columns are the consecutive
      years `y0`, `y0 + 1`, ...: the reshape keeps exactly one cell per
      calendar day from 1 January of `y0` to 31 December of the last year, and
      the k-th kept cell is the chart cell of the k-th such day. */
  lemma DayYearConsecutive(f: Frame, y0: int)
    requires f.Valid() && |f.index| == DayRows && NoMarkers(f.cells)
    ensures var n := |f.columns|;
      var years := YearsFrom(y0, n);
      var days := Days(y0, n);
      |DayYearCells(f, years)| == |days| &&
      forall k :: 0 <= k < |days| ==>
        0 <= days[k].year - y0 < n && ChartRow(days[k]) < DayRows &&
        DayYearCells(f, years)[k] == f.cells[ChartRow(days[k])][days[k].year - y0]
  {
    var n := |f.columns|;
    var years := YearsFrom(y0, n);
    DayYearAlignment(f, years);
    ConsecutiveSlots(y0, n);
    var days := Days(y0, n);
    forall k | 0 <= k < |days|
      ensures 0 <= days[k].year - y0 < n && ChartRow(days[k]) < DayRows
    {
      var s := Slots(years)[k];
      ChartRowFacts(s.date.year, s.date.day, s.date.day);
    }
  }
}
