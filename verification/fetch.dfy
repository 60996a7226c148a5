// The chart reader built on the catalogue's chart formats (bccr/fetch.py):
// each format fixes the first period, the number of periods, the frequency
// and whether the chart is transposed and stacked into one series; the
// result is then named, cleaned of missing values and optionally resampled.

module Fetch {
  import opened Common
  import opened Grid
  import opened Utils
  import opened Calendar
  import opened Formats

  // ---------------------------------------------------------------------
  // Layout of one chart
  // ---------------------------------------------------------------------

  /** The reshaped data before the time index is attached: one stacked
      series, or a table whose rows are the periods. */
  datatype Shaped = SeriesShape(values: seq<Cell>) | TableShape(table: Frame)

  /** `t0, T, w` and `data` of one chart: the label of the first period, the
      number of periods, the frequency code and the reshaped data. */
  datatype Layout = Layout(start: string, periods: nat, freq: string, data: Shaped)

  /** The number of time positions the reshaped data has. */
  function Positions(s: Shaped): nat {
    match s
    case SeriesShape(values) => |values|
    case TableShape(table) => |table.index|
  }

  /** The formats whose chart `parse` reshapes; every other one is returned raw. */
  predicate Reshaped(f: Format) {
    f != DayIndicator
  }

  /** The formats read into one stacked series. */
  predicate Stacked(f: Format) {
    f == YearMonth || f == MonthYear || f == DayYear
  }

  /** `int(y)` for every column label: `ValueError` as soon as one is not an
      integer. */
  function ParseYears(labels: seq<string>): (r: Result<seq<int>>)
    ensures r.Ok? <==> forall k :: 0 <= k < |labels| ==> ParseInt(labels[k]).Some?
    ensures r.Ok? ==> |r.value| == |labels|
    ensures r.Ok? ==> forall k :: 0 <= k < |labels| ==> ParseInt(labels[k]) == Some(r.value[k])
    ensures r.Err? ==> r.error == ValueError
  {
    if |labels| == 0 then Ok([])
    else
      match ParseInt(labels[0])
      case None => Err(ValueError)
      case Some(y) =>
        var rest := ParseYears(labels[1..]);
        assert forall k :: 1 <= k < |labels| ==> labels[1..][k - 1] == labels[k];
        if rest.Err? then Err(rest.error) else Ok([y] + rest.value)
  }

  /** The labels `str(y)` of a list of years. */
  function YearLabels(years: seq<int>): (r: seq<string>)
    ensures |r| == |years| && forall k :: 0 <= k < |years| ==> r[k] == IntToString(years[k])
  {
    seq(|years|, k requires 0 <= k < |years| => IntToString(years[k]))
  }

  /** Year labels written by `str` are read back as the same years. */
  lemma YearLabelsRoundTrip(years: seq<int>)
    ensures ParseYears(YearLabels(years)) == Ok(years)
  {
    var r := ParseYears(YearLabels(years));
    forall k | 0 <= k < |years|
      ensures ParseInt(YearLabels(years)[k]) == Some(years[k])
    {
      IntRoundTrip(years[k]);
    }
    assert r.value == years;
  }

  /** `'total' in str(label).lower()`. */
  predicate IsTotal(rowLabel: string) {
    Contains(Lower(rowLabel), "total")
  }

  /** `rawdata.drop(rawdata.index[0])`. */
  function DropFirstRow(f: Frame): (r: Frame)
    requires f.Valid() && |f.index| > 0
    ensures r.Valid() && r.columns == f.columns && |r.index| + 1 == |f.index|
    ensures forall i :: 0 <= i < |r.index| ==> r.index[i] == f.index[i + 1] && r.cells[i] == f.cells[i + 1]
  {
    Frame(f.index[1..], f.columns, f.cells[1..])
  }

  /** The frame a month-by-year chart is read from: without its first row when
      that row is a "Total" row. */
  function MonthYearFrame(raw: Frame): (r: Frame)
    requires raw.Valid() && |raw.index| > 0
    ensures r.Valid() && r.columns == raw.columns
    ensures !IsTotal(raw.index[0]) ==> r == raw
    ensures IsTotal(raw.index[0]) ==>
      |r.index| + 1 == |raw.index| &&
      forall i :: 0 <= i < |r.index| ==> r.index[i] == raw.index[i + 1] && r.cells[i] == raw.cells[i + 1]
  {
    if IsTotal(raw.index[0]) then DropFirstRow(raw) else raw
  }

  /** The per-format reshape of `parse`. `quarterStart` and `monthStart` stand
      for `parseQuarterYear` and `parseMonthYear`, which are not part of this
      model. */
  function ChartLayout(fmt: Format, raw: Frame, quarterStart: string -> string, monthStart: string -> string): (r: Result<Layout>)
    requires raw.Valid() && Reshaped(fmt)
    ensures r.Ok? ==> r.value.periods == Positions(r.value.data)
    ensures r.Ok? ==> (r.value.data.SeriesShape? <==> Stacked(fmt))
    ensures r.Ok? && r.value.data.TableShape? ==> r.value.data.table.Valid()
    ensures r.Ok? ==> FreqOf(r.value.freq).Some?
    ensures r.Err? ==> r.error == IndexError || (fmt == DayYear && r.error == ValueError)
  {
    match fmt
    case YearMonth =>
      if |raw.index| == 0 then Err(IndexError)
      else Ok(Layout(raw.index[0] + "/01", raw.Size(), "M", SeriesShape(Stack(raw))))
    case MonthYear =>
      if |raw.index| == 0 || |raw.columns| == 0 then Err(IndexError)
      else
        var f := MonthYearFrame(raw);
        var t := Transpose(f);
        assert t.Size() == f.Size() by {
          assert |t.index| * |t.columns| == |f.index| * |f.columns|;
        }
        Ok(Layout(f.columns[0] + "/01", f.Size(), "M", SeriesShape(Stack(t))))
    case IndicatorYear =>
      if |raw.columns| == 0 then Err(IndexError)
      else Ok(Layout(raw.columns[0] + "/12", |raw.columns|, "A", TableShape(Transpose(raw))))
    case IndicatorQuarter =>
      if |raw.columns| == 0 then Err(IndexError)
      else Ok(Layout(quarterStart(raw.columns[0]), |raw.columns|, "Q", TableShape(Transpose(raw))))
    case QuarterIndicator =>
      if |raw.index| == 0 then Err(IndexError)
      else Ok(Layout(quarterStart(raw.index[0]), |raw.index|, "Q", TableShape(raw)))
    case MonthIndicator =>
      if |raw.index| == 0 then Err(IndexError)
      else Ok(Layout(monthStart(raw.index[0]), |raw.index|, "M", TableShape(raw)))
    case IndicatorMonth =>
      if |raw.columns| == 0 then Err(IndexError)
      else Ok(Layout(monthStart(raw.columns[0]), |raw.columns|, "M", TableShape(Transpose(raw))))
    case DayYear =>
      var years := ParseYears(raw.columns);
      if years.Err? then Err(ValueError)
      else if |raw.index| <= Feb29Row || |raw.columns| == 0 then Err(IndexError)
      else
        var cells := DayYearCells(raw, years.value);
        Ok(Layout(IntToString(years.value[0]) + "/01/01", |cells|, "D", SeriesShape(cells)))
  }

  /** The number of periods of each format: the grid size for the stacked
      monthly charts, the column count for the charts with one column per
      period and the row count for the charts with one row per period; a
      chart without the first label its format reads fails. */
  lemma PeriodCounts(fmt: Format, raw: Frame, quarterStart: string -> string, monthStart: string -> string)
    requires raw.Valid() && Reshaped(fmt) && fmt != DayYear
    ensures var r := ChartLayout(fmt, raw, quarterStart, monthStart);
      var byRows := fmt == YearMonth || fmt == QuarterIndicator || fmt == MonthIndicator;
      var byColumns := fmt == IndicatorYear || fmt == IndicatorQuarter || fmt == IndicatorMonth;
      (r.Err? <==> (byRows && |raw.index| == 0) || (byColumns && |raw.columns| == 0) ||
                   (fmt == MonthYear && (|raw.index| == 0 || |raw.columns| == 0))) &&
      (r.Ok? && fmt == YearMonth ==> r.value.periods == |raw.index| * |raw.columns|) &&
      (r.Ok? && fmt == MonthYear ==>
        r.value.periods == (|raw.index| - (if IsTotal(raw.index[0]) then 1 else 0)) * |raw.columns|) &&
      (r.Ok? && byColumns ==> r.value.periods == |raw.columns|) &&
      (r.Ok? && (fmt == QuarterIndicator || fmt == MonthIndicator) ==> r.value.periods == |raw.index|)
  {
  }

  /** Year-by-month charts are stacked row by row: cell `(i, j)` is the period
      `i * 12 + j` months after January of the first row's year. */
  lemma YearMonthLayout(raw: Frame, i: nat, j: nat, quarterStart: string -> string, monthStart: string -> string)
    requires raw.Valid() && i < |raw.index| && j < |raw.columns|
    ensures var r := ChartLayout(YearMonth, raw, quarterStart, monthStart);
      r.Ok? && r.value.start == raw.index[0] + "/01" && r.value.freq == "M" &&
      i * |raw.columns| + j < |r.value.data.values| &&
      r.value.data.values[i * |raw.columns| + j] == raw.cells[i][j]
  {
    StackIndex(raw, i, j);
  }

  /** Month-by-year charts lose their first row exactly when its label holds
      "total" in any case, and are then read column by column: cell `(i, j)`
      of the kept rows is the period `j * rows + i`. */
  lemma MonthYearLayout(raw: Frame, i: nat, j: nat, quarterStart: string -> string, monthStart: string -> string)
    requires raw.Valid() && |raw.index| > 0 && j < |raw.columns|
    requires (if IsTotal(raw.index[0]) then 1 else 0) <= i < |raw.index|
    ensures var r := ChartLayout(MonthYear, raw, quarterStart, monthStart);
      var drop := if IsTotal(raw.index[0]) then 1 else 0;
      var h := |raw.index| - drop;
      r.Ok? && r.value.start == raw.columns[0] + "/01" && r.value.freq == "M" &&
      j * h + (i - drop) < |r.value.data.values| &&
      r.value.data.values[j * h + (i - drop)] == raw.cells[i][j]
  {
    var f := MonthYearFrame(raw);
    var drop := if IsTotal(raw.index[0]) then 1 else 0;
    assert f.cells[i - drop] == raw.cells[i];
    StackTransposedIndex(f, i - drop, j);
  }

  /** Every kept cell of a day-by-year chart with 366 day rows is the chart
      cell of one calendar day of its year column, and each year column keeps
      one cell per day of that year: 29 February survives in leap years only.
      The series starts on 1 January of the first column's year. */
  lemma DayYearLayout(raw: Frame, years: seq<int>, quarterStart: string -> string, monthStart: string -> string)
    requires raw.Valid() && |raw.index| == DayRows && NoMarkers(raw.cells) && |raw.columns| > 0
    requires ParseYears(raw.columns) == Ok(years)
    ensures var r := ChartLayout(DayYear, raw, quarterStart, monthStart);
      r.Ok? && r.value.start == IntToString(years[0]) + "/01/01" && r.value.freq == "D" &&
      r.value.data.values == DayYearCells(raw, years) &&
      |r.value.data.values| == |Slots(years)| &&
      forall k :: 0 <= k < |Slots(years)| ==>
        var s := Slots(years)[k];
        s.col < |years| && s.date.year == years[s.col] && ValidDate(s.date) &&
        r.value.data.values[k] == raw.cells[ChartRow(s.date)][s.col]
  {
    DayYearAlignment(raw, years);
  }

  /** For a day-by-year chart whose columns are the consecutive years `y0`,
      `y0 + 1`, ...: the k-th value of the series is the chart cell of the
      k-th calendar day after 1 January of `y0`, with no day missing or
      repeated. */
  lemma DayYearConsecutiveDays(raw: Frame, y0: int, quarterStart: string -> string, monthStart: string -> string)
    requires raw.Valid() && |raw.index| == DayRows && NoMarkers(raw.cells) && |raw.columns| > 0
    requires raw.columns == YearLabels(YearsFrom(y0, |raw.columns|))
    ensures var r := ChartLayout(DayYear, raw, quarterStart, monthStart);
      var days := Days(y0, |raw.columns|);
      r.Ok? && r.value.start == IntToString(y0) + "/01/01" &&
      |r.value.data.values| == |days| &&
      forall k :: 0 <= k < |days| ==>
        0 <= days[k].year - y0 < |raw.columns| && ChartRow(days[k]) < DayRows &&
        r.value.data.values[k] == raw.cells[ChartRow(days[k])][days[k].year - y0]
  {
    var years := YearsFrom(y0, |raw.columns|);
    YearLabelsRoundTrip(years);
    DayYearConsecutive(raw, y0);
  }

  // ---------------------------------------------------------------------
  // parse
  // ---------------------------------------------------------------------

  /** `[name + txt for txt in columns]`. */
  function Prefixed(name: string, columns: seq<string>): (r: seq<string>)
    ensures |r| == |columns| && forall k :: 0 <= k < |columns| ==> r[k] == name + columns[k]
  {
    seq(|columns|, k requires 0 <= k < |columns| => name + columns[k])
  }

  /** `func if func else np.mean`: the aggregation actually applied. */
  function AppliedFunc(func: Option<string>): (r: Option<string>)
    ensures Given(func) ==> r == func
    ensures !Given(func) ==> r.None?
  {
    if Given(func) then func else None
  }

  /** Name, clean and resample the reshaped data. A series takes `name` when
      given and the chart title otherwise, and drops its missing values; a
      table prefixes every column label with `name` and drops all-missing
      rows, then all-missing columns. `name + txt` is evaluated once per
      column, so a missing `name` is a `TypeError` only when the table has a
      column. */
  function Finish(l: Layout, title: string, name: Option<string>, freq: Option<string>, func: Option<string>): (r: Result<Output>)
    requires l.data.TableShape? ==> l.data.table.Valid()
    ensures r.Err? <==> l.data.TableShape? && name.None? && |l.data.table.columns| > 0
    ensures r.Err? ==> r.error == TypeError
    ensures r.Ok? ==> !r.value.Unchanged? && r.value.data.start == l.start && r.value.data.freq == l.freq
    ensures r.Ok? ==> (r.value.Resampled? <==> Given(freq))
    ensures r.Ok? && r.value.Resampled? ==> r.value.target == freq.value
  {
    match l.data
    case SeriesShape(values) =>
      var seriesName := if Given(name) then name.value else title;
      Ok(Resample(TSeries(seriesName, l.start, l.freq, DropMissing(values)), freq, AppliedFunc(func)))
    case TableShape(t) =>
      if name.None? && |t.columns| > 0 then Err(TypeError)
      else
        var (cols, rows) := DropEmpty(Prefixed(name.GetOr(""), t.columns), t.cells);
        Ok(Resample(TTable(l.start, l.freq, cols, rows), freq, AppliedFunc(func)))
  }

  /** `parse` on an already downloaded chart: an unknown format or one that
      `parse` does not reshape returns the raw chart unchanged. */
  function Parse(chartFormat: string, raw: Frame, title: string, name: Option<string>,
                 freq: Option<string>, func: Option<string>,
                 quarterStart: string -> string, monthStart: string -> string): (r: Result<Output>)
    requires raw.Valid()
    ensures (FormatOf(chartFormat).None? || FormatOf(chartFormat) == Some(DayIndicator)) <==>
      r.Ok? && r.value.Unchanged?
    ensures r.Ok? && r.value.Unchanged? ==> r.value.raw == raw
    ensures r.Ok? && !r.value.Unchanged? ==> (r.value.Resampled? <==> Given(freq))
    ensures r.Ok? && r.value.Resampled? ==> r.value.target == freq.value
  {
    match FormatOf(chartFormat)
    case None => Ok(Unchanged(raw))
    case Some(fmt) =>
      if !Reshaped(fmt) then Ok(Unchanged(raw))
      else
        var l := ChartLayout(fmt, raw, quarterStart, monthStart);
        if l.Err? then Err(l.error) else Finish(l.value, title, name, freq, func)
  }

  /** A stacked chart keeps exactly its non-missing values, each at its own
      period, under `name` when given and under the chart title otherwise. */
  lemma SeriesDropsMissing(chartFormat: string, raw: Frame, title: string, name: Option<string>,
                           freq: Option<string>, func: Option<string>,
                           quarterStart: string -> string, monthStart: string -> string, k: nat)
    requires raw.Valid()
    requires FormatOf(chartFormat).Some? && Stacked(FormatOf(chartFormat).value)
    requires ChartLayout(FormatOf(chartFormat).value, raw, quarterStart, monthStart).Ok?
    ensures var l := ChartLayout(FormatOf(chartFormat).value, raw, quarterStart, monthStart).value;
      var r := Parse(chartFormat, raw, title, name, freq, func, quarterStart, monthStart);
      r.Ok? && r.value.data.TSeries? &&
      r.value.data.name == (if Given(name) then name.value else title) &&
      Increasing(r.value.data.obs) &&
      (k < |l.data.values| ==> (Obs(k, l.data.values[k]) in r.value.data.obs <==> l.data.values[k] != Missing))
  {
    var l := ChartLayout(FormatOf(chartFormat).value, raw, quarterStart, monthStart).value;
    if k < |l.data.values| {
      DropMissingIff(l.data.values, k);
    }
  }

  /** A table chart keeps exactly the periods with some value and the columns
      with some value in any period; each kept column is labelled `name`
      followed by its header, and each kept row is its period's row cut down
      to the kept columns. */
  lemma TableDropsEmpty(chartFormat: string, raw: Frame, title: string, name: string,
                        freq: Option<string>, func: Option<string>,
                        quarterStart: string -> string, monthStart: string -> string, i: nat, j: nat)
    requires raw.Valid()
    requires FormatOf(chartFormat).Some? && Reshaped(FormatOf(chartFormat).value) && !Stacked(FormatOf(chartFormat).value)
    requires ChartLayout(FormatOf(chartFormat).value, raw, quarterStart, monthStart).Ok?
    ensures var t := ChartLayout(FormatOf(chartFormat).value, raw, quarterStart, monthStart).value.data.table;
      var r := Parse(chartFormat, raw, title, Some(name), freq, func, quarterStart, monthStart);
      var ks := KeptColumns(DropEmptyRows(t.cells, 0), |t.columns|, 0);
      r.Ok? && r.value.data.TTable? &&
      r.value.data.columns == Select(Prefixed(name, t.columns), ks) &&
      (forall a :: 0 <= a < |r.value.data.rows| ==>
        r.value.data.rows[a].t < |t.cells| &&
        r.value.data.rows[a].cells == Select(t.cells[r.value.data.rows[a].t], ks)) &&
      (forall a, b :: 0 <= a < b < |r.value.data.rows| ==> r.value.data.rows[a].t < r.value.data.rows[b].t) &&
      (i < |t.cells| ==>
        ((exists a :: 0 <= a < |r.value.data.rows| && r.value.data.rows[a].t == i) <==> !AllMissing(t.cells[i]))) &&
      (j < |t.columns| ==> (j in ks <==> exists p :: 0 <= p < |t.cells| && t.cells[p][j] != Missing))
  {
    var t := ChartLayout(FormatOf(chartFormat).value, raw, quarterStart, monthStart).value.data.table;
    DropEmptyKeeps(Prefixed(name, t.columns), t.cells, i, j);
  }

  // ---------------------------------------------------------------------
  // read
  // ---------------------------------------------------------------------

  /** One chart of a `read` call, already downloaded. */
  datatype ChartRequest = ChartRequest(name: Option<string>, format: string, raw: Frame,
                                       title: string, func: Option<string>)

  /** The frequency `read` passes to every chart: the requested one, or, when
      none is requested and the charts' original frequencies are not all the
      same, the lowest of them (`lowest` stands for `lowestFrequency`, which is
      not part of this model). */
  function ReadFreq(freq: Option<string>, original: seq<string>, lowest: seq<string> -> string): (r: Option<string>)
    ensures freq.Some? ==> r == freq
    ensures r.None? <==> freq.None? && !Mixed(original)
    ensures freq.None? && Mixed(original) ==> r == Some(lowest(original))
  {
    if freq.None? && Mixed(original) then Some(lowest(original)) else freq
  }

  /** The original frequency of every chart, from its format. */
  function OriginalFreqs(reqs: seq<ChartRequest>, chartFreq: string -> string): (r: seq<string>)
    ensures |r| == |reqs| && forall i :: 0 <= i < |reqs| ==> r[i] == chartFreq(reqs[i].format)
  {
    seq(|reqs|, i requires 0 <= i < |reqs| => chartFreq(reqs[i].format))
  }

  predicate AllValid(reqs: seq<ChartRequest>) {
    forall i :: 0 <= i < |reqs| ==> reqs[i].raw.Valid()
  }

  /** Parse every chart in turn with a common frequency; the first failure is
      the result. */
  function ParseAll(reqs: seq<ChartRequest>, freq: Option<string>,
                    quarterStart: string -> string, monthStart: string -> string): (r: Result<seq<Output>>)
    requires AllValid(reqs)
    ensures r.Ok? ==> |r.value| == |reqs| && forall i :: 0 <= i < |reqs| ==>
      Parse(reqs[i].format, reqs[i].raw, reqs[i].title, reqs[i].name, freq, reqs[i].func, quarterStart, monthStart)
        == Ok(r.value[i])
    ensures r.Err? ==>
      exists i :: 0 <= i < |reqs| &&
        Parse(reqs[i].format, reqs[i].raw, reqs[i].title, reqs[i].name, freq, reqs[i].func, quarterStart, monthStart)
          == Err(r.error)
  {
    if |reqs| == 0 then Ok([])
    else
      var q := reqs[0];
      var head := Parse(q.format, q.raw, q.title, q.name, freq, q.func, quarterStart, monthStart);
      if head.Err? then Err(head.error)
      else
        var rest := ParseAll(reqs[1..], freq, quarterStart, monthStart);
        if rest.Err? then Err(rest.error)
        else
          assert forall i :: 1 <= i < |reqs| ==> reqs[1..][i - 1] == reqs[i];
          Ok([head.value] + rest.value)
  }

  /** `read`: the charts parsed with one frequency, side by side. */
  function Read(reqs: seq<ChartRequest>, freq: Option<string>, chartFreq: string -> string,
                lowest: seq<string> -> string,
                quarterStart: string -> string, monthStart: string -> string): Result<seq<Output>>
    requires AllValid(reqs)
  {
    ParseAll(reqs, ReadFreq(freq, OriginalFreqs(reqs, chartFreq), lowest), quarterStart, monthStart)
  }

  /** A reshaped chart is resampled exactly when a frequency is requested or
      the charts' original frequencies differ, and then to the requested
      frequency, or else to the lowest original one; in particular nothing is
      resampled when every chart has the same original frequency and none is
      requested. */
  lemma ReadResamples(reqs: seq<ChartRequest>, freq: Option<string>, chartFreq: string -> string,
                      lowest: seq<string> -> string,
                      quarterStart: string -> string, monthStart: string -> string, i: nat)
    requires AllValid(reqs)
    requires Read(reqs, freq, chartFreq, lowest, quarterStart, monthStart).Ok? && i < |reqs|
    ensures var out := Read(reqs, freq, chartFreq, lowest, quarterStart, monthStart).value;
      var f := ReadFreq(freq, OriginalFreqs(reqs, chartFreq), lowest);
      |out| == |reqs| &&
      (!out[i].Unchanged? ==> (out[i].Resampled? <==> Given(f))) &&
      (out[i].Resampled? && Given(freq) ==> out[i].target == freq.value) &&
      (freq.None? && Mixed(OriginalFreqs(reqs, chartFreq)) && !out[i].Unchanged? && lowest(OriginalFreqs(reqs, chartFreq)) != "" ==>
        out[i].Resampled? && out[i].target == lowest(OriginalFreqs(reqs, chartFreq))) &&
      ((freq.None? && forall k :: 0 <= k < |reqs| ==> chartFreq(reqs[k].format) == chartFreq(reqs[0].format)) ==>
        !out[i].Resampled?)
  {
    var f := ReadFreq(freq, OriginalFreqs(reqs, chartFreq), lowest);
    var out := Read(reqs, freq, chartFreq, lowest, quarterStart, monthStart).value;
    var q := reqs[i];
    assert Parse(q.format, q.raw, q.title, q.name, f, q.func, quarterStart, monthStart) == Ok(out[i]);
    if freq.None? && (forall k :: 0 <= k < |reqs| ==> chartFreq(reqs[k].format) == chartFreq(reqs[0].format)) {
      var orig := OriginalFreqs(reqs, chartFreq);
      assert !Mixed(orig);
    }
  }
}
