/**
 The small helpers of `bccr/utils.py`: locating the first label that matches
 a pattern, the decimal-comma rewrite, the optional resampling step, the
 normalisation of chart arguments to a dictionary, the Gregorian leap-year
 rule, and `tidy`, which indexes, cleans and optionally resamples a reshaped
 chart.
 */
module Utils {
  import opened Common
  import opened Grid

  // ---------------------------------------------------------------------
  // findFirstElement
  // ---------------------------------------------------------------------

  /** The patterns the readers search for. A literal is matched the way
      `re.match(p, s, re.IGNORECASE)` matches a pattern without special
      characters: at the start of `s`, ignoring case. `OneOf` is a leading
      character class such as `^[12]`. */
  datatype Pattern = Literal(text: string) | OneOf(chars: set<char>)

  predicate Matches(p: Pattern, s: string) {
    match p
    case Literal(t) => IsPrefix(Lower(t), Lower(s))
    case OneOf(cs) => |s| > 0 && s[0] in cs
  }

  /** `str(element)` of a scraped cell: its text, or pandas' spelling of NaN / inf. */
  function CellText(c: Cell): string {
    match c
    case Val(s) => s
    case Missing => "nan"
    case Marker => "inf"
  }

  function CellTexts(cells: seq<Cell>): (r: seq<string>)
    ensures |r| == |cells|
    ensures forall i :: 0 <= i < |cells| ==> r[i] == CellText(cells[i])
  {
    seq(|cells|, i requires 0 <= i < |cells| => CellText(cells[i]))
  }

  /** The loop of `findFirstElement` from position `idx` on. */
  function FindFrom(p: Pattern, xs: seq<string>, idx: nat): (r: Result<nat>)
    requires idx <= |xs|
    ensures r.Ok? ==> idx <= r.value < |xs| && Matches(p, xs[r.value])
    ensures r.Ok? ==> forall j :: idx <= j < r.value ==> !Matches(p, xs[j])
    ensures r.Err? <==> forall j :: idx <= j < |xs| ==> !Matches(p, xs[j])
    ensures r.Err? ==> r.error == ValueError
    decreases |xs| - idx
  {
    if idx == |xs| then Err(ValueError)
    else if Matches(p, xs[idx]) then Ok(idx)
    else FindFrom(p, xs, idx + 1)
  }

  /** Index of the first element matching `p`; `ValueError` when none does. */
  function FindFirstElement(p: Pattern, xs: seq<string>): (r: Result<nat>)
    ensures r.Ok? ==> r.value < |xs| && Matches(p, xs[r.value])
    ensures r.Ok? ==> forall j :: 0 <= j < r.value ==> !Matches(p, xs[j])
    ensures r.Err? <==> forall j :: 0 <= j < |xs| ==> !Matches(p, xs[j])
    ensures r.Err? ==> r.error == ValueError
  {
    FindFrom(p, xs, 0)
  }

  // ---------------------------------------------------------------------
  // fixCommas
  // ---------------------------------------------------------------------

  /** `fixCommas`: a text cell has every ',' rewritten to '.'; other cells pass
      through. (The subsequent `float` conversion is not modelled.) */
  function FixCommas(c: Cell): (r: Cell)
    ensures !c.Val? ==> r == c
    ensures c.Val? ==> r.Val? && |r.text| == |c.text| && ',' !in r.text
    ensures c.Val? ==> forall i :: 0 <= i < |c.text| ==>
      (c.text[i] == ',' ==> r.text[i] == '.') && (c.text[i] != ',' ==> r.text[i] == c.text[i])
  {
    match c
    case Val(s) => Val(ReplaceChar(s, ',', '.'))
    case _ => c
  }

  /** Rewriting commas twice changes nothing more. */
  lemma FixCommasIdempotent(c: Cell)
    ensures FixCommas(FixCommas(c)) == FixCommas(c)
  {
    if c.Val? {
      var once := FixCommas(c);
      assert FixCommas(once).text == once.text;
    }
  }

  function FixAll(cells: seq<Cell>): (r: seq<Cell>)
    ensures |r| == |cells|
    ensures forall i :: 0 <= i < |cells| ==> r[i] == FixCommas(cells[i])
  {
    seq(|cells|, i requires 0 <= i < |cells| => FixCommas(cells[i]))
  }

  // ---------------------------------------------------------------------
  // resample
  // ---------------------------------------------------------------------

  /** `resample(series, freq, func)`: marks the data for aggregation to `freq`
      with `func` (the mean when none is named); returns it unchanged when no
      frequency is given. */
  function Resample(d: Tidy, freq: Option<string>, func: Option<string>): (r: Output)
    ensures r.Tidied? || r.Resampled?
    ensures r.data == d
    ensures r.Resampled? <==> Given(freq)
    ensures r.Resampled? ==> r.target == freq.value && r.func == func.GetOr("mean")
  {
    if Given(freq) then Resampled(freq.value, func.GetOr("mean"), d) else Tidied(d)
  }

  // ---------------------------------------------------------------------
  // tidy
  // ---------------------------------------------------------------------

  /** `tidy` for a stacked series: index the values by period offset, rewrite
      decimal commas, name the series, drop missing values, then resample. */
  function TidySeries(values: seq<Cell>, start: string, freq: string, name: string,
                      target: Option<string>, func: Option<string>): (r: Output)
    ensures r.Tidied? || r.Resampled?
    ensures r.Resampled? <==> Given(target)
    ensures r.data.TSeries? && r.data.name == name && r.data.start == start && r.data.freq == freq
    ensures Increasing(r.data.obs)
    ensures forall a :: 0 <= a < |r.data.obs| ==>
      var o := r.data.obs[a]; o.t < |values| && o.v == FixCommas(values[o.t]) && o.v != Missing
  {
    Resample(TSeries(name, start, freq, DropMissing(FixAll(values))), target, func)
  }

  /** `tidy` for a table: name the columns, rewrite decimal commas, drop the
      all-missing rows and then the all-missing columns, then resample.
      Row `i` of `rows` is the period at offset `i`. */
  function TidyTable(rows: Rows, start: string, freq: string, colnames: seq<string>,
                     target: Option<string>, func: Option<string>): (r: Output)
    requires IsRect(rows, |colnames|)
    ensures r.Tidied? || r.Resampled?
    ensures r.Resampled? <==> Given(target)
    ensures r.data.TTable? && r.data.start == start && r.data.freq == freq
    ensures forall a :: 0 <= a < |r.data.rows| ==>
      |r.data.rows[a].cells| == |r.data.columns| && !AllMissing(r.data.rows[a].cells)
  {
    var (cols, kept) := DropEmpty(colnames, FixRows(rows));
    Resample(TTable(start, freq, cols, kept), target, func)
  }

  /** `applymap(fixCommas)` on a whole table. */
  function FixRows(rows: Rows): (r: Rows)
    ensures |r| == |rows|
    ensures forall i :: 0 <= i < |rows| ==> r[i] == FixAll(rows[i])
  {
    seq(|rows|, i requires 0 <= i < |rows| => FixAll(rows[i]))
  }

  /** The comma rewrite never turns a value into a missing one or back. */
  lemma FixAllMissing(cells: seq<Cell>)
    ensures AllMissing(FixAll(cells)) <==> AllMissing(cells)
    ensures forall j :: 0 <= j < |cells| ==> (FixAll(cells)[j] == Missing <==> cells[j] == Missing)
  {
  }

  /** What a tidied table keeps: exactly the periods whose row holds a value,
      in order and at their own offsets, and exactly the columns holding a
      value in some row; every kept cell is the comma-rewritten input cell. */
  lemma TidyTableKeeps(rows: Rows, start: string, freq: string, colnames: seq<string>,
                       target: Option<string>, func: Option<string>, i: nat, j: nat)
    requires IsRect(rows, |colnames|)
    ensures var d := TidyTable(rows, start, freq, colnames, target, func).data;
      var ks := KeptColumns(DropEmptyRows(FixRows(rows), 0), |colnames|, 0);
      d.columns == Select(colnames, ks) &&
      (forall a :: 0 <= a < |d.rows| ==> d.rows[a].t < |rows| && d.rows[a].cells == Select(FixAll(rows[d.rows[a].t]), ks)) &&
      (forall a, b :: 0 <= a < b < |d.rows| ==> d.rows[a].t < d.rows[b].t) &&
      (i < |rows| ==> ((exists a :: 0 <= a < |d.rows| && d.rows[a].t == i) <==> !AllMissing(rows[i]))) &&
      (j < |colnames| ==> (j in ks <==> exists k :: 0 <= k < |rows| && rows[k][j] != Missing))
  {
    var fixed := FixRows(rows);
    DropEmptyKeeps(colnames, fixed, i, j);
    if i < |rows| {
      FixAllMissing(rows[i]);
    }
    if j < |colnames| {
      forall k | 0 <= k < |rows|
        ensures fixed[k][j] != Missing <==> rows[k][j] != Missing
      {
        FixAllMissing(rows[k]);
      }
    }
  }

  // ---------------------------------------------------------------------
  // seriesAsDict
  // ---------------------------------------------------------------------

  /** The ways charts are passed to the readers: one chart number, a list of
      chart numbers, or a dictionary from chart number to series name (an
      insertion-ordered list of pairs). */
  datatype ChartArg = OneChart(chart: int) | ChartList(charts: seq<int>) | ChartDict(names: seq<(int, string)>)

  /** `seriesAsDict`: a dictionary from chart number to series name. A single
      chart is first made a list; a list becomes `{c: '' for c in series}`,
      whose keys are the charts without repetition in order of first
      appearance; a dictionary is returned as it is. */
  function SeriesAsDict(s: ChartArg): (r: seq<(int, string)>)
    ensures s.OneChart? ==> r == [(s.chart, "")]
    ensures s.ChartDict? ==> r == s.names
    ensures s.ChartList? ==> BuiltFrom(r, Blank(s.charts))
    ensures s.ChartList? ==> forall i :: 0 <= i < |r| ==> r[i].1 == ""
  {
    match s
    case OneChart(c) =>
      var ps := Blank([c]);
      assert ps == [(c, "")] && ps[1..] == [];
      assert Put([], c, "") == [(c, "")];
      assert PutAll([], ps) == PutAll([(c, "")], ps[1..]) == [(c, "")];
      PutAll([], ps)
    case ChartDict(d) => d
    case ChartList(cs) =>
      var ps := Blank(cs);
      PutAllFromEmpty(ps);
      var r := PutAll([], ps);
      assert forall i :: 0 <= i < |r| ==> r[i].1 == "" by {
        forall i | 0 <= i < |r|
          ensures r[i].1 == ""
        {
          LastValueConst(ps, r[i].0, "");
        }
      }
      r
  }

  // ---------------------------------------------------------------------
  // is_leap_year
  // ---------------------------------------------------------------------

  /** The Gregorian rule of `is_leap_year`. Python's `%` floors and Dafny's is
      Euclidean; for the positive divisors used here both give the same
      non-negative remainder, also for negative years. */
  predicate IsLeapYear(y: int) {
    y % 4 == 0 && (y % 100 != 0 || y % 400 == 0)
  }

  /** The rule repeats every 400 years. */
  lemma LeapYearPeriodic(y: int)
    ensures IsLeapYear(y + 400) <==> IsLeapYear(y)
  {
    assert (y + 400) % 4 == y % 4;
    assert (y + 400) % 100 == y % 100;
    assert (y + 400) % 400 == y % 400;
  }

  /** A year not divisible by 4 is never a leap year; a multiple of 4 that is
      not a century year always is. */
  lemma LeapYearCases(y: int)
    ensures y % 4 != 0 ==> !IsLeapYear(y)
    ensures y % 4 == 0 && y % 100 != 0 ==> IsLeapYear(y)
    ensures y % 400 == 0 ==> IsLeapYear(y)
    ensures y % 100 == 0 && y % 400 != 0 ==> !IsLeapYear(y)
  {
    if y % 400 == 0 {
      assert y == 400 * (y / 400);
      assert y == 4 * (100 * (y / 400));
    }
  }
}
