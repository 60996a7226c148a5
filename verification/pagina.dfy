// The chart-page client (bccr/pagina.py): the chart URL, the catalogue
// lookups `soporte` and `__nombre__`, the cleaning steps of `__parse__`, and
// the request handling of `datos` up to the harmonisation of frequencies.
// The catalogue search of `buscar` is the `Search` module.

module Pagina {
  import opened Common
  import opened Grid
  import opened Utils
  import opened Calendar
  import opened Query
  import opened Formats
  import opened Fetch
  import Download

  // ---------------------------------------------------------------------
  // api
  // ---------------------------------------------------------------------

  /** The chart page of the statistics site. */
  const Page: string := "https://gee.bccr.fi.cr/indicadoreseconomicos/Cuadros/frmVerCatCuadro.aspx?"

  /** The parameters `PaginaWeb.api` writes, in order: the chart, the first
      date when given, the last date when given, and the two export flags
      when the Excel version is asked for. */
  function PageKeys(first: Option<string>, last: Option<string>, excel: bool): (ks: seq<Download.ApiKey>)
    ensures |ks| > 0 && ks[0] == Download.CodCuadro
    ensures forall i, j :: 0 <= i < j < |ks| ==> Download.Rank(ks[i]) < Download.Rank(ks[j])
    ensures Download.FecInicial in ks <==> Given(first)
    ensures Download.FecFinal in ks <==> Given(last)
    ensures Download.Exportar in ks <==> excel
    ensures Download.Excel in ks <==> excel
  {
    [Download.CodCuadro] + (if Given(first) then [Download.FecInicial] else [])
    + (if Given(last) then [Download.FecFinal] else [])
    + (if excel then [Download.Exportar, Download.Excel] else [])
  }

  /** The value written for each parameter. `chart` is the chart argument as
      `str` writes it, and `parseDate(d, inicio)` stands for
      `parse_date_parameter`, which is not part of this model. */
  function PageValue(k: Download.ApiKey, chart: string, first: Option<string>, last: Option<string>,
                     parseDate: (string, bool) -> string): string
  {
    match k
    case CodCuadro => chart
    case FecInicial => parseDate(first.GetOr(""), true)
    case FecFinal => parseDate(last.GetOr(""), false)
    case Exportar => "True"
    case Excel => "True"
  }

  /** The dictionary `params` of `api`, in insertion order. */
  function ApiParams(chart: string, first: Option<string>, last: Option<string>, excel: bool,
                     parseDate: (string, bool) -> string): (ps: seq<Param>)
    ensures var ks := PageKeys(first, last, excel);
      |ps| == |ks| &&
      forall i :: 0 <= i < |ks| ==> ps[i] == Param(Download.KeyName(ks[i]), PageValue(ks[i], chart, first, last, parseDate))
  {
    var ks := PageKeys(first, last, excel);
    seq(|ks|, i requires 0 <= i < |ks| => Param(Download.KeyName(ks[i]), PageValue(ks[i], chart, first, last, parseDate)))
  }

  /** `PaginaWeb.api`: the page address followed by the parameters joined by '&'. */
  function Api(chart: string, first: Option<string>, last: Option<string>, excel: bool,
               parseDate: (string, bool) -> string): (url: string)
    ensures Page <= url
  {
    Page + EncodeQuery(ApiParams(chart, first, last, excel, parseDate))
  }

  /** A parameter value that cannot be confused with the delimiters. */
  predicate CleanValue(v: string) {
    '&' !in v && '=' !in v
  }

  lemma PageParamClean(k: Download.ApiKey, chart: string, first: Option<string>, last: Option<string>,
                       parseDate: (string, bool) -> string)
    requires CleanValue(chart)
    requires k == Download.FecInicial ==> CleanValue(parseDate(first.GetOr(""), true))
    requires k == Download.FecFinal ==> CleanValue(parseDate(last.GetOr(""), false))
    ensures CleanParam(Param(Download.KeyName(k), PageValue(k, chart, first, last, parseDate)))
  {
    Download.KeyNameLetters(k);
    match k
    case CodCuadro =>
    case FecInicial =>
    case FecFinal =>
    case Exportar => assert Letters("True");
    case Excel => assert Letters("True");
  }

  /** Reading the URL back gives exactly the parameters, in order; it carries
      the dates exactly when they are given and the export flags exactly when
      the Excel version is asked for. */
  lemma ApiDecodes(chart: string, first: Option<string>, last: Option<string>, excel: bool,
                   parseDate: (string, bool) -> string)
    requires CleanValue(chart)
    requires Given(first) ==> CleanValue(parseDate(first.value, true))
    requires Given(last) ==> CleanValue(parseDate(last.value, false))
    ensures var url := Api(chart, first, last, excel, parseDate);
      DecodeUrl(Page, url) == Some(ApiParams(chart, first, last, excel, parseDate)) &&
      (HasParam(Page, url, "FecInicial") <==> Given(first)) &&
      (HasParam(Page, url, "FecFinal") <==> Given(last)) &&
      (HasParam(Page, url, "Exportar") <==> excel) &&
      (HasParam(Page, url, "Excel") <==> excel)
  {
    var ks := PageKeys(first, last, excel);
    var ps := ApiParams(chart, first, last, excel, parseDate);
    forall i | 0 <= i < |ps|
      ensures CleanParam(ps[i])
    {
      PageParamClean(ks[i], chart, first, last, parseDate);
    }
    UrlRoundTrip(Page, ps);
    Download.KeysNamed(ks, ps);
    assert Download.KeyName(Download.FecInicial) == "FecInicial" && Download.KeyName(Download.FecFinal) == "FecFinal";
    assert Download.KeyName(Download.Exportar) == "Exportar" && Download.KeyName(Download.Excel) == "Excel";
  }

  lemma JoinThree(a: string, b: string, c: string, sep: string)
    ensures Join([a, b, c], sep) == a + sep + (b + sep + c)
  {
    assert [a, b, c][1..] == [b, c];
    assert [b, c][1..] == [c];
    assert Join([b, c], sep) == b + sep + c;
  }

  /** The first example of the documentation of `api`: chart 9 with the
      Excel export, i.e. the query `CodCuadro=9&Exportar=True&Excel=True`. */
  lemma ApiExampleExcel(parseDate: (string, bool) -> string)
    ensures Api("9", None, None, true, parseDate)
         == Page + ("CodCuadro=9" + "&" + ("Exportar=True" + "&" + "Excel=True"))
  {
    ExcelPieces(parseDate);
    JoinThree("CodCuadro=9", "Exportar=True", "Excel=True", "&");
  }

  lemma ExcelPieces(parseDate: (string, bool) -> string)
    ensures EncodeParams(ApiParams("9", None, None, true, parseDate)) == ["CodCuadro=9", "Exportar=True", "Excel=True"]
  {
    assert PageKeys(None, None, true) == [Download.CodCuadro, Download.Exportar, Download.Excel];
    var ps := ApiParams("9", None, None, true, parseDate);
    assert ps == [Param("CodCuadro", "9"), Param("Exportar", "True"), Param("Excel", "True")];
    assert EncodeParam(ps[0]) == "CodCuadro=9";
    assert EncodeParam(ps[1]) == "Exportar=True";
    assert EncodeParam(ps[2]) == "Excel=True";
  }

  /** The last example of the documentation of `api`: chart 125 as a web page. */
  lemma ApiExampleHtml(parseDate: (string, bool) -> string)
    ensures Api("125", None, None, false, parseDate) == Page + "CodCuadro=125"
  {
    assert PageKeys(None, None, false) == [Download.CodCuadro];
    var qs := ApiParams("125", None, None, false, parseDate);
    assert qs == [Param("CodCuadro", "125")];
    assert EncodeParams(qs)[0] == "CodCuadro=125";
  }

  // ---------------------------------------------------------------------
  // The catalogue: soporte and __nombre__
  // ---------------------------------------------------------------------

  /** A catalogue row. */
  datatype Chart = Chart(title: string, subtitle: string, freq: string, format: string)

  /** The chart catalogue, indexed by integer chart number. */
  type Catalogue = map<int, Chart>

  /** A chart argument: an `int` or a `str`. */
  datatype Code = IntCode(n: int) | StrCode(s: string)

  /** `int(cuadro)`. */
  function CodeInt(c: Code): (r: Result<int>)
    ensures c.IntCode? ==> r == Ok(c.n)
    ensures c.StrCode? ==> (r.Ok? <==> ParseInt(c.s).Some?) && (r.Ok? ==> r.value == ParseInt(c.s).value)
    ensures r.Err? ==> r.error == ValueError
  {
    match c
    case IntCode(n) => Ok(n)
    case StrCode(s) => if ParseInt(s).Some? then Ok(ParseInt(s).value) else Err(ValueError)
  }

  /** `str(cuadro)`. */
  function CodeStr(c: Code): string {
    match c
    case IntCode(n) => IntToString(n)
    case StrCode(s) => s
  }

  /** `soporte`: whether the chart number is in the catalogue; a `str` that is
      not an integer raises `ValueError`. */
  function Soporte(cat: Catalogue, c: Code): (r: Result<bool>)
    ensures r.Ok? <==> CodeInt(c).Ok?
    ensures r.Ok? ==> (r.value <==> CodeInt(c).value in cat)
  {
    var n :- CodeInt(c);
    Ok(n in cat)
  }

  /** `__nombre__` as written: `cuadros.loc[cuadro, 'title']` looks the
      argument up as given, so a supported chart passed as a `str` is looked
      up under a text label on the integer index and raises `KeyError`. */
  function NombreAsWritten(cat: Catalogue, c: Code): (r: Result<string>)
    ensures r.Err? <==> CodeInt(c).Err? || (c.StrCode? && CodeInt(c).value in cat)
  {
    var supported :- Soporte(cat, c);
    if !supported then Ok(CodeStr(c))
    else match c
      case IntCode(n) => Ok(cat[n].title)
      case StrCode(_) => Err(KeyError)
  }

  /** `__nombre__` looking the chart up by its number, as `soporte` does: the
      catalogue title of a supported chart, the argument as text otherwise. */
  function Nombre(cat: Catalogue, c: Code): (r: Result<string>)
    ensures r.Ok? <==> CodeInt(c).Ok?
    ensures r.Ok? && CodeInt(c).value in cat ==> r.value == cat[CodeInt(c).value].title
    ensures r.Ok? && CodeInt(c).value !in cat ==> r.value == CodeStr(c)
  {
    var n :- CodeInt(c);
    if n in cat then Ok(cat[n].title) else Ok(CodeStr(c))
  }

  /** The discrepancy: chart 125 in the catalogue, asked for as "125". */
  lemma NombreStrCodeFails(cat: Catalogue)
    requires 125 in cat
    ensures CodeInt(StrCode("125")) == Ok(125)
    ensures Soporte(cat, StrCode("125")) == Ok(true)
    ensures NombreAsWritten(cat, StrCode("125")) == Err(KeyError)
    ensures Nombre(cat, StrCode("125")) == Ok(cat[125].title)
  {
    assert AllDigits("125");
    assert DigitsValue("125") == 125 by {
      assert "125"[..2] == "12" && "12"[..1] == "1";
    }
  }

  /** Both spellings of a chart number give the same name, and the name of an
      unknown chart reads back as its number. */
  lemma NombreBySpelling(cat: Catalogue, n: int)
    ensures Nombre(cat, StrCode(IntToString(n))) == Nombre(cat, IntCode(n))
    ensures n !in cat ==> ParseInt(Nombre(cat, IntCode(n)).value) == Some(n)
  {
    IntRoundTrip(n);
  }

  // ---------------------------------------------------------------------
  // __parse__
  // ---------------------------------------------------------------------

  /** `int(x.split()[-1])`: the year a day label ends with. */
  function LabelYear(x: string): (r: Result<int>)
    ensures r.Ok? ==> |Words(x)| > 0 && ParseInt(Words(x)[|Words(x)| - 1]) == Some(r.value)
    ensures r.Err? ==> (r.error == IndexError <==> |Words(x)| == 0)
    ensures r.Err? ==> r.error == IndexError || r.error == ValueError
  {
    var ws := Words(x);
    if |ws| == 0 then Err(IndexError)
    else if ParseInt(ws[|ws| - 1]).None? then Err(ValueError)
    else Ok(ParseInt(ws[|ws| - 1]).value)
  }

  /** The years of every row label; the first label without one fails. */
  function LabelYears(index: seq<string>): (r: Result<seq<int>>)
    ensures r.Ok? <==> forall k :: 0 <= k < |index| ==> LabelYear(index[k]).Ok?
    ensures r.Ok? ==> |r.value| == |index|
    ensures r.Ok? ==> forall k :: 0 <= k < |index| ==> LabelYear(index[k]) == Ok(r.value[k])
  {
    if |index| == 0 then Ok([])
    else
      var y := LabelYear(index[0]);
      var rest := LabelYears(index[1..]);
      assert forall k :: 1 <= k < |index| ==> index[1..][k - 1] == index[k];
      if y.Err? then Err(y.error)
      else if rest.Err? then Err(rest.error)
      else Ok([y.value] + rest.value)
  }

  /** A 29 February row of a year that is not a leap year. */
  predicate WrongDay(x: string, year: int) {
    Contains(x, "29 Feb") && !IsLeapYear(year)
  }

  /** The positions (from `from` on) of the rows that are not wrong days. */
  function KeptDays(index: seq<string>, years: seq<int>, from: nat): (ks: seq<nat>)
    requires |years| == |index| && from <= |index|
    ensures forall a :: 0 <= a < |ks| ==> from <= ks[a] < |index|
    ensures forall a, b :: 0 <= a < b < |ks| ==> ks[a] < ks[b]
    ensures forall j :: from <= j < |index| ==> (j in ks <==> !WrongDay(index[j], years[j]))
    decreases |index| - from
  {
    if from == |index| then []
    else
      var rest := KeptDays(index, years, from + 1);
      if WrongDay(index[from], years[from]) then rest else [from] + rest
  }

  /** `data.iloc[~wrong_day]` for day-by-indicator charts. */
  function DropWrongDays(f: Frame): (r: Result<Frame>)
    requires f.Valid()
    ensures r.Ok? <==> LabelYears(f.index).Ok?
    ensures r.Ok? ==> r.value.Valid() && r.value.columns == f.columns
  {
    var years :- LabelYears(f.index);
    var ks := KeptDays(f.index, years, 0);
    Ok(Frame(Select(f.index, ks), f.columns, Select(f.cells, ks)))
  }

  /** The rows dropped from a day-by-indicator chart are exactly the 29
      February rows of years that are not leap years; the others stay, in
      order, with their labels and cells. */
  lemma DropWrongDaysKeeps(f: Frame, i: nat)
    requires f.Valid() && LabelYears(f.index).Ok?
    ensures var years := LabelYears(f.index).value;
      var ks := KeptDays(f.index, years, 0);
      var r := DropWrongDays(f).value;
      |r.index| == |ks| &&
      (forall a :: 0 <= a < |ks| ==> r.index[a] == f.index[ks[a]] && r.cells[a] == f.cells[ks[a]]) &&
      (forall a, b :: 0 <= a < b < |ks| ==> ks[a] < ks[b]) &&
      (i < |f.index| ==> (i in ks <==> !WrongDay(f.index[i], years[i])))
  {
  }

  /** A chart with no 29 February row is kept whole. */
  lemma DropWrongDaysNone(f: Frame)
    requires f.Valid() && LabelYears(f.index).Ok?
    requires forall i :: 0 <= i < |f.index| ==> !Contains(f.index[i], "29 Feb")
    ensures DropWrongDays(f) == Ok(f)
  {
    var years := LabelYears(f.index).value;
    var ks := KeptDays(f.index, years, 0);
    KeptFrom(f.index, years, 0);
    SelectEvery(f.index, ks);
    SelectEvery(f.cells, ks);
  }

  /** Selecting every position, in order, keeps the whole sequence. */
  lemma SelectEvery<T>(xs: seq<T>, ks: seq<nat>)
    requires |ks| == |xs| && forall a :: 0 <= a < |ks| ==> ks[a] == a
    ensures Select(xs, ks) == xs
  {
  }

  /** Without 29 February rows every position from `from` on is kept. */
  lemma {:induction false} KeptFrom(index: seq<string>, years: seq<int>, from: nat)
    requires |years| == |index| && from <= |index|
    requires forall i :: from <= i < |index| ==> !Contains(index[i], "29 Feb")
    ensures var ks := KeptDays(index, years, from);
      |ks| == |index| - from && forall a :: 0 <= a < |ks| ==> ks[a] == from + a
    decreases |index| - from
  {
    if from < |index| {
      KeptFrom(index, years, from + 1);
    }
  }

  /** The cleaning of lines 193-197: a month-by-year chart loses a leading
      "total" row, a day-by-year chart has 29 February marked in every column
      whose year is not a leap year. */
  function CleanChart(fmt: string, data: Frame): (r: Result<Frame>)
    requires data.Valid()
    ensures r.Ok? ==> r.value.Valid() && r.value.columns == data.columns
    ensures fmt == "DayYear" ==> (r.Ok? <==> ParseYears(data.columns).Ok? && |data.index| > Feb29Row)
    ensures fmt == "MonthYear" ==> (r.Ok? <==> |data.index| > 0)
    ensures fmt != "DayYear" && fmt != "MonthYear" ==> r == Ok(data)
  {
    if fmt == "MonthYear" then
      if |data.index| == 0 then Err(IndexError) else Ok(MonthYearFrame(data))
    else if fmt == "DayYear" then
      var years :- ParseYears(data.columns);
      if |data.index| <= Feb29Row then Err(IndexError)
      else Ok(Frame(data.index, data.columns, MarkFeb29(data.cells, years)))
    else Ok(data)
  }

  /** The formats `__parse__` transposes, and those it stacks. */
  predicate Transposed(fmt: string) {
    fmt in ["IndicatorYear", "IndicatorQuarter", "IndicatorMonth", "MonthYear", "DayYear"]
  }

  predicate StackedName(fmt: string) {
    fmt in ["YearMonth", "MonthYear", "DayYear"]
  }

  /** Transpose, stack, drop the marked cells of a day-by-year chart and the
      wrong days of a day-by-indicator chart. */
  function Reshape(fmt: string, f: Frame): (r: Result<Shaped>)
    requires f.Valid()
    ensures r.Ok? ==> (r.value.SeriesShape? <==> StackedName(fmt))
    ensures r.Ok? && r.value.TableShape? ==> r.value.table.Valid()
    ensures fmt != "DayIndicator" ==> r.Ok?
  {
    var t := if Transposed(fmt) then Transpose(f) else f;
    if StackedName(fmt) then
      var s := Stack(t);
      Ok(SeriesShape(if fmt == "DayYear" then DropMarkers(s) else s))
    else if fmt == "DayIndicator" then
      var kept :- DropWrongDays(t);
      Ok(TableShape(kept))
    else Ok(TableShape(t))
  }

  /** Name and clean the data on its time index: a series is named after the
      chart number and drops its missing values; a table drops all-missing
      rows, then all-missing columns. The data is then resampled when a
      frequency is given. */
  function Tidied(shaped: Shaped, chart: int, start: string, freqCode: string,
                  freq: Option<string>, func: Option<string>): (r: Output)
    requires shaped.TableShape? ==> shaped.table.Valid()
    ensures r.Tidied? || r.Resampled?
    ensures r.Resampled? <==> Given(freq)
    ensures r.data.TSeries? <==> shaped.SeriesShape?
    ensures r.data.start == start && r.data.freq == freqCode
  {
    match shaped
    case SeriesShape(values) =>
      Resample(TSeries(IntToString(chart), start, freqCode, DropMissing(values)), freq, AppliedFunc(func))
    case TableShape(t) =>
      var (cols, rows) := DropEmpty(t.columns, t.cells);
      Resample(TTable(start, freqCode, cols, rows), freq, AppliedFunc(func))
  }

  /** `__parse__` on the downloaded chart `data` of format `fmt`.
      `firstObs(fmt, data)` stands for `FIRST_OBSERVATION[fmt](data)` (`None`
      when it raises, which `__parse__` turns into `NotImplemented`), and
      `chartFreq(fmt)` for `CHARTFREQUENCIES[fmt][0]`; neither is part of this
      model. */
  function ParseChart(chart: int, fmt: string, data: Frame,
                      firstObs: (string, Frame) -> Option<string>, chartFreq: string -> string,
                      freq: Option<string>, func: Option<string>): (r: Result<Output>)
    requires data.Valid()
    ensures r.Ok? ==> CleanChart(fmt, data).Ok? && !r.value.Unchanged?
    ensures r.Ok? ==> Some(r.value.data.start) == firstObs(fmt, CleanChart(fmt, data).value)
    ensures r.Ok? ==> r.value.data.freq == chartFreq(fmt)
    ensures r.Ok? ==> (r.value.Resampled? <==> Given(freq))
    ensures r.Ok? ==> (r.value.data.TSeries? <==> StackedName(fmt))
    ensures CleanChart(fmt, data).Ok? && firstObs(fmt, CleanChart(fmt, data).value).None? ==> r == Err(NotImplemented)
  {
    var clean :- CleanChart(fmt, data);
    match firstObs(fmt, clean)
    case None => Err(NotImplemented)
    case Some(t0) =>
      var shaped :- Reshape(fmt, clean);
      Ok(Tidied(shaped, chart, t0, chartFreq(fmt), freq, func))
  }

  /** A day-by-year chart gives the same series as the chart reader: one value
      per calendar day of each year column, 29 February of non-leap years
      removed, named after the chart and without its missing values. */
  lemma ParseDayYear(chart: int, data: Frame, firstObs: (string, Frame) -> Option<string>,
                     chartFreq: string -> string, freq: Option<string>, func: Option<string>, k: nat)
    requires data.Valid() && ParseYears(data.columns).Ok? && |data.index| > Feb29Row
    requires firstObs("DayYear", CleanChart("DayYear", data).value).Some?
    ensures var r := ParseChart(chart, "DayYear", data, firstObs, chartFreq, freq, func);
      var cells := DayYearCells(data, ParseYears(data.columns).value);
      r.Ok? && r.value.data.TSeries? && r.value.data.name == IntToString(chart) &&
      (k < |cells| ==> (Obs(k, cells[k]) in r.value.data.obs <==> cells[k] != Missing))
  {
    var cells := DayYearCells(data, ParseYears(data.columns).value);
    if k < |cells| {
      DropMissingIff(cells, k);
    }
  }

  /** A month-by-year chart loses its first row exactly when the row's label
      holds "total", in any case. */
  lemma CleanMonthYear(data: Frame)
    requires data.Valid() && |data.index| > 0
    ensures var r := CleanChart("MonthYear", data).value;
      |r.index| == |data.index| - (if IsTotal(data.index[0]) then 1 else 0) &&
      (IsTotal(data.index[0]) ==> r.index == data.index[1..] && r.cells == data.cells[1..]) &&
      (!IsTotal(data.index[0]) ==> r == data)
  {
  }

  // ---------------------------------------------------------------------
  // datos
  // ---------------------------------------------------------------------

  /** How `__nombre__` and `__parse__` look a chart up in the catalogue: as
      written, under the argument as passed (a `str` code is never found on
      the integer index), or corrected, under `int(argument)` as `soporte`
      does. */
  datatype Lookup = AsWritten | Corrected

  /** `__nombre__` under the given lookup. */
  function NombreBy(lk: Lookup, cat: Catalogue, c: Code): Result<string> {
    if lk == AsWritten then NombreAsWritten(cat, c) else Nombre(cat, c)
  }

  /** A positional argument of `datos`: a dictionary from chart to name, one
      chart, an iterable of charts, or anything else. */
  datatype Arg = DictArg(pairs: seq<(Code, string)>) | OneCode(code: Code) | CodeList(codes: seq<Code>) | OtherArg

  /** `indicadores[value] = int(key)` for every dictionary entry. */
  function DictPairs(pairs: seq<(Code, string)>): (r: Result<seq<(string, Code)>>)
    ensures r.Ok? <==> forall k :: 0 <= k < |pairs| ==> CodeInt(pairs[k].0).Ok?
    ensures r.Ok? ==> |r.value| == |pairs|
    ensures r.Ok? ==> forall k :: 0 <= k < |pairs| ==> r.value[k] == (pairs[k].1, IntCode(CodeInt(pairs[k].0).value))
  {
    if |pairs| == 0 then Ok([])
    else
      var n := CodeInt(pairs[0].0);
      var rest := DictPairs(pairs[1..]);
      assert forall k :: 1 <= k < |pairs| ==> pairs[1..][k - 1] == pairs[k];
      if n.Err? then Err(n.error)
      else if rest.Err? then Err(rest.error)
      else Ok([(pairs[0].1, IntCode(n.value))] + rest.value)
  }

  /** `indicadores[__nombre__(c)] = int(c)` for every chart of a list. The
      name fails exactly when `int(c)` does, or, as written, when a supported
      chart is passed as a `str`. */
  function CodePairs(lk: Lookup, cat: Catalogue, codes: seq<Code>): (r: Result<seq<(string, Code)>>)
    ensures r.Ok? <==> forall k :: 0 <= k < |codes| ==> NombreBy(lk, cat, codes[k]).Ok?
    ensures r.Ok? ==> |r.value| == |codes|
    ensures r.Ok? ==> forall k :: 0 <= k < |codes| ==>
      CodeInt(codes[k]).Ok? && r.value[k] == (NombreBy(lk, cat, codes[k]).value, IntCode(CodeInt(codes[k]).value))
  {
    if |codes| == 0 then Ok([])
    else
      var name := NombreBy(lk, cat, codes[0]);
      var rest := CodePairs(lk, cat, codes[1..]);
      assert forall k :: 1 <= k < |codes| ==> codes[1..][k - 1] == codes[k];
      if name.Err? then Err(name.error)
      else if rest.Err? then Err(rest.error)
      else Ok([(name.value, IntCode(CodeInt(codes[0]).value))] + rest.value)
  }

  /** The assignments one positional argument makes; an argument of no known
      kind raises `TypeError`. */
  function ArgPairs(lk: Lookup, cat: Catalogue, a: Arg): (r: Result<seq<(string, Code)>>)
    ensures a.OtherArg? ==> r == Err(TypeError)
    ensures r.Ok? ==> AllIntCodes(r.value)
  {
    match a
    case DictArg(pairs) => DictPairs(pairs)
    case OneCode(c) => CodePairs(lk, cat, [c])
    case CodeList(cs) => CodePairs(lk, cat, cs)
    case OtherArg => Err(TypeError)
  }

  /** The assignments of all positional arguments, in order. */
  function AllArgPairs(lk: Lookup, cat: Catalogue, args: seq<Arg>): (r: Result<seq<(string, Code)>>)
    ensures r.Err? <==> exists k :: 0 <= k < |args| && ArgPairs(lk, cat, args[k]).Err?
    ensures r.Ok? ==> AllIntCodes(r.value)
  {
    if |args| == 0 then Ok([])
    else
      var head := ArgPairs(lk, cat, args[0]);
      var rest := AllArgPairs(lk, cat, args[1..]);
      assert forall k :: 1 <= k < |args| ==> args[1..][k - 1] == args[k];
      if head.Err? then Err(head.error)
      else if rest.Err? then Err(rest.error)
      else Ok(head.value + rest.value)
  }

  /** The dictionary `indicadores` from name to chart: the keyword pairs,
      then every positional assignment in order. A keyword value is passed on
      as it is, so it may be a `str`. */
  function Indicadores(lk: Lookup, cat: Catalogue, args: seq<Arg>, kwargs: seq<(string, Code)>): (r: Result<seq<(string, Code)>>)
    ensures r.Ok? <==> AllArgPairs(lk, cat, args).Ok?
  {
    var pairs :- AllArgPairs(lk, cat, args);
    Ok(PutAll([], kwargs + pairs))
  }

  /** `indicadores` is a dictionary built from its assignments: one entry per
      name, in order of first assignment, holding the chart of the last one. */
  lemma IndicadoresBuilt(lk: Lookup, cat: Catalogue, args: seq<Arg>, kwargs: seq<(string, Code)>)
    requires Indicadores(lk, cat, args, kwargs).Ok?
    ensures BuiltFrom(Indicadores(lk, cat, args, kwargs).value, kwargs + AllArgPairs(lk, cat, args).value)
  {
    PutAllFromEmpty(kwargs + AllArgPairs(lk, cat, args).value);
  }

  /** A single chart number names its column after the catalogue title when
      the chart is known and after the number itself otherwise. */
  lemma OneChartNamed(lk: Lookup, cat: Catalogue, n: int)
    ensures var r := Indicadores(lk, cat, [OneCode(IntCode(n))], []);
      r.Ok? && r.value == [(if n in cat then cat[n].title else IntToString(n), IntCode(n))]
  {
    var args := [OneCode(IntCode(n))];
    assert args[1..] == [];
    assert [IntCode(n)][1..] == [];
    var name := NombreBy(lk, cat, IntCode(n)).value;
    var cp := CodePairs(lk, cat, [IntCode(n)]);
    assert cp.Ok? && |cp.value| == 1 && cp.value[0] == (name, IntCode(n));
    assert cp.value == [(name, IntCode(n))];
    var pairs := [(name, IntCode(n))];
    assert [] + pairs == pairs;
    assert PutAll([], pairs) == PutAll([pairs[0]], []);
    assert AllArgPairs(lk, cat, args) == Ok(pairs);
  }

  /** Every chart of the pairs is an `int`. */
  predicate AllIntCodes(ps: seq<(string, Code)>) {
    forall k :: 0 <= k < |ps| ==> ps[k].1.IntCode?
  }

  /** Every chart of the pairs passes `int()`. */
  predicate AllInts(ps: seq<(string, Code)>) {
    forall k :: 0 <= k < |ps| ==> CodeInt(ps[k].1).Ok?
  }

  /** `soporte(codigo)` holds. */
  predicate Known(cat: Catalogue, c: Code) {
    CodeInt(c).Ok? && CodeInt(c).value in cat
  }

  /** The filters of the `soporte` loop. */
  function InCatalogue(cat: Catalogue): (p: ((string, Code)) -> bool)
    ensures forall e :: p(e) <==> Known(cat, e.1)
  {
    (e: (string, Code)) => Known(cat, e.1)
  }

  function NotInCatalogue(cat: Catalogue): (p: ((string, Code)) -> bool)
    ensures forall e :: p(e) <==> !Known(cat, e.1)
  {
    (e: (string, Code)) => !Known(cat, e.1)
  }

  /** The requested charts the catalogue knows, in request order. */
  function Supported(cat: Catalogue, ind: seq<(string, Code)>): (r: seq<(string, Code)>)
    ensures forall k :: 0 <= k < |r| ==> r[k] in ind && Known(cat, r[k].1)
    ensures forall k :: 0 <= k < |ind| && Known(cat, ind[k].1) ==> ind[k] in r
    ensures SelectsInOrder(r, ind, InCatalogue(cat))
    ensures AllInts(r)
    ensures AllIntCodes(ind) ==> AllIntCodes(r)
  {
    FilterInOrder(ind, InCatalogue(cat));
    Filter(ind, InCatalogue(cat))
  }

  /** The requested charts the catalogue does not know, in request order;
      each is reported and skipped. */
  function Unsupported(cat: Catalogue, ind: seq<(string, Code)>): (r: seq<(string, Code)>)
    ensures forall k :: 0 <= k < |r| ==> r[k] in ind && !Known(cat, r[k].1)
    ensures forall k :: 0 <= k < |ind| && !Known(cat, ind[k].1) ==> ind[k] in r
    ensures SelectsInOrder(r, ind, NotInCatalogue(cat))
  {
    FilterInOrder(ind, NotInCatalogue(cat));
    Filter(ind, NotInCatalogue(cat))
  }

  /** The chart numbers of a list of pairs. */
  function CodesOf(ps: seq<(string, Code)>): (r: seq<int>)
    requires AllInts(ps)
    ensures |r| == |ps| && forall k :: 0 <= k < |ps| ==> r[k] == CodeInt(ps[k].1).value
  {
    seq(|ps|, k requires 0 <= k < |ps| => CodeInt(ps[k].1).value)
  }

  /** The catalogue frequency of a chart. */
  function CatFreq(cat: Catalogue): (f: int -> string)
    ensures forall n :: n in cat ==> f(n) == cat[n].freq
  {
    (n: int) => if n in cat then cat[n].freq else ""
  }

  /** One column of the result: its name, chart, parsed data and the
      conversion applied to it. */
  datatype Column = Column(name: string, code: int, data: Output, step: Step)

  /** `__parse__(codigo)` under the given lookup: `parsed(n)` stands for the
      parse of chart `n`; as written, a `str` code fails the catalogue lookup
      of the chart format with `KeyError`. */
  function ParseBy(lk: Lookup, parsed: int -> Result<Output>, c: Code): (r: Result<Output>)
    requires CodeInt(c).Ok?
  {
    if lk == AsWritten && c.StrCode? then Err(KeyError) else parsed(CodeInt(c).value)
  }

  /** The parsed data of every supported chart, in order; the first failure
      fails the request. */
  function ParseEach(lk: Lookup, valid: seq<(string, Code)>, parsed: int -> Result<Output>): (r: Result<seq<Output>>)
    requires AllInts(valid)
    ensures r.Ok? ==> |r.value| == |valid| && forall k :: 0 <= k < |valid| ==> ParseBy(lk, parsed, valid[k].1) == Ok(r.value[k])
    ensures r.Err? ==> exists k :: 0 <= k < |valid| && ParseBy(lk, parsed, valid[k].1) == Err(r.error)
  {
    if |valid| == 0 then Ok([])
    else
      var head := ParseBy(lk, parsed, valid[0].1);
      assert forall k :: 1 <= k < |valid| ==> valid[1..][k - 1] == valid[k];
      var rest := ParseEach(lk, valid[1..], parsed);
      if head.Err? then Err(head.error)
      else if rest.Err? then Err(rest.error)
      else Ok([head.value] + rest.value)
  }

  /** The columns of the supported charts, in order: each chart's name,
      number, parsed data and conversion; the first failing parse or
      conversion lookup fails the request. */
  function Columns(lk: Lookup, cat: Catalogue, valid: seq<(string, Code)>,
                   parsed: int -> Result<Output>, freq: Option<string>, func: FuncArg<int>): (r: Result<seq<Column>>)
    requires AllInts(valid)
    ensures r.Ok? ==> |r.value| == |valid| && forall k :: 0 <= k < |valid| ==>
      r.value[k].name == valid[k].0 && r.value[k].code == CodeInt(valid[k].1).value &&
      ParseBy(lk, parsed, valid[k].1) == Ok(r.value[k].data)
    ensures r.Ok? ==> var h := Harmonise(CodesOf(valid), CatFreq(cat), freq, func);
      h.Ok? && |h.value| == |valid| && forall k :: 0 <= k < |valid| ==> r.value[k].step == h.value[k]
  {
    var data :- ParseEach(lk, valid, parsed);
    var codes := CodesOf(valid);
    var steps :- Harmonise(codes, CatFreq(cat), freq, func);
    Ok(seq(|valid|, k requires 0 <= k < |valid| && k < |data| && k < |steps| =>
      Column(valid[k].0, codes[k], data[k], steps[k])))
  }

  /** `datos`: collect the requested charts, run `soporte` on each (a code
      `int` rejects raises `ValueError`), keep the supported ones, parse each
      (`parsed(n)` stands for `__parse__` of chart `n` with the request's
      dates, frequency and aggregation) and decide each one's conversion to a
      common frequency. Nothing is returned when no requested chart is
      supported; otherwise there is one column per supported request, in
      request order, under its name and chart. */
  function Datos(lk: Lookup, cat: Catalogue, args: seq<Arg>, kwargs: seq<(string, Code)>,
                 parsed: int -> Result<Output>, freq: Option<string>, func: FuncArg<int>): (r: Result<Option<seq<Column>>>)
    ensures r.Ok? ==> Indicadores(lk, cat, args, kwargs).Ok? && AllInts(Indicadores(lk, cat, args, kwargs).value)
    ensures Indicadores(lk, cat, args, kwargs).Ok? && !AllInts(Indicadores(lk, cat, args, kwargs).value) ==>
      r == Err(ValueError)
    ensures r.Ok? ==> (r.value.None? <==> |Supported(cat, Indicadores(lk, cat, args, kwargs).value)| == 0)
    ensures r.Ok? && r.value.Some? ==>
      var valid := Supported(cat, Indicadores(lk, cat, args, kwargs).value);
      var cols := r.value.value;
      |cols| == |valid| &&
      forall k :: 0 <= k < |valid| ==>
        cols[k].name == valid[k].0 && cols[k].code == CodeInt(valid[k].1).value &&
        ParseBy(lk, parsed, valid[k].1) == Ok(cols[k].data)
  {
    var ind :- Indicadores(lk, cat, args, kwargs);
    if !AllInts(ind) then Err(ValueError)
    else
      var valid := Supported(cat, ind);
      if |valid| == 0 then Ok(None)
      else
        var cols :- Columns(lk, cat, valid, parsed, freq, func);
        Ok(Some(cols))
  }

  /** Nothing is returned exactly when no requested chart is supported. */
  lemma DatosNone(lk: Lookup, cat: Catalogue, args: seq<Arg>, kwargs: seq<(string, Code)>,
                  parsed: int -> Result<Output>, freq: Option<string>, func: FuncArg<int>)
    requires Datos(lk, cat, args, kwargs, parsed, freq, func).Ok?
    ensures var ind := Indicadores(lk, cat, args, kwargs).value;
      Datos(lk, cat, args, kwargs, parsed, freq, func).value.None? <==> forall p :: 0 <= p < |ind| ==> !Known(cat, ind[p].1)
  {
    var ind := Indicadores(lk, cat, args, kwargs).value;
    var valid := Supported(cat, ind);
    if |valid| > 0 {
      assert valid[0] in ind && Known(cat, valid[0].1);
    }
  }

  /** `datos` only downloads supported charts: every column is a requested,
      supported chart with its parsed data, and every requested supported
      chart has its column. */
  lemma DatosOnlySupported(lk: Lookup, cat: Catalogue, args: seq<Arg>, kwargs: seq<(string, Code)>,
                           parsed: int -> Result<Output>, freq: Option<string>, func: FuncArg<int>, k: nat)
    requires Datos(lk, cat, args, kwargs, parsed, freq, func).Ok?
    requires Datos(lk, cat, args, kwargs, parsed, freq, func).value.Some?
    ensures var ind := Indicadores(lk, cat, args, kwargs).value;
      var cols := Datos(lk, cat, args, kwargs, parsed, freq, func).value.value;
      (k < |cols| ==>
        cols[k].code in cat &&
        exists p :: 0 <= p < |ind| && ind[p].0 == cols[k].name && CodeInt(ind[p].1) == Ok(cols[k].code)) &&
      (k < |ind| && Known(cat, ind[k].1) ==>
        exists c :: 0 <= c < |cols| && cols[c].name == ind[k].0 && cols[c].code == CodeInt(ind[k].1).value)
  {
    var ind := Indicadores(lk, cat, args, kwargs).value;
    var valid := Supported(cat, ind);
    var cols := Datos(lk, cat, args, kwargs, parsed, freq, func).value.value;
    var ks := Matching(ind, InCatalogue(cat));
    if k < |cols| {
      assert ind[ks[k]] == valid[k];
    }
    if k < |ind| && Known(cat, ind[k].1) {
      assert InCatalogue(cat)(ind[k]);
      var c :| 0 <= c < |ks| && ks[c] == k;
      assert valid[c] == ind[k];
    }
  }

  /** The conversions of `datos`: a request for a single chart number is never
      converted; with several, every column ends at the target frequency,
      which is the lowest catalogue frequency when none is requested, and a
      column is left alone exactly when it already has it. */
  lemma DatosHarmonised(lk: Lookup, cat: Catalogue, args: seq<Arg>, kwargs: seq<(string, Code)>,
                        parsed: int -> Result<Output>, freq: Option<string>, func: FuncArg<int>, k: nat)
    requires Datos(lk, cat, args, kwargs, parsed, freq, func).Ok?
    requires Datos(lk, cat, args, kwargs, parsed, freq, func).value.Some?
    requires k < |Datos(lk, cat, args, kwargs, parsed, freq, func).value.value|
    ensures var valid := Supported(cat, Indicadores(lk, cat, args, kwargs).value);
      AllInts(valid) &&
      var codes := CodesOf(valid);
      var c := Datos(lk, cat, args, kwargs, parsed, freq, func).value.value[k];
      var target := Target(codes, CatFreq(cat), freq);
      c.code in cat && target.Ok? &&
      (!Mixed(codes) ==> c.step == Keep) &&
      (Mixed(codes) ==> FinalFreq(cat[c.code].freq, c.step) == target.value.value) &&
      (Mixed(codes) && !Given(freq) && FreqOf(cat[c.code].freq).Some? ==>
        var t := FreqOf(target.value.value);
        t.Some? && Rank(t.value) <= Rank(FreqOf(cat[c.code].freq).value) &&
        (c.step == Keep <==> t.value == FreqOf(cat[c.code].freq).value))
  {
    var ind := Indicadores(lk, cat, args, kwargs).value;
    var valid := Supported(cat, ind);
    var codes := CodesOf(valid);
    HarmoniseResult(codes, CatFreq(cat), freq, func, k);
  }

  // ---------------------------------------------------------------------
  // datos as written and corrected
  // ---------------------------------------------------------------------

  /** No argument passes a chart as a `str`. */
  predicate IntArgs(args: seq<Arg>, kwargs: seq<(string, Code)>) {
    && AllIntCodes(kwargs)
    && forall k :: 0 <= k < |args| ==>
      match args[k]
      case DictArg(_) => true
      case OneCode(c) => c.IntCode?
      case CodeList(cs) => forall j :: 0 <= j < |cs| ==> cs[j].IntCode?
      case OtherArg => true
  }

  lemma {:induction false} CodePairsAgree(cat: Catalogue, codes: seq<Code>)
    requires forall j :: 0 <= j < |codes| ==> codes[j].IntCode?
    ensures CodePairs(AsWritten, cat, codes) == CodePairs(Corrected, cat, codes)
  {
    if |codes| > 0 {
      assert forall j :: 0 <= j < |codes| - 1 ==> codes[1..][j] == codes[j + 1];
      CodePairsAgree(cat, codes[1..]);
    }
  }

  lemma {:induction false} AllArgPairsAgree(cat: Catalogue, args: seq<Arg>)
    requires IntArgs(args, [])
    ensures AllArgPairs(AsWritten, cat, args) == AllArgPairs(Corrected, cat, args)
  {
    if |args| > 0 {
      if args[0].OneCode? {
        CodePairsAgree(cat, [args[0].code]);
      } else if args[0].CodeList? {
        CodePairsAgree(cat, args[0].codes);
      }
      assert IntArgs(args[1..], []) by {
        forall k | 0 <= k < |args| - 1
          ensures args[1..][k] == args[k + 1]
        {
        }
      }
      AllArgPairsAgree(cat, args[1..]);
    }
  }

  /** One assignment keeps every chart of the dictionary an `int`. */
  lemma {:induction false} PutIntCodes(d: seq<(string, Code)>, k: string, v: Code)
    requires AllIntCodes(d) && v.IntCode?
    ensures AllIntCodes(Put(d, k, v))
  {
    if |d| > 0 && d[0].0 != k {
      PutIntCodes(d[1..], k, v);
    }
  }

  lemma {:induction false} PutAllIntCodes(d: seq<(string, Code)>, pairs: seq<(string, Code)>)
    requires AllIntCodes(d) && AllIntCodes(pairs)
    ensures AllIntCodes(PutAll(d, pairs))
    decreases |pairs|
  {
    if |pairs| > 0 {
      PutIntCodes(d, pairs[0].0, pairs[0].1);
      PutAllIntCodes(Put(d, pairs[0].0, pairs[0].1), pairs[1..]);
    }
  }

  lemma {:induction false} ParseEachAgree(valid: seq<(string, Code)>, parsed: int -> Result<Output>)
    requires AllInts(valid) && AllIntCodes(valid)
    ensures ParseEach(AsWritten, valid, parsed) == ParseEach(Corrected, valid, parsed)
  {
    if |valid| > 0 {
      assert forall k :: 1 <= k < |valid| ==> valid[1..][k - 1] == valid[k];
      ParseEachAgree(valid[1..], parsed);
    }
  }

  /** With no `str` chart, both lookups collect the same dictionary, and every
      chart in it is an `int`. */
  lemma IndicadoresAgree(cat: Catalogue, args: seq<Arg>, kwargs: seq<(string, Code)>)
    requires IntArgs(args, kwargs)
    ensures Indicadores(AsWritten, cat, args, kwargs) == Indicadores(Corrected, cat, args, kwargs)
    ensures Indicadores(Corrected, cat, args, kwargs).Ok? ==> AllIntCodes(Indicadores(Corrected, cat, args, kwargs).value)
  {
    assert IntArgs(args, []);
    AllArgPairsAgree(cat, args);
    var pairs := AllArgPairs(Corrected, cat, args);
    if pairs.Ok? {
      assert AllIntCodes(kwargs + pairs.value);
      PutAllIntCodes([], kwargs + pairs.value);
    }
  }

  /** With no `str` chart among the supported ones, both lookups give the
      same columns. */
  lemma ColumnsAgree(cat: Catalogue, valid: seq<(string, Code)>,
                     parsed: int -> Result<Output>, freq: Option<string>, func: FuncArg<int>)
    requires AllInts(valid) && AllIntCodes(valid)
    ensures Columns(AsWritten, cat, valid, parsed, freq, func) == Columns(Corrected, cat, valid, parsed, freq, func)
  {
    ParseEachAgree(valid, parsed);
  }

  /** When no chart is passed as a `str`, `datos` as written and corrected
      give the same result. */
  lemma DatosAgree(cat: Catalogue, args: seq<Arg>, kwargs: seq<(string, Code)>,
                   parsed: int -> Result<Output>, freq: Option<string>, func: FuncArg<int>)
    requires IntArgs(args, kwargs)
    ensures Datos(AsWritten, cat, args, kwargs, parsed, freq, func) == Datos(Corrected, cat, args, kwargs, parsed, freq, func)
  {
    IndicadoresAgree(cat, args, kwargs);
    var ind := Indicadores(Corrected, cat, args, kwargs);
    if ind.Ok? && AllInts(ind.value) {
      var valid := Supported(cat, ind.value);
      if |valid| > 0 {
        ColumnsAgree(cat, valid, parsed, freq, func);
        var cols := Columns(Corrected, cat, valid, parsed, freq, func);
        assert Datos(Corrected, cat, args, kwargs, parsed, freq, func) == if cols.Ok? then Ok(Some(cols.value)) else Err(cols.error);
      }
    }
  }

  /** The discrepancy in `datos` for a positional chart: chart 125 is in the
      catalogue and parses, yet `PW("125")` fails with `KeyError` as written,
      because `__nombre__` looks "125" up on the integer index; corrected, the
      chart is downloaded. */
  lemma DatosStrCodeFails(cat: Catalogue, parsed: int -> Result<Output>)
    requires 125 in cat && parsed(125).Ok?
    ensures Datos(AsWritten, cat, [OneCode(StrCode("125"))], [], parsed, None, NoFunc) == Err(KeyError)
    ensures Datos(Corrected, cat, [OneCode(StrCode("125"))], [], parsed, None, NoFunc).Ok?
  {
    NombreStrCodeFails(cat);
    var c := StrCode("125");
    var one := [OneCode(c)];
    assert one[1..] == [];
    assert [c][1..] == [];
    assert CodePairs(AsWritten, cat, [c]).Err?;
    assert AllArgPairs(AsWritten, cat, one).Err?;
    var named := [(cat[125].title, IntCode(125))];
    assert NombreBy(Corrected, cat, c) == Ok(cat[125].title);
    var cp := CodePairs(Corrected, cat, [c]);
    assert cp.Ok? && |cp.value| == 1 && cp.value[0] == named[0];
    assert cp.value == named;
    assert AllArgPairs(Corrected, cat, one) == Ok(named);
    assert [] + named == named;
    SingleRequest(Corrected, cat, named, IntCode(125), parsed);
  }

  /** The same for a keyword chart: `PW(M1="125")` passes "125" on as it is,
      so as written the catalogue lookup of its format in `__parse__` fails
      with `KeyError`; corrected, the chart is downloaded. */
  lemma DatosStrKeywordFails(cat: Catalogue, parsed: int -> Result<Output>)
    requires 125 in cat && parsed(125).Ok?
    ensures Datos(AsWritten, cat, [], [("M1", StrCode("125"))], parsed, None, NoFunc) == Err(KeyError)
    ensures Datos(Corrected, cat, [], [("M1", StrCode("125"))], parsed, None, NoFunc).Ok?
  {
    NombreStrCodeFails(cat);
    var c := StrCode("125");
    var kw := [("M1", c)];
    assert kw + [] == kw;
    SingleRequest(AsWritten, cat, kw, c, parsed);
    SingleRequest(Corrected, cat, kw, c, parsed);
  }

  /** A request that collects a single supported chart. */
  lemma SingleRequest(lk: Lookup, cat: Catalogue, pairs: seq<(string, Code)>, c: Code, parsed: int -> Result<Output>)
    requires |pairs| == 1 && pairs[0].1 == c && CodeInt(c) == Ok(125) && 125 in cat && parsed(125).Ok?
    ensures var ind := PutAll([], pairs);
      ind == pairs && AllInts(ind) && Supported(cat, ind) == pairs &&
      ParseEach(lk, pairs, parsed) == (if lk == AsWritten && c.StrCode? then Err(KeyError) else Ok([parsed(125).value])) &&
      Harmonise(CodesOf(pairs), CatFreq(cat), None, NoFunc).Ok?
  {
    assert pairs[1..] == [];
    assert PutAll([], pairs) == PutAll([pairs[0]], []);
    assert Known(cat, c);
    assert pairs == [pairs[0]];
    assert Filter(pairs, InCatalogue(cat)) == [pairs[0]] + Filter(pairs[1..], InCatalogue(cat));
    assert ParseEach(lk, pairs[1..], parsed) == Ok([]);
    if lk == AsWritten && c.StrCode? {
      assert ParseBy(lk, parsed, c) == Err(KeyError);
    } else {
      assert ParseBy(lk, parsed, c) == Ok(parsed(125).value);
      assert [parsed(125).value] + [] == [parsed(125).value];
    }
    var codes := CodesOf(pairs);
    assert codes == [125];
    assert !Mixed(codes);
    assert codes[1..] == [];
    assert Steps(codes[1..], CatFreq(cat), None, NoFunc) == Ok([]);
    assert StepFor(125, CatFreq(cat)(125), None, NoFunc) == Ok(Keep);
  }
}
