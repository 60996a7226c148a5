# bccr, modelled in Dafny

`bccr` reads the economic statistics of the Central Bank of Costa Rica
(BCCR) into pandas. It has two kinds of source:

- chart pages of the statistics site, read by the first-generation readers
  of `bccr/download.py` and `bccr/fetch.py` and by the class `PaginaWeb`;
- the web service, read by the class `ServicioWeb`.

A Dash front end builds the calls.

Beneath the I/O sits a set of small, pure rules, and this project models
them and proves their properties:

- **Chart layouts.** A scraped chart is a grid of cells (`Missing`,
  `Val(text)`, or the `Marker` the day-by-year reader writes into 29
  February of non-leap years). Each chart format fixes:
  - whether the grid is transposed;
  - whether it is stacked into one series;
  - how many periods it yields.

  The time index is the offset of a period from the first period.
  Day-by-year charts are proved to line up one-to-one with consecutive
  calendar days under the Gregorian leap-year rule.
- **Query strings.** There are three builders:
  - the chart URL of `api`;
  - the chart URL of `PaginaWeb.api`;
  - the parameter dict of a web-service download.

  Each URL is proved to decode back to exactly its parameter list, in
  order. The web-service address is form-encoded (`quote_plus`, with
  UTF-8 percent escapes), as `requests` sends it, and it decodes back for
  every value.
- **Catalogue logic.** This covers:
  - the three search modes (phrase, all words, any word) and the
    frequency filter;
  - the frequency lattice A < 6M < Q < M < W < D, and the harmonisation
    of a mixed request to its lowest frequency;
  - the account-tree parent rule `find_parent` and its eleven group
    roots;
  - the printed node path and the sub-account codes read back from the
    rendered tree;
  - the request handling of both `datos` methods.
- **Helpers and the front end.** The helpers are `findFirstElement`,
  `fixCommas`, `resample`, `tidy`, `seriesAsDict` and `is_leap_year`.
  From the front end:
  - `add_row`;
  - the sentinels of the option widgets;
  - the reproducible `SW(...)` command text;
  - the search result message.

Modules follow the source files:

| module | source |
|---|---|
| `Common` | Option/Result, strings, decimal numerals, dicts |
| `Grid` | pandas grid operations |
| `Calendar` | day-by-year charts |
| `Utils` | `bccr/utils.py` |
| `Query` | URL query strings |
| `Form` | the form encoding of a `requests` query |
| `Formats` | chart formats and frequencies |
| `Search` | both `buscar` methods |
| `Download` | `bccr/download.py` |
| `Fetch` | `bccr/fetch.py` |
| `Pagina` | `bccr/pagina.py` |
| `Gee` | `bccr/gee.py` |
| `Gui` | `bccr/gui.py` |

Python dicts are sequences of pairs that keep insertion order, and an
assignment to an existing key keeps that key's position. Functions and
tables from modules of the package that this model does not cover become
function parameters, and so does the clock:

- `parse_date_parameter`, `parseQuarterYear` and `parseMonthYear`;
- `lowestFrequency`, `CHARTFREQUENCIES` and `FIRST_OBSERVATION`;
- today's date.

## Model

| member | source | states |
|---|---|---|
| Utils.FindFirstElement | bccr/utils.py:6-15 | The index of the first element matching the pattern: it is in range, it matches, and no earlier element does. `ValueError` exactly when no element matches. |
| Utils.FindFrom | bccr/utils.py:9-13 | The scan from position `idx` returns the first match at or after `idx`, or fails exactly when none matches there. |
| Utils.FixCommas | bccr/utils.py:18-19 | A text cell keeps its length. Every ',' becomes '.', every other character is kept, and no ',' remains. Non-text cells pass through unchanged. |
| Utils.FixCommasIdempotent | bccr/utils.py:18-19 | Rewriting commas a second time changes nothing. |
| Utils.Resample | bccr/utils.py:21-24 | The data is returned unchanged when no frequency is given. Otherwise it is marked for aggregation to that frequency with `func`, or with the mean when `func` is not given. |
| Utils.TidySeries | bccr/utils.py:28-34 | The series is named as asked, and its offsets increase. Every kept observation is the comma-rewritten, non-missing value at its own offset. It is resampled exactly when a frequency is given. |
| Utils.TidyTable | bccr/utils.py:35-43 | Every kept row has one cell per kept column, and no kept row is all missing. The table is resampled exactly when a frequency is given. |
| Utils.FixRows | bccr/utils.py:37 | `applymap(fixCommas)`: every row is rewritten cell by cell, and the row count is kept. |
| Utils.FixAllMissing | bccr/utils.py:37 | Rewriting commas never turns a cell into a missing one or back, so a row is all missing after the rewrite exactly when it was before. |
| Utils.TidyTableKeeps | bccr/utils.py:35-43 | The columns kept are exactly those with some non-missing cell, in order, under their given names. A row is kept exactly when it is not all missing, and its offsets increase. Each kept row holds the comma-rewritten cells of its own input row in the kept columns. |
| Utils.SeriesAsDict | bccr/utils.py:46-51 | One chart becomes the one-entry dict mapping it to ''. A dict is returned as it is. A list becomes the dict built from its charts in order: each chart once, in order of first appearance, each mapping to ''. |
| Utils.LeapYearPeriodic | bccr/utils.py:54-59 | The leap-year rule repeats every 400 years. |
| Utils.LeapYearCases | bccr/utils.py:54-59 | A year not divisible by 4 is never leap. A multiple of 4 that is not a century is leap. A multiple of 400 is leap. Another century is not. |
| Grid.Transpose | bccr/fetch.py:29 | Transposing swaps the row and column labels, and puts cell (i, j) at (j, i). |
| Grid.TransposeTwice | bccr/fetch.py:29 | Transposing twice gives back the frame. |
| Grid.Stack | bccr/fetch.py:24 | Stacking with `dropna=False` keeps every cell: the result has rows × columns values. |
| Grid.StackIndex | bccr/fetch.py:23-24 | Stacking puts cell (i, j) at position i · width + j. |
| Grid.StackTransposedIndex | bccr/fetch.py:29 | Stacking the transpose puts cell (i, j) at position j · height + i, so the grid is read column by column. |
| Grid.DropMissing | bccr/fetch.py:58-60 | Dropping missing values keeps increasing offsets. Each kept value is the non-missing value at its offset. |
| Grid.DropMissingIff | bccr/fetch.py:60 | A value survives `dropna` exactly when it is not missing. |
| Grid.ObservationsComplete | bccr/fetch.py:60 | Every non-missing value survives `dropna`, at its own offset. |
| Grid.DropEmpty | bccr/fetch.py:61-63 | After dropping all-missing rows and then all-missing columns, every kept row has one cell per kept column and holds a value. |
| Grid.RowKept | bccr/fetch.py:63 | A row survives `dropna(axis=0, how='all')` exactly when it holds a value. |
| Grid.ColumnKept | bccr/fetch.py:63 | A column survives the second `dropna` exactly when some row holds a value in it. |
| Grid.DropEmptyKeeps | bccr/fetch.py:61-63 | The kept rows are exactly those holding a value, in order, each cut to the kept columns. The kept columns are exactly those holding a value. |
| Grid.DropEmptyRowIff | bccr/fetch.py:63 | A row of the grid appears in the cleaned table exactly when it holds a value. |
| Calendar.ChartRowFacts | bccr/download.py:459 | The chart row of a day increases within a year, and stays within the 366 rows. In a leap year it is the day itself. In a non-leap year it is never row 59 (29 February). |
| Calendar.MarkFeb29 | bccr/download.py:457-459 | Row 59 is marked exactly in the columns of non-leap years. Every other cell is unchanged. |
| Calendar.DropMarkers | bccr/download.py:461 | No marker remains after the cells equal to the marker are removed. |
| Calendar.ColumnDays | bccr/download.py:457-461 | A leap-year column keeps all 366 cells. Any other column keeps every cell but row 59. |
| Calendar.MarkedColumn | bccr/download.py:457-461 | Marking and then dropping in one column leaves exactly the cells of that year's days. |
| Calendar.DayYearCells | bccr/download.py:457-461 | No marker cell survives the reshape. |
| Calendar.DayYearByColumns | bccr/download.py:457-461 | The reshaped series is the concatenation, year column by year column, of each year's days. |
| Calendar.DayYearAlignment | bccr/download.py:457-464 | There is exactly one kept cell per calendar day of every year column. Each is the chart cell of its day. |
| Calendar.DaysConsecutive | bccr/download.py:464 | The days of consecutive years start on 1 January and end on the last day of the last year. Each day is followed by the next calendar day. |
| Calendar.ConsecutiveSlots | bccr/download.py:457 | For year columns y0, y0+1, …, the kept cells walk through consecutive calendar days. |
| Calendar.DayYearConsecutive | bccr/download.py:457-464 | The k-th kept cell is the chart cell of the k-th calendar day after 1 January of the first year, with no day missing or repeated. |
| Query.EncodeParams | bccr/pagina.py:100 | Each parameter is written as `key=value`, in order. |
| Query.DecodeEncodeParam | bccr/pagina.py:100 | A clean `key=value` reads back as its parameter. |
| Query.QueryRoundTrip | bccr/pagina.py:100 | A '&'-joined list of clean parameters reads back as the same list, in order. |
| Query.UrlRoundTrip | bccr/pagina.py:88-100 | A page address followed by the query reads back as the parameter list. |
| Formats.FormatNames | bccr/fetch.py:22-45 | A catalogue text names a chart format exactly when it is that format's name. |
| Formats.FreqOf | bccr/pagina.py:397 | A frequency code maps to the category it spells. |
| Formats.FreqRoundTrip | bccr/pagina.py:397 | Each of the six frequencies reads back from its code. |
| Formats.Lowest | bccr/pagina.py:400 | `freqs.min()` is one of the known frequencies of the request, and no known frequency is lower. There is none exactly when no code is a known category. |
| Formats.LowestRotate | bccr/pagina.py:400 | The lowest frequency does not depend on the order of the codes. |
| Formats.Target | bccr/pagina.py:399-400 | A request with a single code has no target. A mixed request targets the requested frequency when one is given, and otherwise the lowest catalogue frequency. |
| Formats.FuncFor | bccr/pagina.py:401-406 | One callable serves every code. A table serves a code exactly when it holds that code. No usable `func` is a `TypeError`. |
| Formats.StepFor | bccr/pagina.py:405-406 | A series already at the target is left alone. Any other series is resampled to the target with its aggregation. |
| Formats.Steps | bccr/pagina.py:404-406 | There is one step per series, in order. The first failing lookup fails the request. |
| Formats.HarmoniseResult | bccr/pagina.py:396-406 | A single-code request is never converted. In a mixed one, every series ends at the target. With no requested frequency, series are only converted downwards, and a series is kept exactly when it is already at the lowest frequency. |
| Search.Mode | bccr/pagina.py:468-486 | The first given mode wins, in the order phrase, all words, any word. Words are split on ' '. With no mode, help is shown instead. |
| Search.Buscar | bccr/pagina.py:466-493 | The result is exactly the catalogue rows that match the text mode and the frequency filter, in catalogue order. With no mode there is no result. |
| Search.Selector | bccr/pagina.py:466-493 | The row filter holds of a row exactly when it matches the text mode and the frequency filter. |
| Search.PhraseIsOneWord | bccr/pagina.py:468-471 | A single word searched as a phrase or as "all words" finds the same rows. |
| Search.AllWordsWithinAnyWord | bccr/pagina.py:470-473 | Every row found with "all words" is found with "any word" on the same text. |
| Search.FrequencyNarrows | bccr/pagina.py:489-493 | The frequency filter only removes rows. |
| Download.ApiKeys | bccr/download.py:71-75 | `CodCuadro` comes first, and the parameters keep the order CodCuadro, FecInicial, FecFinal, Exportar, Excel. FecInicial appears iff `first` is truthy, FecFinal iff `last` is, and the export flags iff `excel` is set. |
| Download.Api | bccr/download.py:71-75 | The URL starts with the chart page. |
| Download.ApiIsQuery | bccr/download.py:71-75 | The piecewise URL is the chart page followed by the '&'-joined parameters. |
| Download.ApiDecodes | bccr/download.py:71-75 | The URL decodes back to exactly its parameters, in order. It carries FecInicial iff `first` is truthy, FecFinal iff `last` is, and Excel iff `excel` is set. |
| Download.ApiExcel | bccr/download.py:75 | Without export the URL never mentions Excel or Exportar. With it, the URL ends in `&Exportar=True&Excel=True`. |
| Download.ApiTestCases | tests/download_test.py:13-17 | The URLs for chart 125 contain `CodCuadro=125`, `FecInicial=2007/01/01` and `FecFinal=2014/12/31`, and contain no `Excel` without export. |
| Download.SeriesName | bccr/download.py:167 | The given name is used. Otherwise the first label is used, which fails only on an empty grid. |
| Download.HeaderRow | bccr/download.py:168 | This is the first row whose label matches, and it fails exactly when no row matches. |
| Download.MonthlyStart | bccr/download.py:173 | The start label is the year cell's text followed by `/01`. A non-text cell is a `TypeError`. |
| Download.CellAt | bccr/download.py:170 | `iat` with Python's negative positions: in range exactly when both positions are, else `IndexError`. |
| Download.DropLabels | bccr/download.py:171 | Deleting `V0` shifts every cell one column left. |
| Download.RowMajorBlock | bccr/download.py:172 | Stacking the data block puts cell (i, j) at position i · (w−1) + j. |
| Download.ColumnMajorBlock | bccr/download.py:233 | Stacking the transposed block puts cell (i, j) at position j · rows + i. |
| Download.TidyBlock | bccr/download.py:172-175 | Tidying a cut block names the series and keeps its start. Kept values are the comma-rewritten non-missing values at their offsets. |
| Download.YearMonthFrom | bccr/download.py:168-173 | The cut below the header row succeeds exactly when a data row with a text year label follows it. |
| Download.YearMonthFromLayout | bccr/download.py:169-173 | Month j of data row i is value i · months + j, and the start is that row's year in January. |
| Download.YearMonthBlock | bccr/download.py:168-173 | Fewer than two columns is a `KeyError`. Otherwise the header is the first "Enero" in column `V1`. |
| Download.ReadYearMonth | bccr/download.py:165-176 | A monthly series, tidied from the block below the "Enero" header. It is resampled exactly when a frequency is given. |
| Download.ReadYearMonthLayout | bccr/download.py:168-173 | The series is laid out row by row below its header. |
| Download.YearRow | bccr/download.py:227-230 | The start year is two rows above "Enero" when the row just above contains "Total". Otherwise it is one row above. |
| Download.MonthYearFrom | bccr/download.py:225-234 | The cut from the "Enero" row fails with `IndexError` without a data column. |
| Download.MonthYearFromLayout | bccr/download.py:225-234 | Month i of year column j is value j · months + i, from the start year in January. The start year is the V1 cell one row above "Enero", or two rows above past a "Total" label. With "Enero" in row 0 or 1 the positions wrap round to the last rows, as `iloc[-1]` and `iat[-2]` do. |
| Download.MonthYearBlock | bccr/download.py:225-234 | No column is a `KeyError`. Otherwise the "Enero" row is searched in column `V0`. |
| Download.ReadMonthYear | bccr/download.py:222-237 | A monthly series, transposed before stacking. It is resampled exactly when a frequency is given. |
| Download.ReadMonthYearLayout | bccr/download.py:225-234 | The series is laid out column by column from the "Enero" row. |
| Download.CellInt | bccr/download.py:457 | `int(year0)` succeeds exactly when the cell is a numeral. Otherwise it is a `ValueError`. |
| Download.DayYearFrom | bccr/download.py:451-461 | The cut from the "1 Ene" row needs a data column and a numeric year label, and keeps more than 59 rows. |
| Download.DayYearFromDays | bccr/download.py:451-464 | With 366 data rows, value k is the cell of the k-th calendar day after 1 January of the first year. |
| Download.DayYearBlock | bccr/download.py:451-461 | No column is a `KeyError`. Otherwise the first "1 Ene" row in `V0` starts the block. |
| Download.ReadDayYear | bccr/download.py:448-467 | A daily series tidied from the day-by-year block. It is resampled exactly when a frequency is given. |
| Download.ReadDayYearDays | bccr/download.py:451-466 | Every calendar day of the chart's years has its observation exactly when its cell is not missing. |
| Download.Dedup | bccr/download.py:495 | The chart numbers without repetition: distinct, and exactly the requested ones. |
| Download.TitleRequests | bccr/download.py:492-498 | A single chart is asked for alone. Several are asked for once each. |
| Download.FindIndicators | bccr/download.py:545-549 | The rows kept are exactly those whose title contains all of the space-separated terms, or at least one of them when `match_all` is false, ignoring case, in catalogue order and each once. No terms is a `ValueError`. |
| Download.Matcher | bccr/download.py:545-547 | The row filter holds of a row exactly when its title matches all terms, or some term when `match_all` is false. |
| Download.FindIndicatorsOneTerm | bccr/download.py:545-547 | With a single term, "all" and "any" select the same rows. |
| Download.FindIndicatorsAllWithinAny | bccr/download.py:545-547 | Every row matching all terms matches some term. |
| Fetch.ParseYears | bccr/fetch.py:46 | `int(y)` for every column label. This fails with `ValueError` exactly when some label is not a numeral. |
| Fetch.YearLabelsRoundTrip | bccr/fetch.py:46 | Year labels written by `str` read back as the same years. |
| Fetch.DropFirstRow | bccr/fetch.py:27 | Dropping the first row shifts every row up by one and keeps the columns. |
| Fetch.MonthYearFrame | bccr/fetch.py:26-27 | A month-by-year chart keeps its columns. When the first label holds "total" that row is dropped and every other row moves up one place. Otherwise the frame is unchanged. |
| Fetch.ChartLayout | bccr/fetch.py:22-51 | The period count equals the time positions of the data. Exactly the three stacked formats give a series. The frequency is a known category. Failures are `IndexError`, or `ValueError` for day-by-year year labels. |
| Fetch.PeriodCounts | bccr/fetch.py:22-44 | The period count is the grid size for YearMonth and MonthYear (after dropping a "total" row). It is the column count for IndicatorYear, IndicatorQuarter and IndicatorMonth, and the row count for QuarterIndicator and MonthIndicator. It fails exactly when the label it reads is missing. |
| Fetch.YearMonthLayout | bccr/fetch.py:22-24 | Cell (i, j) is period i · 12 + j after January of the first row's year. |
| Fetch.MonthYearLayout | bccr/fetch.py:25-29 | The first row is dropped iff its label contains "total" in any case. Kept cell (i, j) is period j · rows + i. |
| Fetch.DayYearLayout | bccr/fetch.py:45-51 | Each year keeps exactly its own days: 29 February survives in leap years only. The series starts on 1 January of the first column's year. |
| Fetch.DayYearConsecutiveDays | bccr/fetch.py:45-55 | For consecutive year columns, the k-th value is the cell of the k-th calendar day after 1 January of the first year. |
| Fetch.Prefixed | bccr/fetch.py:62 | Table columns are renamed `name + header`. |
| Fetch.AppliedFunc | bccr/fetch.py:69 | A truthy aggregation is used as given. Otherwise the mean is used, which is written `None`. |
| Fetch.Finish | bccr/fetch.py:57-70 | A table without a name is a `TypeError` exactly when it has a column, since `name + txt` is evaluated once per column. Otherwise the start and frequency are kept, and the data is resampled exactly when a frequency is given, to that frequency. |
| Fetch.Parse | bccr/fetch.py:22-72 | An unrecognised format, or one `parse` does not reshape, returns the raw chart unchanged. A reshaped chart is resampled exactly when a frequency is given, to that frequency. |
| Fetch.SeriesDropsMissing | bccr/fetch.py:58-60 | A stacked chart keeps exactly its non-missing values, each at its own period. It is named `name` when given and the title otherwise. |
| Fetch.TableDropsEmpty | bccr/fetch.py:61-63 | A table keeps exactly the periods with some value and the columns with some value, and each column is labelled `name + header`. |
| Fetch.ReadFreq | bccr/fetch.py:238-241 | A requested frequency is kept. Otherwise the frequency stays unset exactly when all charts share one original frequency. When they differ it is `lowestFrequency` of the original frequencies. |
| Fetch.OriginalFreqs | bccr/fetch.py:239 | Each chart's original frequency comes from its format. |
| Fetch.ParseAll | bccr/fetch.py:245-247 | Every chart is parsed with the common frequency, in order. A failure is some chart's failure. |
| Fetch.ReadResamples | bccr/fetch.py:238-247 | A chart is resampled exactly when a frequency is requested or the original frequencies differ. The target is the requested frequency, or else the lowest original frequency (fetch.py:79-80). Nothing is resampled when all charts share one frequency and none is requested. |
| Pagina.PageKeys | bccr/pagina.py:91-98 | CodCuadro comes first, then FecInicial iff given, FecFinal iff given, and Exportar and Excel iff `excel`, in that order. |
| Pagina.Api | bccr/pagina.py:88-100 | The URL starts with the page address. |
| Pagina.ApiDecodes | bccr/pagina.py:88-100 | The URL decodes back to exactly its parameters. It has the dates exactly when they are given, and the export flags exactly when `excel` is set. |
| Pagina.ApiExampleExcel | bccr/pagina.py:60-62 | Chart 9 with export gives the query `CodCuadro=9&Exportar=True&Excel=True`. |
| Pagina.ApiExampleHtml | bccr/pagina.py:84-86 | Chart 125 without export gives the query `CodCuadro=125`. |
| Pagina.CodeInt | bccr/pagina.py:258 | `int(cuadro)`: an int as is; a str exactly when it is a numeral; otherwise `ValueError`. |
| Pagina.Soporte | bccr/pagina.py:258 | `soporte(c)` is true exactly when `int(c)` is a catalogue key. A non-numeric str is a `ValueError`. |
| Pagina.NombreAsWritten | bccr/pagina.py:272 | The lookup as written fails exactly for a non-numeral, or for a supported chart passed as a str. |
| Pagina.Nombre | bccr/pagina.py:261-272 | A supported chart gives its catalogue title. Any other chart gives its own text. |
| Pagina.NombreStrCodeFails | bccr/pagina.py:258-272 | For chart 125 in the catalogue, `soporte("125")` holds but the lookup as written raises `KeyError`. The corrected lookup gives the title. |
| Pagina.NombreBySpelling | bccr/pagina.py:272 | Both spellings of a chart number give the same name. An unknown chart's name reads back as its number. |
| Pagina.LabelYear | bccr/pagina.py:219 | `int(x.split()[-1])`: the last word as a number. A label with no words is an `IndexError`; a non-numeral is a `ValueError`. |
| Pagina.LabelYears | bccr/pagina.py:219 | Every label's year, or a failure as soon as one label has none. |
| Pagina.KeptDays | bccr/pagina.py:218-222 | The kept positions increase, and a row is kept exactly when it is not a 29 February of a non-leap year. |
| Pagina.DropWrongDays | bccr/pagina.py:218-222 | The result succeeds exactly when every label has a year, and keeps the columns. |
| Pagina.DropWrongDaysKeeps | bccr/pagina.py:218-222 | The dropped rows are exactly the "29 Feb" rows of non-leap years. The others stay, in order, with their labels and cells. |
| Pagina.DropWrongDaysNone | bccr/pagina.py:218-222 | A chart with no "29 Feb" row is kept whole. |
| Pagina.CleanChart | bccr/pagina.py:193-197 | A month-by-year chart needs a first row, and a day-by-year chart needs numeric years and row 59. Other formats are unchanged. Columns are kept. |
| Pagina.CleanMonthYear | bccr/pagina.py:193-194 | A month-by-year chart loses its first row exactly when the label holds "total" in any case. |
| Pagina.Reshape | bccr/pagina.py:206-222 | Exactly the stacked formats give a series. Only day-by-indicator charts can fail, through their labels. |
| Pagina.Tidied | bccr/pagina.py:227-240 | A series stays a series and keeps its start and frequency. The data is resampled exactly when a frequency is given. |
| Pagina.ParseChart | bccr/pagina.py:183-242 | The start is the first observation of the cleaned chart, and the frequency is the format's. The data is resampled exactly when a frequency is given. An unknown first observation is `NotImplemented`. |
| Pagina.ParseDayYear | bccr/pagina.py:195-230 | A day-by-year chart gives the same series as the chart reader: named after the chart number, one value per calendar day, without its missing values. |
| Pagina.DictPairs | bccr/pagina.py:372-375 | Each dict entry assigns `int(key)` to its value, in order. Any key that is not a numeral is a `ValueError`. |
| Pagina.CodePairs | bccr/pagina.py:376-381 | Each listed chart assigns `int(c)` to `__nombre__(c)`, in order, under the lookup as written or corrected. The list fails exactly when some name lookup does. |
| Pagina.ArgPairs | bccr/pagina.py:371-383 | An argument of no known kind raises `TypeError`. Every chart collected is an int. |
| Pagina.AllArgPairs | bccr/pagina.py:371-383 | The arguments fail exactly when one of them does. Every chart collected is an int. |
| Pagina.Indicadores | bccr/pagina.py:371-383 | Collecting the requested charts fails exactly when some positional argument fails. Keyword charts are passed on as they are, so they may be str. |
| Pagina.IndicadoresBuilt | bccr/pagina.py:371-381 | `indicadores` has one entry per name, in order of first assignment, holding the chart of the last assignment. |
| Pagina.OneChartNamed | bccr/pagina.py:376-377 | A single chart number is named after its catalogue title when known, and after its number otherwise. |
| Pagina.InCatalogue | bccr/pagina.py:385-386 | The filter holds of a pair exactly when `soporte` holds of its chart. |
| Pagina.NotInCatalogue | bccr/pagina.py:385-390 | The filter holds of a pair exactly when `soporte` fails for its chart. |
| Pagina.Supported | bccr/pagina.py:385-388 | Exactly the requested charts that the catalogue knows are kept, in request order and each once. Each is a numeral. |
| Pagina.Unsupported | bccr/pagina.py:385-390 | Exactly the requested charts the catalogue does not know are reported, in request order and each once. |
| Pagina.CatFreq | bccr/pagina.py:396 | Each supported chart has its catalogue frequency. |
| Pagina.ParseEach | bccr/pagina.py:394 | Every supported chart is parsed, in order. A failure is some chart's failure. |
| Pagina.Columns | bccr/pagina.py:394-406 | One column per supported chart, in order, with its name, number and parsed data. The conversion of each is the harmonisation step of its chart. |
| Pagina.Datos | bccr/pagina.py:371-406 | A success needs the charts to collect, and every collected chart to pass `int`. A chart that does not pass `int` is a `ValueError`. With no supported chart nothing is returned. Otherwise there is one column per supported request, in request order, with its name, number and parsed data. |
| Pagina.DatosNone | bccr/pagina.py:392 | Nothing is returned exactly when no requested chart is supported. |
| Pagina.DatosOnlySupported | bccr/pagina.py:385-394 | Every column is a requested, supported chart, and every requested supported chart has its column. |
| Pagina.DatosHarmonised | bccr/pagina.py:396-406 | A single chart is never converted. Several end at the target frequency: the lowest catalogue frequency when none is requested, kept exactly when already there. |
| Pagina.CodePairsAgree | bccr/pagina.py:376-381 | For charts passed as int, the name lookups as written and corrected collect the same pairs. |
| Pagina.AllArgPairsAgree | bccr/pagina.py:371-383 | For positional charts passed as int, both lookups collect the same pairs. |
| Pagina.PutIntCodes | bccr/pagina.py:381 | Assigning an int chart keeps every chart of the dict an int. |
| Pagina.PutAllIntCodes | bccr/pagina.py:371-381 | Assigning int charts one by one keeps every chart of the dict an int. |
| Pagina.IndicadoresAgree | bccr/pagina.py:371-383 | With no chart passed as a str, both lookups collect the same dict, and every chart in it is an int. |
| Pagina.ParseEachAgree | bccr/pagina.py:187 | For int charts, the parse lookups as written and corrected give the same data. |
| Pagina.ColumnsAgree | bccr/pagina.py:394-406 | For int charts, both lookups give the same columns. |
| Pagina.DatosAgree | bccr/pagina.py:371-406 | With no chart passed as a str, `datos` as written and corrected give the same result. |
| Pagina.DatosStrCodeFails | bccr/pagina.py:272 | With chart 125 in the catalogue, `PW("125")` as written fails with `KeyError`. Corrected, it succeeds. |
| Pagina.DatosStrKeywordFails | bccr/pagina.py:187 | With chart 125 in the catalogue, `PW(M1="125")` as written fails with `KeyError`. Corrected, it succeeds. |
| Pagina.SingleRequest | bccr/pagina.py:385-406 | A request collecting a single supported chart keeps it and parses it once. As written, the parse fails with `KeyError` for a str chart. No conversion fails. |
| Gee.Usuario | bccr/gee.py:61 | The credentials are exactly Nombre, CorreoElectronico and Token, in that order, with the object's values. |
| Gee.DescargarContent | bccr/gee.py:105-110 | Exactly the seven keys, once each and in order. The indicator is sent as text. The first date defaults to '01/01/1900' and the last to today. SubNiveles is 'S' iff requested, else 'N'. |
| Gee.DescargarDecodes | bccr/gee.py:105-113 | The address `requests.get(host, params)` builds reads back as the seven parameters, each key once and in order, with the credentials and indicator set, whatever the values hold. |
| Gee.ParamsDecode | bccr/gee.py:106-113 | A request dict is read back from its form-encoded address for every value. The key names go out unescaped and are distinct. |
| Gee.AddressReadsBack | bccr/gee.py:112-113 | The service reads back exactly the parameters of the dict from the address requests builds. |
| Gee.SentClean | bccr/gee.py:113 | The form-encoded parameters hold no '&' or '=', and their keys are the key names themselves. |
| Gee.FormParamClean | bccr/gee.py:113 | A key name is its own encoding, and an encoded parameter is clean. |
| Gee.FormDecodeAllEncoded | bccr/gee.py:113 | Form-decoding every key and value undoes form-encoding them. |
| Gee.ParamKeysNamed | bccr/gee.py:106-111 | The keys of the request are the seven key names in order, all distinct. |
| Form.Utf8 | bccr/gee.py:113 | A character's UTF-8 bytes: one byte exactly below 0x80, at most four, with continuation bytes in 0x80..0xBF. |
| Form.Utf8Spells | bccr/gee.py:113 | The lead byte announces the sequence's length, and the bytes spell the character's code point. |
| Form.Utf8DecodeCons | bccr/gee.py:113 | Decoding one character's bytes in front of more bytes reads that character, then the rest. |
| Form.Utf8RoundTrip | bccr/gee.py:113 | UTF-8 decoding undoes UTF-8 encoding for every text. |
| Form.Escape | bccr/gee.py:113 | A byte is written '%' and two hexadecimal digits that read back as its high and low halves. |
| Form.UnescapeEscapes | bccr/gee.py:113 | Unescaping escaped bytes gives those bytes, followed by what the rest gives. |
| Form.UnescapeEncodeChar | bccr/gee.py:113 | Unescaping one encoded character gives its UTF-8 bytes, followed by what the rest gives. |
| Form.UnescapeEncode | bccr/gee.py:113 | Unescaping a form-encoded text gives the text's UTF-8 bytes. |
| Form.FormRoundTrip | bccr/gee.py:113 | `unquote_plus(quote_plus(s)) == s` for every text. |
| Form.EncodedChars | bccr/gee.py:113 | A form-encoded text holds only unreserved characters, '+' and '%', so never '&' or '='. |
| Form.FormEncodeAppend | bccr/gee.py:113 | The encoding of a concatenation is the concatenation of the encodings. |
| Form.EncodeSpecials | bccr/gee.py:113 | A space goes out as '+', '@' as "%40" and '/' as "%2F", as in the default name, e-mail and first date. |
| Form.EncodeBetween | bccr/gee.py:113 | Between two runs of unreserved characters, only the middle part changes. |
| Form.UnreservedUnchanged | bccr/gee.py:113 | A text of unreserved characters is its own encoding. |
| Gee.DescargarDefaults | bccr/gee.py:46-48 | The default object sends the default credentials, '01/01/1900', today and 'N'. |
| Gee.LastSet | bccr/gee.py:247 | The position is the last non-"00" segment after the first one, or 0 when there is none. |
| Gee.Step | bccr/gee.py:246-249 | One step keeps the nine segments. |
| Gee.StepShape | bccr/gee.py:245-249 | A step cuts the account just before its last set segment, or turns it into the root. Only the root is left unchanged. The termination measure drops. |
| Gee.FindParentSegs | bccr/gee.py:245-250 | The parent has nine segments and is in the catalogue. Otherwise the recursion never ends (`RecursionError`). |
| Gee.FindParent | bccr/gee.py:245-250 | The parent is in the catalogue. A segment count other than one or nine is a `ValueError`. |
| Gee.FindParentNearest | bccr/gee.py:245-250 | The parent is the nearest ancestor in the catalogue. It keeps the segment count and every segment before the changed one, and sets every later segment to "00". |
| Gee.FindParentTerminates | bccr/gee.py:245-250 | With the root account in the catalogue, `find_parent` always ends. It fails only when the root is missing. |
| Gee.TwoDigitsSmall | bccr/gee.py:243 | `f'{k:02}'` below 100 is the tens digit followed by the units digit. |
| Gee.GroupSegs | bccr/gee.py:243 | A group account has nine segments without a '.': `E{k:02}` followed by eight "00". |
| Gee.GroupAccounts | bccr/gee.py:238-243 | There are eleven group accounts, one per group name. |
| Gee.TreeCatalogue | bccr/gee.py:253-259 | The accounts searched are the family's accounts and all eleven group accounts. |
| Gee.GroupRoots | bccr/gee.py:238-260 | Group 0 is the root `E00.00.00.00.00.00.00.00.00`. Every group's parent is the root, and the group accounts are distinct. |
| Gee.GroupHeadsDiffer | bccr/gee.py:243 | Distinct groups have distinct first segments. |
| Gee.TreeParents | bccr/gee.py:256-260 | Every nine-segment account of a family's tree has a parent in the tree, because the root group is part of it. |
| Gee.StripFamily | bccr/gee.py:255 | Stripping the family leaves a prefix of the account, shorter by the family and its separator. |
| Gee.StripFamilyRoundTrip | bccr/gee.py:253-255 | `account.familia` ends with the family and strips back to `account`. |
| Gee.NodeLabel | bccr/gee.py:262-263 | A group node is labelled by its name alone. Every other node is labelled `name [codigo]`. |
| Gee.PrintNode | bccr/gee.py:268-271 | One line per path element, in order. Line i is '\|', then 3·(i+1) dashes, a space and the name. |
| Gee.PathLineReadBack | bccr/gee.py:270-271 | A printed line reads back into its depth (the dash count) and its name. |
| Common.DigitRun | bccr/gee.py:294 | The run of digits at the start of a text is maximal. |
| Gee.Brackets | bccr/gee.py:294 | Every code found is a non-empty digit string that appears in brackets in the text. |
| Gee.BracketsCode | bccr/gee.py:294 | A bracketed code is found, and the scan goes on after it. |
| Gee.LineBrackets | bccr/gee.py:262-263 | A node line yields its code, if it has one, before the codes of what follows. |
| Gee.SubcuentasShown | bccr/gee.py:290-294 | `subcuentas` returns exactly the codes of the non-group nodes of the tree, in order. |
| Gee.Elements | bccr/gee.py:326 | `[str(x) for x in a]` gives one code per element of an iterable argument: each character of a str, `str` of each list item, `str` of each dict key, in order. |
| Gee.Codes | bccr/gee.py:315-326 | A single list or dict argument is unpacked. Otherwise each argument is one code. |
| Gee.StringArgumentSplit | bccr/gee.py:315-316 | As written, `datos("317")` asks for "3", "1" and "7". Corrected, it asks for "317". |
| Gee.CodesAgree | bccr/gee.py:315-316 | On every input other than a single str argument, the unpacking as written and the corrected unpacking agree. |
| Gee.StrKeys | bccr/gee.py:319-321 | The rename dict has exactly the str keys of the dict argument. |
| Gee.DatosFrom | bccr/gee.py:326-343 | A code outside the catalogue is a `KeyError`. Otherwise the request succeeds exactly when harmonisation does. |
| Gee.DatosListed | bccr/gee.py:326-343 | Every column is a catalogued code, named by its label. |
| Gee.Datos | bccr/gee.py:315-343 | A code outside the catalogue is a `KeyError`. Every column is a catalogued code, named by its label. |
| Gee.DatosAsWritten | bccr/gee.py:315-343 | As written, a code outside the catalogue is a `KeyError`. On every request other than a single str argument the result is that of the corrected `datos`. |
| Gee.DatosColumns | bccr/gee.py:328 | There is one column per distinct requested code, in order of first request. |
| Gee.DatosNames | bccr/gee.py:319-343 | A dict argument renames each column whose code is a str key to that key's value. Other columns keep their code, and so do all columns without a dict. |
| Gee.LabelOf | bccr/gee.py:343 | A dict renames a code exactly when it has the code as a str key. |
| Gee.DatosLabel | bccr/gee.py:343 | Each column is named by its label. |
| Gee.DatosHarmonised | bccr/gee.py:330-340 | Every column is a catalogued series. A request for a single code is never converted. |
| Gee.DatosSameFrequency | bccr/gee.py:333-340 | In a mixed request every column ends at the target frequency: the requested one, else the lowest of the catalogue. |
| Gee.DatosStringArgument | bccr/gee.py:315-330 | On a catalogue holding 317, `datos("317")` as written fails with `KeyError`. Corrected, it succeeds. |
| Common.Blank | bccr/gui.py:337 | Each key (a column id, or a chart in `seriesAsDict`) is paired with '', in order. |
| Gui.BlankRowFacts | bccr/gui.py:337 | The blank row has each column id once, in column order, and every cell is empty. |
| Gui.AddRow | bccr/gui.py:335-338 | With n_clicks > 0, exactly one blank row is appended and the others are kept. Otherwise the rows are unchanged. |
| Gui.BlankCell | bccr/gui.py:337 | Every cell of a blank row is ''. |
| Gui.Cell | bccr/gui.py:422 | `item[k]` is found exactly when the row has column k. Otherwise it is a `KeyError`. |
| Gui.NamedCodes | bccr/gui.py:420-422 | The (name, code) pair of every row, in row order. This fails exactly when some row lacks a column. |
| Gui.IndicadoresDict | bccr/gui.py:420-422 | `indicadores` has each name once, in order of first use, with the code of its last row. |
| Gui.Sentinel | bccr/gui.py:425-432 | A widget value is "not given" exactly when it is missing or equal to its sentinel. |
| Gui.Interpret | bccr/gui.py:425-432 | 'O', 'no' and 'None' become "not given" for freq, fillna and func. The dates pass through. |
| Gui.SentinelsHidden | bccr/gui.py:425-432 | An option is missing from the command exactly when it was not chosen or was its sentinel. |
| Gui.Part | bccr/gui.py:444-448 | An option adds one keyword argument `name='value'` exactly when it is given, and nothing otherwise. |
| Gui.PairTexts | bccr/gui.py:441 | Each indicator is written `name=code`, in order. |
| Gui.Terminated | bccr/gui.py:444-447 | Parts each followed by a separator are the joined parts plus one separator. |
| Gui.ClausesTerminated | bccr/gui.py:444-447 | The four leading option clauses are the given options, each followed by ", ". |
| Gui.TrimClose | bccr/gui.py:449 | Trimming removes a ", " just before the closing ")", and nothing else. |
| Gui.BodyParts | bccr/gui.py:440-448 | Before the closing, the text is the indicators, a separator, the leading options with separators, and fillna. |
| Gui.TrimmedFillna | bccr/gui.py:448-449 | With fillna chosen, the trimmed text is the indicators followed by the options, each after ", ". |
| Gui.TrimmedNoFillna | bccr/gui.py:448-449 | Without fillna, the trim removes the separator left by the last leading option, giving the same shape. |
| Gui.TrimmedShape | bccr/gui.py:440-449 | After trimming, the text is the indicators followed by the given options, in the order FechaInicio, FechaFinal, func, freq, fillna. |
| Gui.ShapeWithPairs | bccr/gui.py:440-449 | With at least one indicator and none pending, the command as written is the intended one. |
| Gui.ShapeBare | bccr/gui.py:440-449 | With no indicator and no option, both commands are `SW()`. |
| Gui.ShapeStray | bccr/gui.py:440-449 | With no indicator and some option, the command as written opens "SW(, " before the options. |
| Gui.CommandShape | bccr/gui.py:436-449 | The command as written is the intended one, except that with no indicator and some option it begins "SW(, ". |
| Gui.CommandAgrees | bccr/gui.py:440-449 | The command as written and the intended command agree whenever some indicator is listed or no option is given. |
| Gui.EmptyTableCommand | bccr/gui.py:440-449 | With every row deleted and func='sum', the command as written is `SW(, func='sum')`. The intended command is `SW(func='sum')`. |
| Gui.PendingCommand | bccr/gui.py:436-438 | If any indicator code is empty, the command is exactly `SW()`. |
| Gui.Command | bccr/gui.py:436-449 | A pending code gives the bare `SW()`. The intended command never ends in ", )" unless some code itself ends in ", ". |
| Gui.CommandTextClean | bccr/gui.py:440-449 | The text `SW(` + parts + `)` of the intended command ends in ", )" only when some code ends in ", ". |
| Gui.StrayClean | bccr/gui.py:449 | The stray-separator command does not end in ", )" either, so the trim cannot repair it. |
| Gui.NoTrailingSeparator | bccr/gui.py:449 | Neither command ends in ", )". |
| Gui.Display | bccr/gui.py:416-449 | The `busqueda_str` text fails exactly when the table rows do not collect. It never ends in ", )" when no code does. |
| Gui.DisplayAsWritten | bccr/gui.py:416-449 | The `busqueda_str` text as written fails exactly when the rows do not collect. It agrees with the intended one whenever some indicator is listed or no option is chosen. |
| Gui.AddedRowPending | bccr/gui.py:335-338 | After a click on "add", the indicators of the table still collect, and some name is left with an empty code. |
| Gui.AddRowPending | bccr/gui.py:335-338 | After a click on "add", the new blank row leaves a code pending, so the command is `SW()` whatever the options. |
| Gui.CountMessageReads | bccr/gui.py:390-392 | Zero results give the no-results message. A positive count is written out and reads back, with "satisfacen" exactly when the count is above one. |
| Gui.CountReadsBack | bccr/gui.py:391 | The count in "Hay n indicadores…" reads back as n. |
| Gui.CountVerb | bccr/gui.py:391 | The verb is plural exactly when there is more than one result. |
| Gui.NoResultsCount | bccr/gui.py:392 | The no-results message carries no count. |
| Gui.ReadsBack | bccr/gui.py:391 | A run of digits after "Hay " reads back as its value. |
| Gui.Mostrar | bccr/gui.py:382-398 | Without a phrase there is an empty table and the prompt. With one, the rows are exactly the catalogue rows the search selects, in catalogue order and each once. The message is the no-results message exactly when there are none, and otherwise reports their count. |
| Common.IntRoundTrip | bccr/fetch.py:46 | `int(str(i)) == i` for every integer, so year labels written by `str` parse back. |
| Common.PutAllFromEmpty | bccr/gui.py:420-422 | Assigning pairs one by one into an empty dict gives each key once, in order of first assignment, with the value of its last assignment. |
| Common.LastValueConst | bccr/utils.py:51 | When every pair assigns the same value, the value of any key assigned is that value. |
| Common.MatchingFrom | bccr/pagina.py:385-388 | The positions at or after `from` whose element satisfies the filter, increasing, and all of them. |
| Common.Matching | bccr/pagina.py:385-388 | The positions whose element satisfies the filter, increasing, and all of them. |
| Common.PicksCons | bccr/pagina.py:385-388 | Picking one more element in front extends the picked positions in front. |
| Common.FilterFrom | bccr/pagina.py:385-388 | Filtering the elements from `from` on picks them at exactly the matching positions, in order. |
| Common.FilterInOrder | bccr/pagina.py:385-388 | A filter keeps exactly the matching elements, in their original order and each once. |

## Left out

- HTTP, HTML and XML retrieval is left out:
  - `requests.get`, `pd.read_html`, BeautifulSoup and `__observacion__`;
  - `webbrowser.open`;
  - the download banner of `downloadChart`.

  This is network I/O and foreign parsing. The raw grid or record is an input.
- The catalogue files are left out: pickle and Excel loading,
  `actualizar_catalogo`, and `bccr/scrape.py`. This is file and network
  I/O. The catalogue is a map.
- The anytree `Node`/`RenderTree` objects and `str(node)[12:-1]` are left
  out, because they depend on a library's printed form. A node's path is a
  list of names, and a rendered tree is a list of lines.
- pandas aggregation (`resample().apply(func)`), `pd.concat`, NaN
  arithmetic and the `float` conversion in `fixCommas` are left out. These
  are floating-point numerics. A resampled result records its target and
  aggregation name instead.
- `pd.date_range` and `pd.period_range` are left out. The time index is the
  offset from the first period's label.
- Functions and tables from modules of the package that this model does
  not cover, and the clock, are function parameters:
  - `parse_date_parameter`, `parseQuarterYear` and `parseMonthYear`;
  - `lowestFrequency`, `CHARTFREQUENCIES` and `FIRST_OBSERVATION`;
  - today's date.
- The remaining chart readers of `bccr/download.py` are left out. They are
  `readIndicatorYear`, `readIndicatorQuarter` and `readQuarterIndicator`,
  plus the loop that concatenates several charts. Their per-format reshape
  is the one of `Fetch.ChartLayout`.
- `parseSeriesFreqInputs` is not part of this model. `fetch.py` is modelled
  as taking the grid and the title of an already downloaded chart.
- `ServicioWeb.quien`, the indexing of a web-service response, and the
  `quién_subcuentas` callback are left out. They are printing and XML
  processing.
- The Dash layout, figures and file downloads are left out. So are
  `download.comprar`, `setup.py` and `bccr/__init__.py`.
- Utils.FindFirstElement: patterns are literals, matched as a
  case-insensitive prefix, or a leading character class. Other regular
  expressions are not modelled.
- Download.FindIndicators: each term is matched as a literal,
  case-insensitive substring. `re.search` would read it as a regular
  expression.
- Search.Buscar: the phrase and words are matched as literal,
  case-insensitive substrings. pandas' `str.contains` reads them as regular
  expressions. Case folding is ASCII only.
- Calendar.DropMarkers: the marker is a cell of its own. A scraped cell
  whose text happens to be "DELETE ME" is not dropped, although the source
  would drop it.
- Common.ParseInt: accepts an optional '-' and decimal digits only. Python's
  `int()` also takes '+', surrounding blanks and '_'.
- Download.Dedup: Python's `set` order is unspecified. The model keeps the
  first occurrence of each chart number.
- Gee.StrKeys: only str keys rename columns. The columns are named by the
  code as text, so an int key renames nothing, as in the source.
- Gee.FindParent: an account of one segment other than "00", or whose
  parent "E00" is absent, ends in `IndexError`. This is numpy broadcasting,
  modelled only as that error.
- Gui.Display: models only the `busqueda_str` text of `display_output`.
  The `SW(...)` call that follows it (gui.py:450) is not modelled, and
  neither are its failures. That call passes `fillna`, which
  `ServicioWeb.datos` (gee.py:296) does not accept. With no indicator,
  `pd.concat` (gee.py:342) has nothing to join. The `from bccr import SW`
  at gui.py:11 names no export of the package. So whenever no code is
  pending, the callback raises before the text reaches the page.
- Gui.DisplayAsWritten: the same as Gui.Display. Only the text as written
  is modelled, not the `SW(...)` call at gui.py:450 or the import at
  gui.py:11.
- Gui.NoTrailingSeparator: requires that no code ends in ", ". Such a code
  defeats the trim in the source as well.
- Utils.IsLeapYear is the scalar rule. numpy applies it element-wise.
- Fetch.DropFirstRow: removes the first row only. `drop(rawdata.index[0])`
  removes every row carrying that label, so the two differ when a
  month-by-year chart repeats its first ("total") label further down.
- Pagina.Datos: a chart argument is an int or a str. Other Python values
  (floats, numpy integers) are not modelled. The message printed for an
  unsupported chart is output only and is left out.

## Findings

| source | as written | input that shows it | evidently intended | confidence | as-written member | corrected member |
|---|---|---|---|---|---|---|
| bccr/pagina.py:272 | `cuadros.loc[cuadro, 'title']` looks the chart up under the argument as passed, on an integer index | `PW("125")` with chart 125 in the catalogue: `soporte("125")` is true, and `__nombre__("125")` raises `KeyError` | the title of chart 125, as for `__nombre__(125)`, since `soporte` converts with `int` | medium, not executed | Pagina.NombreAsWritten, Pagina.DatosStrCodeFails | Pagina.Nombre, Pagina.Datos, Pagina.DatosAgree |
| bccr/pagina.py:187 | `cuadros.loc[chart, 'chartFormat']` looks the chart up under the argument as passed; keyword charts reach it unconverted | `PW(M1="125")` with chart 125 in the catalogue: `soporte("125")` is true, and the format lookup raises `KeyError` | the format of chart 125, as for `PW(M1=125)` | low, not executed | Pagina.ParseEach, Pagina.DatosStrKeywordFails | Pagina.Datos, Pagina.DatosAgree |
| bccr/gee.py:315-316 | the guard tests `type(Indicadores)`, the tuple of arguments, which is never `str`, so a single str argument is unpacked into its characters | `datos("317")` asks for "3", "1" and "7", and fails with `KeyError` on a catalogue holding 317 | test the argument `Indicadores[0]`, so that `datos("317")` downloads 317 | high, not executed | Gee.CodesAsWritten, Gee.StringArgumentSplit, Gee.DatosStringArgument | Gee.Codes, Gee.CodesAgree, Gee.Datos |
| bccr/gui.py:440-449 | the separator after the indicator list is written even when the list is empty (rows are deletable, line 119). The malformed text is computed but masked: the `SW(...)` call at line 450 raises before the text is shown, and so does the import at line 11 | every row deleted and func='sum': `busqueda_str` is `SW(, func='sum')` | `SW(func='sum')` | low, not executed | Gui.CommandAsWritten, Gui.EmptyTableCommand | Gui.Command, Gui.NoTrailingSeparator |
