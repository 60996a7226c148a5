/**
 The first-generation chart readers of `bccr/download.py`.

 `Api` builds the address of a chart page. The readers take the raw grid of
 one chart (the HTML table, columns `V0`, `V1`, ... with the row labels in
 `V0`), locate the header row, cut the grid down to its data block and
 reshape it into a series whose period `t` is the `t`-th period after the
 start label. Downloading, the loop over several charts and the final
 concatenation are not modelled; each reader handles one chart.
 */
module Download {
  import opened Common
  import opened Grid
  import opened Utils
  import opened Calendar
  import opened Query

  // ---------------------------------------------------------------------
  // api
  // ---------------------------------------------------------------------

  const BccrUrl: string := "http://" + "indicadoreseconomicos." + "bccr.fi.cr/" + "indicadoreseconomicos/"

  /** The chart page, up to and including the '?' that starts the query. */
  const ChartPage: string := BccrUrl + "Cuadros/" + "frmVerCatCuadro.aspx?"

  /** The truth value of an optional year argument: given and non-zero. */
  predicate Truthy(x: Option<int>) {
    x.Some? && x.value != 0
  }

  /** The pieces `api` appends to the chart page, one per optional argument. */
  function CodePart(chart: int): string {
    "CodCuadro=" + IntToString(chart)
  }

  function FirstPart(first: Option<int>): string {
    if Truthy(first) then "&FecInicial=" + IntToString(first.value) + "/01/01" else ""
  }

  function LastPart(last: Option<int>): string {
    if Truthy(last) then "&FecFinal=" + IntToString(last.value) + "/12/31" else ""
  }

  function ExcelPart(excel: bool): string {
    if excel then "&Exportar=True&Excel=True" else ""
  }

  /** `api(chart, first, last, excel)`, assembled piece by piece. */
  function Api(chart: int, first: Option<int>, last: Option<int>, excel: bool): (url: string)
    ensures ChartPage <= url
  {
    ChartPage + CodePart(chart) + FirstPart(first) + LastPart(last) + ExcelPart(excel)
  }

  /** The parameters a chart URL can carry, in the order they appear. */
  datatype ApiKey = CodCuadro | FecInicial | FecFinal | Exportar | Excel

  function KeyName(k: ApiKey): string {
    match k
    case CodCuadro => "CodCuadro"
    case FecInicial => "FecInicial"
    case FecFinal => "FecFinal"
    case Exportar => "Exportar"
    case Excel => "Excel"
  }

  /** Parameters named after a key sequence carry exactly the names of
      those keys. */
  lemma KeysNamed(ks: seq<ApiKey>, ps: seq<Param>)
    requires |ps| == |ks|
    requires forall i :: 0 <= i < |ps| ==> ps[i].key == KeyName(ks[i])
    ensures forall k: ApiKey :: KeyName(k) in ParamKeys(ps) <==> k in ks
  {
    var keys := ParamKeys(ps);
    forall k: ApiKey
      ensures KeyName(k) in keys <==> k in ks
    {
      if KeyName(k) in keys {
        var i :| 0 <= i < |keys| && keys[i] == KeyName(k);
        KeyNameInjective(ks[i], k);
      }
      if k in ks {
        var i :| 0 <= i < |ks| && ks[i] == k;
        assert keys[i] == KeyName(k);
      }
    }
  }

  function Rank(k: ApiKey): nat {
    match k
    case CodCuadro => 0
    case FecInicial => 1
    case FecFinal => 2
    case Exportar => 3
    case Excel => 4
  }

  /** Distinct keys have distinct names. */
  lemma KeyNameInjective(a: ApiKey, b: ApiKey)
    ensures KeyName(a) == KeyName(b) ==> a == b
  {
  }

  /** The parameters `api` writes, in order: the chart code, the first date
      when `first` is truthy, the last date when `last` is truthy, and the two
      export flags when `excel` is set. */
  function ApiKeys(first: Option<int>, last: Option<int>, excel: bool): (ks: seq<ApiKey>)
    ensures |ks| > 0 && ks[0] == CodCuadro
    ensures forall i, j :: 0 <= i < j < |ks| ==> Rank(ks[i]) < Rank(ks[j])
    ensures FecInicial in ks <==> Truthy(first)
    ensures FecFinal in ks <==> Truthy(last)
    ensures Exportar in ks <==> excel
    ensures Excel in ks <==> excel
  {
    [CodCuadro] + (if Truthy(first) then [FecInicial] else []) + (if Truthy(last) then [FecFinal] else [])
    + (if excel then [Exportar, Excel] else [])
  }

  /** The value `api` writes for each parameter: the chart number, the first
      day of the first year, the last day of the last year, or `True`. */
  function KeyValue(k: ApiKey, chart: int, first: Option<int>, last: Option<int>): string {
    match k
    case CodCuadro => IntToString(chart)
    case FecInicial => IntToString(first.GetOr(0)) + "/01/01"
    case FecFinal => IntToString(last.GetOr(0)) + "/12/31"
    case Exportar => "True"
    case Excel => "True"
  }

  function KeyParam(k: ApiKey, chart: int, first: Option<int>, last: Option<int>): Param {
    Param(KeyName(k), KeyValue(k, chart, first, last))
  }

  function ParamsOf(ks: seq<ApiKey>, chart: int, first: Option<int>, last: Option<int>): (ps: seq<Param>)
    ensures |ps| == |ks|
    ensures forall i :: 0 <= i < |ks| ==> ps[i] == KeyParam(ks[i], chart, first, last)
  {
    seq(|ks|, i requires 0 <= i < |ks| => KeyParam(ks[i], chart, first, last))
  }

  /** The query of `api` as a parameter list. */
  function ApiParams(chart: int, first: Option<int>, last: Option<int>, excel: bool): seq<Param> {
    ParamsOf(ApiKeys(first, last, excel), chart, first, last)
  }

  lemma JoinCons(a: string, rest: seq<string>, sep: string)
    requires |rest| > 0
    ensures Join([a] + rest, sep) == a + sep + Join(rest, sep)
  {
    assert ([a] + rest)[1..] == rest;
  }

  /** Joining `ps + [p]`: the last piece is appended after a separator. */
  lemma {:induction false} EncodeQuerySnoc(ps: seq<Param>, p: Param)
    requires |ps| > 0
    ensures EncodeQuery(ps + [p]) == EncodeQuery(ps) + "&" + EncodeParam(p)
    decreases |ps|
  {
    var parts := EncodeParams(ps + [p]);
    if |ps| == 1 {
      assert parts == [EncodeParam(ps[0])] + [EncodeParam(p)];
      JoinCons(EncodeParam(ps[0]), [EncodeParam(p)], "&");
    } else {
      EncodeQuerySnoc(ps[1..], p);
      assert parts == [EncodeParam(ps[0])] + EncodeParams(ps[1..] + [p]);
      assert EncodeParams(ps) == [EncodeParam(ps[0])] + EncodeParams(ps[1..]);
      JoinCons(EncodeParam(ps[0]), EncodeParams(ps[1..] + [p]), "&");
      JoinCons(EncodeParam(ps[0]), EncodeParams(ps[1..]), "&");
      assert (ps + [p])[1..] == ps[1..] + [p];
    }
  }

  /** Appending one key appends `&key=value` to the query. */
  lemma QuerySnoc(ks: seq<ApiKey>, k: ApiKey, chart: int, first: Option<int>, last: Option<int>)
    requires |ks| > 0
    ensures EncodeQuery(ParamsOf(ks + [k], chart, first, last))
         == EncodeQuery(ParamsOf(ks, chart, first, last)) + ("&" + EncodeParam(KeyParam(k, chart, first, last)))
  {
    var p := KeyParam(k, chart, first, last);
    assert ParamsOf(ks + [k], chart, first, last) == ParamsOf(ks, chart, first, last) + [p];
    EncodeQuerySnoc(ParamsOf(ks, chart, first, last), p);
    assert EncodeQuery(ParamsOf(ks, chart, first, last)) + ("&" + EncodeParam(p)) == EncodeQuery(ParamsOf(ks, chart, first, last)) + "&" + EncodeParam(p);
  }

  /** Each piece of `api` is the encoding of its parameter, after a '&'
      for all but the chart code. */
  lemma CodePartIsParam(chart: int, first: Option<int>, last: Option<int>)
    ensures CodePart(chart) == EncodeParam(KeyParam(CodCuadro, chart, first, last))
  {
    assert "CodCuadro" + "=" == "CodCuadro=";
  }

  lemma FirstPartIsParam(chart: int, first: Option<int>, last: Option<int>)
    requires Truthy(first)
    ensures FirstPart(first) == "&" + EncodeParam(KeyParam(FecInicial, chart, first, last))
  {
    var v := IntToString(first.value);
    assert "&" + "FecInicial" + "=" == "&FecInicial=";
    assert "&FecInicial=" + (v + "/01/01") == "&FecInicial=" + v + "/01/01";
    assert "&" + ("FecInicial" + "=" + v + "/01/01") == "&" + "FecInicial" + "=" + v + "/01/01";
  }

  lemma LastPartIsParam(chart: int, first: Option<int>, last: Option<int>)
    requires Truthy(last)
    ensures LastPart(last) == "&" + EncodeParam(KeyParam(FecFinal, chart, first, last))
  {
    var v := IntToString(last.value);
    assert "&" + "FecFinal" + "=" == "&FecFinal=";
    assert "&FecFinal=" + (v + "/12/31") == "&FecFinal=" + v + "/12/31";
    assert "&" + ("FecFinal" + "=" + v + "/12/31") == "&" + "FecFinal" + "=" + v + "/12/31";
  }

  lemma ExcelPartIsParams(chart: int, first: Option<int>, last: Option<int>)
    ensures ExcelPart(true) ==
      ("&" + EncodeParam(KeyParam(Exportar, chart, first, last))) + ("&" + EncodeParam(KeyParam(Excel, chart, first, last)))
  {
    assert "&" + ("Exportar" + "=" + "True") == "&Exportar=True";
    assert "&" + ("Excel" + "=" + "True") == "&Excel=True";
  }

  /** The keys of the chart code and the two dates. */
  function DateKeys(first: Option<int>, last: Option<int>): seq<ApiKey> {
    [CodCuadro] + (if Truthy(first) then [FecInicial] else []) + (if Truthy(last) then [FecFinal] else [])
  }

  lemma CodeFirstQuery(chart: int, first: Option<int>, last: Option<int>)
    ensures EncodeQuery(ParamsOf([CodCuadro] + (if Truthy(first) then [FecInicial] else []), chart, first, last))
         == CodePart(chart) + FirstPart(first)
  {
    var k0 := [CodCuadro];
    CodePartIsParam(chart, first, last);
    assert EncodeParams(ParamsOf(k0, chart, first, last)) == [CodePart(chart)];
    if Truthy(first) {
      QuerySnoc(k0, FecInicial, chart, first, last);
      FirstPartIsParam(chart, first, last);
    } else {
      assert k0 + [] == k0;
    }
  }

  lemma DateQuery(chart: int, first: Option<int>, last: Option<int>)
    ensures EncodeQuery(ParamsOf(DateKeys(first, last), chart, first, last))
         == CodePart(chart) + FirstPart(first) + LastPart(last)
  {
    var k1 := [CodCuadro] + (if Truthy(first) then [FecInicial] else []);
    CodeFirstQuery(chart, first, last);
    if Truthy(last) {
      QuerySnoc(k1, FecFinal, chart, first, last);
      LastPartIsParam(chart, first, last);
      Assoc(CodePart(chart) + FirstPart(first), "&", EncodeParam(KeyParam(FecFinal, chart, first, last)));
    } else {
      assert DateKeys(first, last) == k1;
    }
  }

  lemma ExcelQuery(chart: int, first: Option<int>, last: Option<int>, excel: bool)
    ensures EncodeQuery(ApiParams(chart, first, last, excel))
         == EncodeQuery(ParamsOf(DateKeys(first, last), chart, first, last)) + ExcelPart(excel)
  {
    var k2 := DateKeys(first, last);
    var q2 := EncodeQuery(ParamsOf(k2, chart, first, last));
    if excel {
      QuerySnoc(k2, Exportar, chart, first, last);
      QuerySnoc(k2 + [Exportar], Excel, chart, first, last);
      assert k2 + [Exportar] + [Excel] == ApiKeys(first, last, excel);
      ExcelPartIsParams(chart, first, last);
      Assoc(q2, "&" + EncodeParam(KeyParam(Exportar, chart, first, last)),
            "&" + EncodeParam(KeyParam(Excel, chart, first, last)));
    } else {
      assert k2 == ApiKeys(first, last, excel);
    }
  }

  /** The URL `api` builds is the chart page followed by the encoding of
      `ApiParams`: the piecewise assembly and the parameter list agree. */
  lemma ApiIsQuery(chart: int, first: Option<int>, last: Option<int>, excel: bool)
    ensures Api(chart, first, last, excel) == ChartPage + EncodeQuery(ApiParams(chart, first, last, excel))
  {
    var c, f, l, e := CodePart(chart), FirstPart(first), LastPart(last), ExcelPart(excel);
    DateQuery(chart, first, last);
    ExcelQuery(chart, first, last, excel);
    Assoc(ChartPage, c + f + l, e);
    Assoc(ChartPage, c + f, l);
    Assoc(ChartPage, c, f);
  }

  lemma CleanNumber(i: int, suffix: string)
    requires forall k :: 0 <= k < |suffix| ==> suffix[k] == '/' || IsDigit(suffix[k])
    ensures '&' !in IntToString(i) + suffix && '=' !in IntToString(i) + suffix
    ensures 'E' !in IntToString(i) + suffix
  {
    var s := IntToString(i) + suffix;
    forall k | 0 <= k < |s|
      ensures s[k] != '&' && s[k] != '=' && s[k] != 'E'
    {
      if k >= |IntToString(i)| {
        assert s[k] == suffix[k - |IntToString(i)|];
      }
    }
  }

  /** Parameter names are words of letters. */
  lemma KeyNameLetters(k: ApiKey)
    ensures Letters(KeyName(k)) && '&' !in KeyName(k) && '=' !in KeyName(k)
  {
    match k
    case CodCuadro =>
    case FecInicial =>
    case FecFinal =>
    case Exportar =>
    case Excel =>
  }

  /** Every parameter `api` writes has a clean name and value. */
  lemma KeyParamClean(k: ApiKey, chart: int, first: Option<int>, last: Option<int>)
    ensures CleanParam(KeyParam(k, chart, first, last))
  {
    var value := KeyValue(k, chart, first, last);
    KeyNameLetters(k);
    match k
    case CodCuadro =>
      CleanNumber(chart, "");
      assert IntToString(chart) + "" == IntToString(chart);
    case FecInicial => CleanNumber(first.GetOr(0), "/01/01");
    case FecFinal => CleanNumber(last.GetOr(0), "/12/31");
    case Exportar => assert Letters(value);
    case Excel => assert Letters(value);
  }

  lemma ApiParamsClean(chart: int, first: Option<int>, last: Option<int>, excel: bool)
    ensures Clean(ApiParams(chart, first, last, excel))
  {
    var ks := ApiKeys(first, last, excel);
    var ps := ApiParams(chart, first, last, excel);
    forall i | 0 <= i < |ps|
      ensures CleanParam(ps[i])
    {
      KeyParamClean(ks[i], chart, first, last);
    }
  }

  /** Reading the URL back gives exactly the parameters of `ApiParams`, in
      order; in particular it carries `FecInicial` exactly when `first` is
      truthy, `FecFinal` exactly when `last` is, and `Excel` exactly when the
      export is requested. */
  lemma ApiDecodes(chart: int, first: Option<int>, last: Option<int>, excel: bool)
    ensures DecodeUrl(ChartPage, Api(chart, first, last, excel)) == Some(ApiParams(chart, first, last, excel))
    ensures HasParam(ChartPage, Api(chart, first, last, excel), "FecInicial") <==> Truthy(first)
    ensures HasParam(ChartPage, Api(chart, first, last, excel), "FecFinal") <==> Truthy(last)
    ensures HasParam(ChartPage, Api(chart, first, last, excel), "Excel") <==> excel
  {
    var ks := ApiKeys(first, last, excel);
    var ps := ApiParams(chart, first, last, excel);
    ApiIsQuery(chart, first, last, excel);
    ApiParamsClean(chart, first, last, excel);
    UrlRoundTrip(ChartPage, ps);
    KeysNamed(ks, ps);
    assert KeyName(FecInicial) == "FecInicial" && KeyName(FecFinal) == "FecFinal" && KeyName(Excel) == "Excel";
  }

  lemma NoCapitalEConcat(a: string, b: string)
    requires 'E' !in a && 'E' !in b
    ensures 'E' !in a + b
  {
  }

  lemma ChartPageHasNoCapitalE()
    ensures 'E' !in ChartPage
  {
    assert 'E' !in "http://";
    assert 'E' !in "indicadoreseconomicos.";
    NoCapitalEConcat("http://", "indicadoreseconomicos.");
    assert 'E' !in "bccr.fi.cr/";
    NoCapitalEConcat("http://" + "indicadoreseconomicos.", "bccr.fi.cr/");
    assert 'E' !in "indicadoreseconomicos/";
    NoCapitalEConcat("http://" + "indicadoreseconomicos." + "bccr.fi.cr/", "indicadoreseconomicos/");
    assert 'E' !in "Cuadros/";
    NoCapitalEConcat(BccrUrl, "Cuadros/");
    assert 'E' !in "frmVerCatCuadro.aspx?";
    NoCapitalEConcat(BccrUrl + "Cuadros/", "frmVerCatCuadro.aspx?");
  }

  /** The query pieces before the export flags contain no capital 'E'. */
  lemma PartsHaveNoCapitalE(chart: int, first: Option<int>, last: Option<int>)
    ensures 'E' !in CodePart(chart)
    ensures 'E' !in FirstPart(first)
    ensures 'E' !in LastPart(last)
  {
    assert 'E' !in IntToString(chart);
    if Truthy(first) {
      CleanNumber(first.value, "/01/01");
    }
    if Truthy(last) {
      CleanNumber(last.value, "/12/31");
    }
  }

  /** Without the Excel export the URL never mentions `Excel` or `Exportar`;
      with it the URL ends in the two export parameters. */
  lemma ApiExcel(chart: int, first: Option<int>, last: Option<int>, excel: bool)
    ensures !excel ==> !Contains(Api(chart, first, last, excel), "Excel")
    ensures !excel ==> !Contains(Api(chart, first, last, excel), "Exportar")
    ensures excel ==> IsSuffix("&Exportar=True&Excel=True", Api(chart, first, last, excel))
  {
    var url := Api(chart, first, last, excel);
    var pre := ChartPage + CodePart(chart) + FirstPart(first) + LastPart(last);
    assert url == pre + ExcelPart(excel);
    if !excel {
      ChartPageHasNoCapitalE();
      PartsHaveNoCapitalE(chart, first, last);
      assert url == pre;
      assert 'E' !in url;
      if Contains(url, "Excel") {
        ContainsFirstChar(url, "Excel");
      }
      if Contains(url, "Exportar") {
        ContainsFirstChar(url, "Exportar");
      }
    } else {
      assert url[|url| - |ExcelPart(excel)|..] == ExcelPart(excel);
    }
  }

  lemma NatToStringExamples()
    ensures NatToString(125) == "125" && NatToString(2007) == "2007" && NatToString(2014) == "2014"
  {
    assert NatToString(1) == "1";
    assert NatToString(12) == "12";
    assert NatToString(125) == NatToString(12) + "5";
    assert NatToString(20) == "20";
    assert NatToString(200) == NatToString(20) + "0";
    assert NatToString(201) == NatToString(20) + "1";
    assert NatToString(2007) == NatToString(200) + "7";
    assert NatToString(2014) == NatToString(201) + "4";
  }

  lemma ExampleParts()
    ensures CodePart(125) == "CodCuadro=125"
    ensures FirstPart(Some(2007)) == "&" + "FecInicial=2007/01/01"
    ensures LastPart(Some(2014)) == "&" + "FecFinal=2014/12/31"
  {
    NatToStringExamples();
    var y0 := IntToString(2007);
    var y1 := IntToString(2014);
    assert "&FecInicial=" + y0 + "/01/01" == "&" + "FecInicial=2007/01/01";
    assert "&FecFinal=" + y1 + "/12/31" == "&" + "FecFinal=2014/12/31";
  }

  /** The URLs for chart 125 carry the chart code, the first and last dates
      and, without the export flag, no mention of Excel. */
  lemma ApiTestCases()
    ensures Contains(Api(125, None, None, true), "CodCuadro=125")
    ensures Contains(Api(125, Some(2007), None, true), "FecInicial=2007/01/01")
    ensures Contains(Api(125, Some(2007), Some(2014), true), "FecFinal=2014/12/31")
    ensures !Contains(Api(125, Some(2007), Some(2014), false), "Excel")
  {
    ExampleParts();
    var tail := ExcelPart(true);
    assert Api(125, None, None, true) == ChartPage + CodePart(125) + tail;
    ContainsMiddle(ChartPage, CodePart(125), tail);
    var code := ChartPage + CodePart(125);
    assert code + ("&" + "FecInicial=2007/01/01") == code + "&" + "FecInicial=2007/01/01";
    ContainsMiddle(code + "&", "FecInicial=2007/01/01", tail);
    var first := code + FirstPart(Some(2007));
    assert first + LastPart(None) == first;
    assert Api(125, Some(2007), None, true) == first + tail;
    assert first + ("&" + "FecFinal=2014/12/31") == first + "&" + "FecFinal=2014/12/31";
    ContainsMiddle(first + "&", "FecFinal=2014/12/31", tail);
    assert Api(125, Some(2007), Some(2014), true) == first + LastPart(Some(2014)) + tail;
    ApiExcel(125, Some(2007), Some(2014), false);
  }

  // ---------------------------------------------------------------------
  // Raw chart grids
  // ---------------------------------------------------------------------

  /** Names of the raw columns `V<from>`, `V<from + 1>`, ... */
  function ColumnNames(from: nat, n: nat): (r: seq<string>)
    ensures |r| == n
  {
    seq(n, k requires 0 <= k < n => "V" + NatToString(from + k))
  }

  /** `del rawdata['V0']`: the grid without its label column. */
  function DropLabels(g: Rows, w: nat): (r: Rows)
    requires IsRect(g, w) && w >= 1
    ensures |r| == |g| && IsRect(r, w - 1)
    ensures forall i, j :: 0 <= i < |g| && 0 <= j < w - 1 ==> r[i][j] == g[i][j + 1]
  {
    seq(|g|, i requires 0 <= i < |g| => g[i][1..])
  }

  /** The data block after the label column is deleted, as a frame. */
  function DataBlock(g: Rows, w: nat): (f: Frame)
    requires IsRect(g, w) && w >= 1
    ensures f.Valid() && |f.index| == |g| && |f.columns| == w - 1
    ensures f.cells == DropLabels(g, w)
  {
    Frame(CellTexts(Column(g, 0)), ColumnNames(1, w - 1), DropLabels(g, w))
  }

  /** `varName if varName else rawdata['V0'][0]`; an empty grid has no
      `rawdata['V0'][0]` (`KeyError`). */
  function SeriesName(g: Rows, w: nat, name: string): (r: Result<string>)
    requires IsRect(g, w)
    ensures r.Err? <==> name == "" && (|g| == 0 || w == 0)
    ensures r.Ok? && name != "" ==> r.value == name
  {
    if name != "" then Ok(name)
    else if |g| == 0 || w == 0 then Err(KeyError)
    else Ok(CellText(g[0][0]))
  }

  /** The first row whose cell in column `col` matches `p`. */
  function HeaderRow(g: Rows, w: nat, col: nat, p: Pattern): (r: Result<nat>)
    requires IsRect(g, w) && col < w
    ensures r.Ok? ==> r.value < |g| && Matches(p, CellText(g[r.value][col]))
    ensures r.Ok? ==> forall i :: 0 <= i < r.value ==> !Matches(p, CellText(g[i][col]))
    ensures r.Err? <==> forall i :: 0 <= i < |g| ==> !Matches(p, CellText(g[i][col]))
  {
    var labels := CellTexts(Column(g, col));
    assert forall i :: 0 <= i < |g| ==> labels[i] == CellText(g[i][col]);
    FindFirstElement(p, labels)
  }

  /** `year0 + '/01'`: only a text cell can be concatenated with a string. */
  function MonthlyStart(c: Cell): (r: Result<string>)
    ensures r.Ok? <==> c.Val?
    ensures r.Ok? ==> r.value == c.text + "/01"
    ensures r.Err? ==> r.error == TypeError
  {
    if c.Val? then Ok(c.text + "/01") else Err(TypeError)
  }

  /** `rawdata.iat[i, j]` with Python's negative positions. */
  function CellAt(g: Rows, w: nat, i: int, j: int): (r: Result<Cell>)
    requires IsRect(g, w)
    ensures r.Ok? <==> PyIndex(|g|, i).Some? && PyIndex(w, j).Some?
    ensures r.Ok? ==> r.value == g[PyIndex(|g|, i).value][PyIndex(w, j).value]
    ensures r.Err? ==> r.error == IndexError
  {
    match (PyIndex(|g|, i), PyIndex(w, j))
    case (Some(a), Some(b)) => Ok(g[a][b])
    case _ => Err(IndexError)
  }

  /** A cut-down chart: the start label and the stacked values. */
  datatype Block = Block(start: string, values: seq<Cell>)

  /** Apply `tidy` to a cut-down chart under the series name `name`. */
  function TidyBlock(b: Block, freq: string, name: string, target: Option<string>, func: Option<string>): (r: Output)
    ensures r.Tidied? || r.Resampled?
    ensures r.Resampled? <==> Given(target)
    ensures r.data.TSeries? && r.data.name == name && r.data.start == b.start && r.data.freq == freq
    ensures forall a :: 0 <= a < |r.data.obs| ==>
      var o := r.data.obs[a]; o.t < |b.values| && o.v == FixCommas(b.values[o.t]) && o.v != Missing
  {
    TidySeries(b.values, b.start, freq, name, target, func)
  }

  /** Position of cell `(i, j)` when a grid `width` cells wide is read row by row. */
  function RowMajor(i: nat, j: nat, width: nat): nat {
    i * width + j
  }

  /** Position of cell `(i, j)` when a grid `height` cells high is read column by column. */
  function ColumnMajor(i: nat, j: nat, height: nat): nat {
    j * height + i
  }

  /** Stacking a data block puts cell `(i, j)` (after the label column) at
      `RowMajor(i, j, w - 1)`. */
  lemma RowMajorBlock(rest: Rows, w: nat, i: nat, j: nat)
    requires IsRect(rest, w) && w >= 1 && i < |rest| && j < w - 1
    ensures |Stack(DataBlock(rest, w))| == |rest| * (w - 1)
    ensures RowMajor(i, j, w - 1) < |Stack(DataBlock(rest, w))|
    ensures Stack(DataBlock(rest, w))[RowMajor(i, j, w - 1)] == rest[i][j + 1]
  {
    var f := DataBlock(rest, w);
    StackIndex(f, i, j);
  }

  /** Stacking the transposed data block puts cell `(i, j)` (after the label
      column) at `ColumnMajor(i, j, height)`. */
  lemma ColumnMajorBlock(rest: Rows, w: nat, i: nat, j: nat)
    requires IsRect(rest, w) && w >= 1 && i < |rest| && j < w - 1
    ensures |Stack(Transpose(DataBlock(rest, w)))| == |rest| * (w - 1)
    ensures ColumnMajor(i, j, |rest|) < |Stack(Transpose(DataBlock(rest, w)))|
    ensures Stack(Transpose(DataBlock(rest, w)))[ColumnMajor(i, j, |rest|)] == rest[i][j + 1]
  {
    var f := DataBlock(rest, w);
    StackTransposedIndex(f, i, j);
  }

  // ---------------------------------------------------------------------
  // readYearMonth
  // ---------------------------------------------------------------------

  /** The cut below header row `h` of a year-by-month chart: the data rows
      follow the header, the first year is the label of the first data row,
      and the months are stacked row by row. */
  function YearMonthFrom(g: Rows, w: nat, h: nat): (r: Result<Block>)
    requires IsRect(g, w) && w >= 1 && h < |g|
    ensures r.Ok? <==> h + 1 < |g| && g[h + 1][0].Val?
    ensures h + 1 == |g| ==> r == Err(IndexError)
  {
    var rest := g[h + 1..];
    if |rest| == 0 then Err(IndexError)
    else
      assert rest[0] == g[h + 1];
      var start :- MonthlyStart(rest[0][0]);
      Ok(Block(start, Stack(DataBlock(rest, w))))
  }

  /** Month `j` of data row `i` (counting below the header) is value
      `i * months + j`; the start is the first data row's label, and there is
      one value per cell below the header. */
  lemma YearMonthFromLayout(g: Rows, w: nat, h: nat, i: nat, j: nat)
    requires IsRect(g, w) && w >= 1 && h < |g| && YearMonthFrom(g, w, h).Ok?
    ensures var b := YearMonthFrom(g, w, h).value;
      h + 1 < |g| && g[h + 1][0].Val? && b.start == g[h + 1][0].text + "/01" &&
      |b.values| == (|g| - (h + 1)) * (w - 1) &&
      (h + 1 + i < |g| && j < w - 1 ==>
        RowMajor(i, j, w - 1) < |b.values| && b.values[RowMajor(i, j, w - 1)] == g[h + 1 + i][j + 1])
  {
    var rest: Rows := g[h + 1..];
    assert YearMonthFrom(g, w, h).value.values == Stack(DataBlock(rest, w));
    if h + 1 + i < |g| && j < w - 1 {
      RowMajorBlock(rest, w, i, j);
      assert rest[i] == g[h + 1 + i];
    }
  }

  /** `readYearMonth` on one chart, up to `tidy`: the header row is the first
      whose `V1` starts with "Enero" (a chart without `V1` raises `KeyError`). */
  function YearMonthBlock(g: Rows, w: nat): (r: Result<Block>)
    requires IsRect(g, w)
    ensures w < 2 ==> r == Err(KeyError)
    ensures w >= 2 ==>
      (HeaderRow(g, w, 1, Literal("Enero")).Err? ==> r == Err(ValueError)) &&
      (HeaderRow(g, w, 1, Literal("Enero")).Ok? ==> r == YearMonthFrom(g, w, HeaderRow(g, w, 1, Literal("Enero")).value))
  {
    if w < 2 then Err(KeyError)
    else
      var h :- HeaderRow(g, w, 1, Literal("Enero"));
      YearMonthFrom(g, w, h)
  }

  function ReadYearMonth(g: Rows, w: nat, name: string, freq: Option<string>, func: Option<string>): (r: Result<Output>)
    requires IsRect(g, w)
    ensures r.Ok? ==> r.value.Tidied? || r.value.Resampled?
    ensures r.Ok? ==> (r.value.Resampled? <==> Given(freq))
    ensures r.Ok? ==> r.value.data.TSeries? && r.value.data.freq == "M"
    ensures r.Ok? <==> SeriesName(g, w, name).Ok? && YearMonthBlock(g, w).Ok?
    ensures r.Ok? ==> r.value == TidyBlock(YearMonthBlock(g, w).value, "M", SeriesName(g, w, name).value, freq, func)
    ensures w < 2 ==> r.Err?
  {
    var varName :- SeriesName(g, w, name);
    var b :- YearMonthBlock(g, w);
    Ok(TidyBlock(b, "M", varName, freq, func))
  }

  /** The layout of a year-by-month result cut below header row `h`: it starts
      at the label of the first row below the header, and month `j` of data
      row `i` is period `i * months + j`, kept exactly when the cell is not
      missing. */
  predicate YearMonthAligned(g: Rows, w: nat, h: nat, d: Tidy, i: nat, j: nat)
    requires IsRect(g, w) && w >= 1 && h < |g|
  {
    d.TSeries? && h + 1 < |g| && g[h + 1][0].Val? && d.start == g[h + 1][0].text + "/01" &&
    (forall a :: 0 <= a < |d.obs| ==> d.obs[a].t < (|g| - (h + 1)) * (w - 1)) &&
    (h + 1 + i < |g| && j < w - 1 ==>
      (Obs(RowMajor(i, j, w - 1), FixCommas(g[h + 1 + i][j + 1])) in d.obs <==> g[h + 1 + i][j + 1] != Missing))
  }

  /** A year-by-month result is laid out row by row below its header. */
  lemma ReadYearMonthLayout(g: Rows, w: nat, name: string, freq: Option<string>, func: Option<string>, i: nat, j: nat)
    requires IsRect(g, w) && ReadYearMonth(g, w, name, freq, func).Ok?
    ensures w >= 2 && HeaderRow(g, w, 1, Literal("Enero")).Ok?
    ensures YearMonthAligned(g, w, HeaderRow(g, w, 1, Literal("Enero")).value, ReadYearMonth(g, w, name, freq, func).value.data, i, j)
  {
    var h := HeaderRow(g, w, 1, Literal("Enero")).value;
    var b := YearMonthFrom(g, w, h).value;
    var out := ReadYearMonth(g, w, name, freq, func).value;
    assert out == TidyBlock(b, "M", SeriesName(g, w, name).value, freq, func);
    YearMonthOutput(g, w, h, b, out, SeriesName(g, w, name).value, freq, func, i, j);
  }

  /** `ReadYearMonthLayout` for a given header row `h`. */
  lemma YearMonthOutput(g: Rows, w: nat, h: nat, b: Block, out: Output, name: string, freq: Option<string>, func: Option<string>, i: nat, j: nat)
    requires IsRect(g, w) && w >= 1 && h < |g| && YearMonthFrom(g, w, h) == Ok(b)
    requires out == TidyBlock(b, "M", name, freq, func)
    ensures YearMonthAligned(g, w, h, out.data, i, j)
  {
    YearMonthFromLayout(g, w, h, i, j);
    BlockObs(b, "M", name, freq, func, RowMajor(i, j, w - 1), (|g| - (h + 1)) * (w - 1));
  }

  /** What `tidy` keeps of a block, position by position: value `k` is an
      observation at offset `k` exactly when it is not missing, and no
      observation lies beyond the block. */
  lemma BlockObs(b: Block, freq: string, name: string, target: Option<string>, func: Option<string>, k: nat, n: nat)
    requires |b.values| == n
    ensures var d := TidyBlock(b, freq, name, target, func).data;
      (forall a :: 0 <= a < |d.obs| ==> d.obs[a].t < n) &&
      (k < n ==> (Obs(k, FixCommas(b.values[k])) in d.obs <==> b.values[k] != Missing))
  {
    var d := TidyBlock(b, freq, name, target, func).data;
    if k < n {
      if b.values[k] != Missing {
        ObservationsComplete(FixAll(b.values), 0, k);
      }
      if Obs(k, FixCommas(b.values[k])) in d.obs {
        var a :| 0 <= a < |d.obs| && d.obs[a] == Obs(k, FixCommas(b.values[k]));
      }
    }
  }

  // ---------------------------------------------------------------------
  // readMonthYear
  // ---------------------------------------------------------------------

  /** The row holding the first year of a month-by-year chart: the header row is
      just above the "Enero" row, unless that row's label contains "Total" (a
      case-sensitive test), in which case it is one further up. Positions are
      Python's, so `-1` is the last row. */
  function YearRow(g: Rows, w: nat, h: nat): (r: int)
    requires IsRect(g, w) && w >= 1 && h < |g|
    ensures !Contains(CellText(g[PyIndex(|g|, h - 1).value][0]), "Total") ==> r == h - 1
    ensures Contains(CellText(g[PyIndex(|g|, h - 1).value][0]), "Total") ==> r == h - 2
  {
    if Contains(CellText(g[PyIndex(|g|, h - 1).value][0]), "Total") then h - 2 else h - 1
  }

  /** The cut from the "Enero" row `h` of a month-by-year chart: the year label
      is read from column `V1` of the row `YearRow` names, and the data block,
      which starts at the "Enero" row, is read column by column, so that the
      months of each year follow each other. */
  function MonthYearFrom(g: Rows, w: nat, h: nat): (r: Result<Block>)
    requires IsRect(g, w) && w >= 1 && h < |g|
    ensures w < 2 ==> r == Err(IndexError)
  {
    var year0 :- CellAt(g, w, YearRow(g, w, h), 1);
    var start :- MonthlyStart(year0);
    Ok(Block(start, Stack(Transpose(DataBlock(g[h..], w)))))
  }

  /** Month `i` of year column `j` is value `j * months + i`, and the start
      label is the year cell above the "Enero" row (two above it past a
      "Total" row). Positions above the first row wrap round to the last rows,
      as Python's negative positions do. */
  lemma MonthYearFromLayout(g: Rows, w: nat, h: nat, i: nat, j: nat)
    requires IsRect(g, w) && w >= 1 && h < |g| && MonthYearFrom(g, w, h).Ok?
    ensures var b := MonthYearFrom(g, w, h).value;
      w >= 2 &&
      (h >= 2 && Contains(CellText(g[h - 1][0]), "Total") ==> g[h - 2][1].Val? && b.start == g[h - 2][1].text + "/01") &&
      (h >= 1 && !Contains(CellText(g[h - 1][0]), "Total") ==> g[h - 1][1].Val? && b.start == g[h - 1][1].text + "/01") &&
      (h == 1 && Contains(CellText(g[0][0]), "Total") ==> g[|g| - 1][1].Val? && b.start == g[|g| - 1][1].text + "/01") &&
      (h == 0 && !Contains(CellText(g[|g| - 1][0]), "Total") ==> g[|g| - 1][1].Val? && b.start == g[|g| - 1][1].text + "/01") &&
      (h == 0 && Contains(CellText(g[|g| - 1][0]), "Total") ==> |g| >= 2 && g[|g| - 2][1].Val? && b.start == g[|g| - 2][1].text + "/01") &&
      |b.values| == (|g| - h) * (w - 1) &&
      (h + i < |g| && j < w - 1 ==>
        ColumnMajor(i, j, |g| - h) < |b.values| && b.values[ColumnMajor(i, j, |g| - h)] == g[h + i][j + 1])
  {
    var rest: Rows := g[h..];
    assert MonthYearFrom(g, w, h).value.values == Stack(Transpose(DataBlock(rest, w)));
    if h + i < |g| && j < w - 1 {
      ColumnMajorBlock(rest, w, i, j);
      assert rest[i] == g[h + i];
    } else if w >= 2 {
      ColumnMajorBlock(rest, w, 0, 0);
    }
  }

  /** `readMonthYear` on one chart, up to `tidy`: the "Enero" row is searched
      in the label column `V0`. */
  function MonthYearBlock(g: Rows, w: nat): (r: Result<Block>)
    requires IsRect(g, w)
    ensures w == 0 ==> r == Err(KeyError)
    ensures w >= 1 ==>
      (HeaderRow(g, w, 0, Literal("Enero")).Err? ==> r == Err(ValueError)) &&
      (HeaderRow(g, w, 0, Literal("Enero")).Ok? ==> r == MonthYearFrom(g, w, HeaderRow(g, w, 0, Literal("Enero")).value))
  {
    if w == 0 then Err(KeyError)
    else
      var h :- HeaderRow(g, w, 0, Literal("Enero"));
      MonthYearFrom(g, w, h)
  }

  function ReadMonthYear(g: Rows, w: nat, name: string, freq: Option<string>, func: Option<string>): (r: Result<Output>)
    requires IsRect(g, w)
    ensures r.Ok? ==> r.value.Tidied? || r.value.Resampled?
    ensures r.Ok? ==> (r.value.Resampled? <==> Given(freq))
    ensures r.Ok? ==> r.value.data.TSeries? && r.value.data.freq == "M"
    ensures r.Ok? <==> SeriesName(g, w, name).Ok? && MonthYearBlock(g, w).Ok?
    ensures r.Ok? ==> r.value == TidyBlock(MonthYearBlock(g, w).value, "M", SeriesName(g, w, name).value, freq, func)
  {
    var varName :- SeriesName(g, w, name);
    var b :- MonthYearBlock(g, w);
    Ok(TidyBlock(b, "M", varName, freq, func))
  }

  /** The layout of a month-by-year result cut at the "Enero" row `h`: the
      start label comes from the row above "Enero", or two rows above when
      that row's label contains "Total"; month `i` of year column `j` is
      period `j * months + i`, kept exactly when the cell is not missing. */
  predicate MonthYearAligned(g: Rows, w: nat, h: nat, d: Tidy, i: nat, j: nat)
    requires IsRect(g, w) && w >= 1 && h < |g|
  {
    w >= 2 && d.TSeries? &&
    (h >= 2 && Contains(CellText(g[h - 1][0]), "Total") ==> g[h - 2][1].Val? && d.start == g[h - 2][1].text + "/01") &&
    (h >= 1 && !Contains(CellText(g[h - 1][0]), "Total") ==> g[h - 1][1].Val? && d.start == g[h - 1][1].text + "/01") &&
    (forall a :: 0 <= a < |d.obs| ==> d.obs[a].t < (|g| - h) * (w - 1)) &&
    (h + i < |g| && j < w - 1 ==>
      (Obs(ColumnMajor(i, j, |g| - h), FixCommas(g[h + i][j + 1])) in d.obs <==> g[h + i][j + 1] != Missing))
  }

  /** A month-by-year result is laid out column by column from its "Enero" row. */
  lemma ReadMonthYearLayout(g: Rows, w: nat, name: string, freq: Option<string>, func: Option<string>, i: nat, j: nat)
    requires IsRect(g, w) && ReadMonthYear(g, w, name, freq, func).Ok?
    ensures w >= 2 && HeaderRow(g, w, 0, Literal("Enero")).Ok?
    ensures MonthYearAligned(g, w, HeaderRow(g, w, 0, Literal("Enero")).value, ReadMonthYear(g, w, name, freq, func).value.data, i, j)
  {
    var h := HeaderRow(g, w, 0, Literal("Enero")).value;
    var b := MonthYearFrom(g, w, h).value;
    var out := ReadMonthYear(g, w, name, freq, func).value;
    assert out == TidyBlock(b, "M", SeriesName(g, w, name).value, freq, func);
    MonthYearOutput(g, w, h, b, out, SeriesName(g, w, name).value, freq, func, i, j);
  }

  /** `ReadMonthYearLayout` for a given "Enero" row `h`. */
  lemma MonthYearOutput(g: Rows, w: nat, h: nat, b: Block, out: Output, name: string, freq: Option<string>, func: Option<string>, i: nat, j: nat)
    requires IsRect(g, w) && w >= 1 && h < |g| && MonthYearFrom(g, w, h) == Ok(b)
    requires out == TidyBlock(b, "M", name, freq, func)
    ensures MonthYearAligned(g, w, h, out.data, i, j)
  {
    MonthYearFromLayout(g, w, h, i, j);
    BlockObs(b, "M", name, freq, func, ColumnMajor(i, j, |g| - h), (|g| - h) * (w - 1));
  }

  // ---------------------------------------------------------------------
  // readDayYear
  // ---------------------------------------------------------------------

  /** `int(year0)` of a raw cell; a missing value or a non-numeric text raises
      `ValueError`. */
  function CellInt(c: Cell): (r: Result<int>)
    ensures r.Ok? <==> c.Val? && ParseInt(c.text).Some?
    ensures r.Ok? ==> r.value == ParseInt(c.text).value
    ensures r.Err? ==> r.error == ValueError
  {
    if c.Val? && ParseInt(c.text).Some? then Ok(ParseInt(c.text).value) else Err(ValueError)
  }

  /** The cut from the "1 Ene" row `h` of a day-by-year chart: the first year is
      the `V1` cell just above it, the years of the columns are consecutive from
      it, row 59 of every non-leap year is removed, and the columns are read one
      after the other. Setting row 59 needs at least 60 data rows. */
  function DayYearFrom(g: Rows, w: nat, h: nat): (r: Result<Block>)
    requires IsRect(g, w) && w >= 1 && h < |g|
    ensures w < 2 ==> r == Err(IndexError)
    ensures w >= 2 && CellInt(g[PyIndex(|g|, h - 1).value][1]).Err? ==> r == Err(ValueError)
    ensures r.Ok? ==> |g| - h > Feb29Row
  {
    var year0 :- CellAt(g, w, h - 1, 1);
    var y0 :- CellInt(year0);
    var f := DataBlock(g[h..], w);
    if |f.index| <= Feb29Row then Err(IndexError)
    else
      var start :- MonthlyStart(year0);
      Ok(Block(start, DayYearCells(f, YearsFrom(y0, w - 1))))
  }

  /** The cell of calendar day `dt` in a day-by-year body whose first column
      is year `y0`: row `ChartRow(dt)`, column of its year (missing when the
      body has no such cell). */
  function DayCell(body: Rows, y0: int, dt: Date): Cell {
    var j := dt.year - y0;
    if ChartRow(dt) < |body| && 0 <= j < |body[ChartRow(dt)]| then body[ChartRow(dt)][j] else Missing
  }

  /** With the full 366 data rows, value `k` of the cut is the cell of the
      `k`-th day from 1 January of the first year, and that cell lies inside
      the body. */
  lemma DayYearFromDays(g: Rows, w: nat, h: nat)
    requires IsRect(g, w) && w >= 1 && h < |g| && DayYearFrom(g, w, h).Ok?
    ensures var year0 := g[PyIndex(|g|, h - 1).value][1];
      var b := DayYearFrom(g, w, h).value;
      w >= 2 && year0.Val? && ParseInt(year0.text).Some? && b.start == year0.text + "/01" &&
      var y0 := ParseInt(year0.text).value;
      var body := DropLabels(g[h..], w);
      var days := Days(y0, w - 1);
      (|body| == DayRows && NoMarkers(body) ==>
        |b.values| == |days| &&
        forall k :: 0 <= k < |days| ==>
          0 <= days[k].year - y0 < w - 1 && ChartRow(days[k]) < DayRows &&
          b.values[k] == DayCell(body, y0, days[k]))
  {
    var year0 := g[PyIndex(|g|, h - 1).value][1];
    var y0 := ParseInt(year0.text).value;
    var f := DataBlock(g[h..], w);
    assert DayYearFrom(g, w, h).value.values == DayYearCells(f, YearsFrom(y0, w - 1));
    if |f.cells| == DayRows && NoMarkers(f.cells) {
      DayYearConsecutive(f, y0);
    }
  }

  /** `readDayYear` on one chart, up to `tidy`: the data block starts at the
      first row whose label starts with "1 Ene". */
  function DayYearBlock(g: Rows, w: nat): (r: Result<Block>)
    requires IsRect(g, w)
    ensures w == 0 ==> r == Err(KeyError)
    ensures w >= 1 ==>
      (HeaderRow(g, w, 0, Literal("1 Ene")).Err? ==> r == Err(ValueError)) &&
      (HeaderRow(g, w, 0, Literal("1 Ene")).Ok? ==> r == DayYearFrom(g, w, HeaderRow(g, w, 0, Literal("1 Ene")).value))
  {
    if w == 0 then Err(KeyError)
    else
      var h :- HeaderRow(g, w, 0, Literal("1 Ene"));
      DayYearFrom(g, w, h)
  }

  function ReadDayYear(g: Rows, w: nat, name: string, freq: Option<string>, func: Option<string>): (r: Result<Output>)
    requires IsRect(g, w)
    ensures r.Ok? ==> r.value.Tidied? || r.value.Resampled?
    ensures r.Ok? ==> (r.value.Resampled? <==> Given(freq))
    ensures r.Ok? ==> r.value.data.TSeries? && r.value.data.freq == "D"
    ensures r.Ok? <==> SeriesName(g, w, name).Ok? && DayYearBlock(g, w).Ok?
    ensures r.Ok? ==> r.value == TidyBlock(DayYearBlock(g, w).value, "D", SeriesName(g, w, name).value, freq, func)
  {
    var varName :- SeriesName(g, w, name);
    var b :- DayYearBlock(g, w);
    Ok(TidyBlock(b, "D", varName, freq, func))
  }

  /** The calendar alignment of a day-by-year series `d` cut from the
      "1 Ene" row `h`: it starts at the year label above that row, and when the
      data block has the full 366 rows, period `t` is the `t`-th day from
      1 January of the first year, every kept value is the chart cell of that
      day, and every non-missing day cell is kept. */
  predicate DayAligned(g: Rows, w: nat, h: nat, d: Tidy)
    requires IsRect(g, w) && w >= 1 && h < |g|
  {
    w >= 2 && d.TSeries? &&
    var year0 := g[PyIndex(|g|, h - 1).value][1];
    year0.Val? && ParseInt(year0.text).Some? && d.start == year0.text + "/01" &&
    var y0 := ParseInt(year0.text).value;
    var body := DropLabels(g[h..], w);
    var days := Days(y0, w - 1);
    (|body| == DayRows && NoMarkers(body) ==>
      (forall a :: 0 <= a < |d.obs| ==>
        d.obs[a].t < |days| && d.obs[a].v == FixCommas(DayCell(body, y0, days[d.obs[a].t]))) &&
      (forall k :: 0 <= k < |days| ==>
        (Obs(k, FixCommas(DayCell(body, y0, days[k]))) in d.obs <==> DayCell(body, y0, days[k]) != Missing)))
  }

  /** A day-by-year result is calendar-aligned from its "1 Ene" row. */
  lemma ReadDayYearDays(g: Rows, w: nat, name: string, freq: Option<string>, func: Option<string>)
    requires IsRect(g, w) && ReadDayYear(g, w, name, freq, func).Ok?
    ensures w >= 2 && HeaderRow(g, w, 0, Literal("1 Ene")).Ok?
    ensures DayAligned(g, w, HeaderRow(g, w, 0, Literal("1 Ene")).value, ReadDayYear(g, w, name, freq, func).value.data)
  {
    var h := HeaderRow(g, w, 0, Literal("1 Ene")).value;
    var b := DayYearFrom(g, w, h).value;
    var out := ReadDayYear(g, w, name, freq, func).value;
    assert out == TidyBlock(b, "D", SeriesName(g, w, name).value, freq, func);
    DayYearOutput(g, w, h, b, out, SeriesName(g, w, name).value, freq, func);
  }

  /** `ReadDayYearDays` for a given "1 Ene" row `h`. */
  lemma DayYearOutput(g: Rows, w: nat, h: nat, b: Block, out: Output, name: string, freq: Option<string>, func: Option<string>)
    requires IsRect(g, w) && w >= 1 && h < |g| && DayYearFrom(g, w, h) == Ok(b)
    requires out == TidyBlock(b, "D", name, freq, func)
    ensures DayAligned(g, w, h, out.data)
  {
    DayYearFromDays(g, w, h);
    var year0 := g[PyIndex(|g|, h - 1).value][1];
    var y0 := ParseInt(year0.text).value;
    var body := DropLabels(g[h..], w);
    var days := Days(y0, w - 1);
    if |body| == DayRows && NoMarkers(body) {
      forall k | 0 <= k < |days|
        ensures Obs(k, FixCommas(DayCell(body, y0, days[k]))) in out.data.obs <==> DayCell(body, y0, days[k]) != Missing
      {
        BlockObs(b, "D", name, freq, func, k, |b.values|);
      }
    }
  }

  // ---------------------------------------------------------------------
  // readTitle, findIndicators
  // ---------------------------------------------------------------------

  /** `set(series)`: the chart numbers without repetitions (in order of first
      appearance; Python's set order is unspecified). */
  method Dedup(xs: seq<int>) returns (r: seq<int>)
    ensures Distinct(r)
    ensures forall x :: x in r <==> x in xs
    ensures |r| <= |xs|
  {
    r := [];
    var i := 0;
    while i < |xs|
      invariant 0 <= i <= |xs|
      invariant Distinct(r)
      invariant forall x :: x in r <==> x in xs[..i]
      invariant |r| <= i
    {
      if xs[i] !in r {
        r := r + [xs[i]];
      }
      assert xs[..i + 1] == xs[..i] + [xs[i]];
      i := i + 1;
    }
    assert xs[..i] == xs;
  }

  /** The argument of `readTitle`: one chart number, or several. */
  datatype TitleArg = OneTitle(chart: int) | ManyTitles(charts: seq<int>)

  /** The charts whose titles `readTitle` downloads: the single chart, or each
      distinct chart of the list once. */
  method TitleRequests(arg: TitleArg) returns (r: seq<int>)
    ensures arg.OneTitle? ==> r == [arg.chart]
    ensures arg.ManyTitles? ==> Distinct(r) && forall x :: x in r <==> x in arg.charts
  {
    match arg
    case OneTitle(c) => r := [c];
    case ManyTitles(cs) => r := Dedup(cs);
  }

  /** A row of the indicator catalogue. */
  datatype Indicator = Indicator(chart: int, title: string, subtitle: string, reader: string)

  /** Whether a title matches the search terms: all of them, or at least one. */
  predicate TermsMatch(title: string, terms: seq<string>, matchAll: bool) {
    if matchAll then forall k :: 0 <= k < |terms| ==> ContainsIgnoreCase(title, terms[k])
    else exists k :: 0 <= k < |terms| && ContainsIgnoreCase(title, terms[k])
  }

  /** The row filter of a title search. */
  function Matcher(terms: seq<string>, matchAll: bool): (p: Indicator -> bool)
    ensures forall e :: p(e) <==> TermsMatch(e.title, terms, matchAll)
  {
    (e: Indicator) => TermsMatch(e.title, terms, matchAll)
  }

  /** `findIndicators`: the catalogue rows whose title contains all (or any) of
      the whitespace-separated terms, ignoring case. An expression without
      terms leaves nothing to concatenate (`ValueError`). */
  function FindIndicators(catalogue: seq<Indicator>, expression: string, matchAll: bool): (r: Result<seq<Indicator>>)
    ensures r.Err? <==> |Words(expression)| == 0
    ensures r.Err? ==> r.error == ValueError
    ensures r.Ok? ==> forall i :: 0 <= i < |r.value| ==>
      r.value[i] in catalogue && TermsMatch(r.value[i].title, Words(expression), matchAll)
    ensures r.Ok? ==> forall i :: 0 <= i < |catalogue| ==>
      (TermsMatch(catalogue[i].title, Words(expression), matchAll) ==> catalogue[i] in r.value)
    ensures r.Ok? ==> SelectsInOrder(r.value, catalogue, Matcher(Words(expression), matchAll))
  {
    var terms := Words(expression);
    if |terms| == 0 then Err(ValueError)
    else
      FilterInOrder(catalogue, Matcher(terms, matchAll));
      Ok(Filter(catalogue, Matcher(terms, matchAll)))
  }

  /** With a single term, "all" and "any" select the same rows. */
  lemma FindIndicatorsOneTerm(catalogue: seq<Indicator>, term: string)
    requires |term| > 0 && forall i :: 0 <= i < |term| ==> !IsSpace(term[i])
    ensures FindIndicators(catalogue, term, true) == FindIndicators(catalogue, term, false)
  {
    WordsOfWord(term);
    var terms := [term];
    forall i | 0 <= i < |catalogue|
      ensures TermsMatch(catalogue[i].title, terms, true) == TermsMatch(catalogue[i].title, terms, false)
    {
      assert TermsMatch(catalogue[i].title, terms, true) <==> ContainsIgnoreCase(catalogue[i].title, terms[0]);
    }
    FilterCongruent(catalogue, Matcher(terms, true), Matcher(terms, false));
  }

  /** Every row matching all terms also matches some term. */
  lemma FindIndicatorsAllWithinAny(catalogue: seq<Indicator>, expression: string, i: nat)
    requires var r := FindIndicators(catalogue, expression, true); r.Ok? && i < |r.value|
    ensures var any := FindIndicators(catalogue, expression, false);
      any.Ok? && FindIndicators(catalogue, expression, true).value[i] in any.value
  {
    var e := FindIndicators(catalogue, expression, true).value[i];
    var terms := Words(expression);
    assert ContainsIgnoreCase(e.title, terms[0]);
    assert TermsMatch(e.title, terms, false);
    var k :| 0 <= k < |catalogue| && catalogue[k] == e;
  }
}
