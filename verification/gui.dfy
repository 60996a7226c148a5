/**
 The browser front end's callbacks that do not draw: adding a blank row to
 the table of indicators (`add_row`), the message that reports a catalogue
 search (`mostrar_códigos`), and the text of the `SW(...)` call that
 reproduces a download (`display_output`).

 The download itself, the figure and the tables are not modelled; a table
 row is a dict from column id to cell text, and the option widgets give a
 text or `None`.
 */
module Gui {
  import opened Common
  import Search

  // ---------------------------------------------------------------------
  // The table of indicators
  // ---------------------------------------------------------------------

  /** A table row: a dict from column id to cell text. */
  type Row = seq<(string, string)>

  /** The ids of the columns of the table of indicators. */
  const NameColumn: string := "nombre"
  const CodeColumn: string := "código"
  const Columns: seq<string> := [NameColumn, CodeColumn]

  /** `{c['id']: '' for c in columns}`. */
  function BlankRow(columns: seq<string>): Row {
    PutAll([], Blank(columns))
  }

  /** The blank row has exactly the column ids as keys, each once, in column
      order, and every cell empty. */
  lemma BlankRowFacts(columns: seq<string>)
    ensures var row := BlankRow(columns);
      Distinct(Keys(row)) &&
      (forall i :: 0 <= i < |columns| ==> columns[i] in Keys(row)) &&
      (forall j :: 0 <= j < |row| ==> row[j].0 in columns && row[j].1 == "")
  {
    var pairs := Blank(columns);
    var row := BlankRow(columns);
    PutAllFromEmpty(pairs);
    forall j | 0 <= j < |row|
      ensures row[j].0 in columns && row[j].1 == ""
    {
      var i :| 0 <= i < |pairs| && Keys(pairs)[i] == row[j].0;
      assert row[j].1 == LastValue(pairs, row[j].0);
      LastValueBlank(pairs, row[j].0);
    }
    forall i | 0 <= i < |columns|
      ensures columns[i] in Keys(row)
    {
      assert pairs[i].0 in Keys(row);
    }
  }

  lemma {:induction false} LastValueBlank(pairs: seq<(string, string)>, k: string)
    requires k in Keys(pairs)
    requires forall i :: 0 <= i < |pairs| ==> pairs[i].1 == ""
    ensures LastValue(pairs, k) == ""
    decreases |pairs|
  {
    var n := |pairs| - 1;
    if pairs[n].0 != k {
      var i :| 0 <= i < |pairs| && Keys(pairs)[i] == k;
      assert Keys(pairs[..n])[i] == k;
      LastValueBlank(pairs[..n], k);
    }
  }

  /** `add_row`: a click appends one blank row and leaves the others as
      they are; before the first click the rows are returned unchanged. */
  function AddRow(nClicks: int, rows: seq<Row>, columns: seq<string>): (r: seq<Row>)
    ensures nClicks <= 0 ==> r == rows
    ensures nClicks > 0 ==> |r| == |rows| + 1 && r[..|rows|] == rows && r[|rows|] == BlankRow(columns)
  {
    if nClicks > 0 then rows + [BlankRow(columns)] else rows
  }

  /** `row[k]`, a `KeyError` when the row has no such column. */
  function Cell(row: Row, k: string): (r: Result<string>)
    ensures r.Ok? <==> k in Keys(row)
    ensures r.Ok? ==> exists i :: 0 <= i < |row| && row[i] == (k, r.value)
  {
    if k in Keys(row) then
      LastValueFound(row, k);
      Ok(LastValue(row, k))
    else Err(KeyError)
  }

  lemma {:induction false} LastValueFound(ps: seq<(string, string)>, k: string)
    requires k in Keys(ps)
    ensures exists i :: 0 <= i < |ps| && ps[i] == (k, LastValue(ps, k))
    decreases |ps|
  {
    var n := |ps| - 1;
    if ps[n].0 == k {
      assert ps[n] == (k, LastValue(ps, k));
    } else {
      var pre := ps[..n];
      var i :| 0 <= i < |ps| && Keys(ps)[i] == k;
      assert i < n && Keys(pre)[i] == k;
      LastValueFound(pre, k);
      assert LastValue(ps, k) == LastValue(pre, k);
      var j :| 0 <= j < n && pre[j] == (k, LastValue(pre, k));
      assert ps[j] == pre[j];
    }
  }

  /** The `(item['nombre'], item['código'])` pairs of the rows, in row order. */
  function NamedCodes(rows: seq<Row>): (r: Result<seq<(string, string)>>)
    ensures r.Ok? <==> forall i :: 0 <= i < |rows| ==> NameColumn in Keys(rows[i]) && CodeColumn in Keys(rows[i])
    ensures r.Ok? ==> |r.value| == |rows| && forall i :: 0 <= i < |rows| ==>
      r.value[i] == (Cell(rows[i], NameColumn).value, Cell(rows[i], CodeColumn).value)
  {
    if |rows| == 0 then Ok([])
    else
      var name :- Cell(rows[0], NameColumn);
      var code :- Cell(rows[0], CodeColumn);
      var rest :- NamedCodes(rows[1..]);
      Ok([(name, code)] + rest)
  }

  /** `indicadores`: the dict from name to code, where a repeated name keeps
      its first position and takes its last code. */
  function Indicadores(rows: seq<Row>): Result<seq<(string, string)>> {
    var pairs :- NamedCodes(rows);
    Ok(PutAll([], pairs))
  }

  /** The dict of indicators has each name once, in order of first use, with
      the code of its last row. */
  lemma IndicadoresDict(rows: seq<Row>)
    requires Indicadores(rows).Ok?
    ensures var d := Indicadores(rows).value;
      var pairs := NamedCodes(rows).value;
      Distinct(Keys(d)) &&
      (forall i :: 0 <= i < |rows| ==> pairs[i].0 in Keys(d)) &&
      (forall j :: 0 <= j < |d| ==> d[j].0 in Keys(pairs) && d[j].1 == LastValue(pairs, d[j].0))
  {
    var pairs := NamedCodes(rows).value;
    var d := Indicadores(rows).value;
    PutAllFromEmpty(pairs);
    forall i | 0 <= i < |rows|
      ensures pairs[i].0 in Keys(d)
    {
      assert pairs[i].0 == Keys(pairs)[i];
    }
  }

  // ---------------------------------------------------------------------
  // The options of a download
  // ---------------------------------------------------------------------

  /** The dropdown values that stand for "not given". */
  const NoFreq: string := "O"
  const NoFillna: string := "no"
  const NoFunc: string := "None"

  /** A widget value, with the value standing for "not given" read as `None`. */
  function Sentinel(v: Option<string>, none: string): (r: Option<string>)
    ensures r.None? <==> v.None? || v.value == none
    ensures r.Some? ==> r == v
  {
    if v == Some(none) then None else v
  }

  /** The options of `SW(...)` as the widgets give them. */
  datatype Options = Options(fechaInicio: Option<string>, fechaFinal: Option<string>,
                             freq: Option<string>, func: Option<string>, fillna: Option<string>)

  /** The sentinels of `freq`, `fillna` and `func` read as `None`; the dates
      are passed on as they are. */
  function Interpret(raw: Options): (o: Options)
    ensures o.fechaInicio == raw.fechaInicio && o.fechaFinal == raw.fechaFinal
    ensures o.freq == Sentinel(raw.freq, NoFreq)
    ensures o.fillna == Sentinel(raw.fillna, NoFillna)
    ensures o.func == Sentinel(raw.func, NoFunc)
  {
    Options(raw.fechaInicio, raw.fechaFinal, Sentinel(raw.freq, NoFreq),
            Sentinel(raw.func, NoFunc), Sentinel(raw.fillna, NoFillna))
  }

  /** A sentinel is never shown as an option of the command. */
  lemma SentinelsHidden(raw: Options)
    ensures !Given(Interpret(raw).freq) <==> !Given(raw.freq) || raw.freq.value == NoFreq
    ensures !Given(Interpret(raw).fillna) <==> !Given(raw.fillna) || raw.fillna.value == NoFillna
    ensures !Given(Interpret(raw).func) <==> !Given(raw.func) || raw.func.value == NoFunc
  {
  }

  // ---------------------------------------------------------------------
  // The text of the command
  // ---------------------------------------------------------------------

  /** The keyword arguments an option can add. */
  datatype Keyword = FechaInicio | FechaFinal | Func | Freq | Fillna

  function KeywordText(k: Keyword): string {
    match k
    case FechaInicio => "FechaInicio"
    case FechaFinal => "FechaFinal"
    case Func => "func"
    case Freq => "freq"
    case Fillna => "fillna"
  }

  /** `f"{name}='{value}'"`. */
  function Quoted(k: Keyword, value: string): string {
    KeywordText(k) + "='" + value + "'"
  }

  /** The keyword argument an option adds, if it is given. */
  function Part(name: Keyword, v: Option<string>): (r: seq<string>)
    ensures |r| <= 1
    ensures |r| == 1 <==> Given(v)
    ensures Given(v) ==> r[0] == KeywordText(name) + "='" + v.value + "'"
  {
    if Given(v) then [Quoted(name, v.value)] else []
  }

  /** The given options as keyword arguments, in the order FechaInicio,
      FechaFinal, func, freq, fillna. */
  function OptionParts(o: Options): seq<string> {
    LeadingParts(o) + Part(Fillna, o.fillna)
  }

  /** The options written with a trailing separator. */
  function LeadingParts(o: Options): seq<string> {
    Part(FechaInicio, o.fechaInicio) + Part(FechaFinal, o.fechaFinal) + Part(Func, o.func) + Part(Freq, o.freq)
  }

  /** `f'{key}={val}'` for each indicator. */
  function PairTexts(d: seq<(string, string)>): (r: seq<string>)
    ensures |r| == |d| && forall i :: 0 <= i < |d| ==> r[i] == d[i].0 + "=" + d[i].1
  {
    seq(|d|, i requires 0 <= i < |d| => d[i].0 + "=" + d[i].1)
  }

  /** `'' in indicadores.values()`: some row has no code yet. */
  predicate Pending(d: seq<(string, string)>) {
    exists i :: 0 <= i < |d| && d[i].1 == ""
  }

  /** One option clause as written: the keyword argument and a separator. */
  function Clause(name: Keyword, v: Option<string>): string {
    if Given(v) then Quoted(name, v.value) + ", " else ""
  }

  /** `fillna` if given. Both branches of the source's last clause end with
      `")"`, which `Untrimmed` adds once. */
  function FillnaText(fillna: Option<string>): string {
    if Given(fillna) then Quoted(Fillna, fillna.value) else ""
  }

  /** The text before the closing `")"`. */
  function Body(d: seq<(string, string)>, o: Options): string {
    "SW(" + Join(PairTexts(d), ", ") + ", " + Clauses(o) + FillnaText(o.fillna)
  }

  /** The clauses of FechaInicio, FechaFinal, func and freq, in that order. */
  function Clauses(o: Options): string {
    Clause(FechaInicio, o.fechaInicio) + Clause(FechaFinal, o.fechaFinal) + Clause(Func, o.func) + Clause(Freq, o.freq)
  }

  /** The text before the trailing separator is trimmed. */
  function Untrimmed(d: seq<(string, string)>, o: Options): string {
    Body(d, o) + ")"
  }

  /** A final `", )"` becomes `")"`. */
  function TrimSeparator(s: string): string {
    if |s| >= 3 && s[|s| - 3..] == ", )" then s[..|s| - 3] + ")" else s
  }

  /** `busqueda_str` as written. */
  function CommandAsWritten(d: seq<(string, string)>, o: Options): string {
    if Pending(d) then "SW()" else TrimSeparator(Untrimmed(d, o))
  }

  /** `busqueda_str` as intended: the indicators and the given options,
      separated by commas; a pending code gives the bare `SW()`, and the
      command never ends in `", )"` unless some code itself ends in `", "`. */
  function Command(d: seq<(string, string)>, o: Options): (r: string)
    ensures Pending(d) ==> r == "SW()"
    ensures (forall i :: 0 <= i < |d| ==> !IsSuffix(", ", d[i].1)) ==> !IsSuffix(", )", r)
  {
    if Pending(d) then BareClean(); "SW()"
    else CommandTextClean(d, o); "SW(" + Join(PairTexts(d) + OptionParts(o), ", ") + ")"
  }

  /** `p1 + sep + p2 + sep + ...`: every part followed by the separator. */
  function Terminated(parts: seq<string>, sep: string): (r: string)
    ensures r == if |parts| == 0 then "" else Join(parts, sep) + sep
  {
    if |parts| == 0 then ""
    else
      var rest := Terminated(parts[1..], sep);
      assert |parts| > 1 ==> parts[0] + sep + rest == parts[0] + sep + Join(parts[1..], sep) + sep;
      parts[0] + sep + rest
  }

  lemma {:induction false} TerminatedAppend(a: seq<string>, b: seq<string>, sep: string)
    ensures Terminated(a + b, sep) == Terminated(a, sep) + Terminated(b, sep)
    decreases |a|
  {
    if |a| == 0 {
      assert a + b == b;
    } else {
      var ab := a + b;
      assert ab[0] == a[0];
      assert ab[1..] == a[1..] + b;
      TerminatedAppend(a[1..], b, sep);
      Regroup(a[0], sep, Terminated(a[1..], sep), Terminated(b, sep));
    }
  }

  lemma {:induction false} JoinAppend(a: seq<string>, b: seq<string>, sep: string)
    requires |a| > 0 && |b| > 0
    ensures Join(a + b, sep) == Join(a, sep) + sep + Join(b, sep)
    decreases |a|
  {
    if |a| > 1 {
      assert (a + b)[1..] == a[1..] + b;
      JoinAppend(a[1..], b, sep);
    } else {
      assert (a + b)[1..] == b;
    }
  }

  lemma ClauseTerminated(name: Keyword, v: Option<string>)
    ensures Clause(name, v) == Terminated(Part(name, v), ", ")
  {
  }

  /** The four option clauses are the leading parts, each followed by a separator. */
  lemma ClausesTerminated(o: Options)
    ensures Clauses(o) == Terminated(LeadingParts(o), ", ")
  {
    var a := Part(FechaInicio, o.fechaInicio);
    var b := Part(FechaFinal, o.fechaFinal);
    var c := Part(Func, o.func);
    var e := Part(Freq, o.freq);
    ClauseTerminated(FechaInicio, o.fechaInicio);
    ClauseTerminated(FechaFinal, o.fechaFinal);
    ClauseTerminated(Func, o.func);
    ClauseTerminated(Freq, o.freq);
    TerminatedAppend(a, b, ", ");
    TerminatedAppend(a + b, c, ", ");
    TerminatedAppend(a + b + c, e, ", ");
  }

  /** Trimming removes a separator before the closing `")"` and nothing else. */
  lemma TrimClose(y: string)
    ensures TrimSeparator(y + ")") == if IsSuffix(", ", y) then y[..|y| - 2] + ")" else y + ")"
  {
    var s := y + ")";
    if |y| >= 2 {
      assert s[|s| - 3..] == y[|y| - 2..] + ")";
      assert s[..|s| - 3] == y[..|y| - 2];
      if s[|s| - 3..] == ", )" {
        assert y[|y| - 2..] == s[|s| - 3..][..2];
      }
    }
  }

  /** A text that ends in a separator is the text before it and the separator. */
  lemma SepEnd(a: string)
    ensures IsSuffix(", ", a + ", ") && (a + ", ")[..|a|] == a
  {
  }

  lemma Regroup(a: string, b: string, c: string, e: string)
    ensures a + b + c + e == a + (b + (c + e))
  {
  }

  /** The options after the indicators: nothing, or a separator and the
      given options. */
  function Rest(opts: seq<string>): string {
    if |opts| == 0 then "" else ", " + Join(opts, ", ")
  }

  /** The text before the closing: the indicators, a separator, the leading
      options each with a separator, and `fillna`. */
  lemma BodyParts(d: seq<(string, string)>, o: Options)
    ensures Body(d, o) ==
      "SW(" + Join(PairTexts(d), ", ") + ", " + Terminated(LeadingParts(o), ", ") + FillnaText(o.fillna)
  {
    ClausesTerminated(o);
  }

  /** A last part after the terminated leading parts joins them. */
  lemma TerminatedThen(lead: seq<string>, f: string)
    ensures Terminated(lead, ", ") + f == Join(lead + [f], ", ")
  {
    if |lead| > 0 {
      JoinAppend(lead, [f], ", ");
    } else {
      assert lead + [f] == [f];
    }
  }

  /** With `fillna` given, nothing is trimmed. */
  lemma TrimmedFillna(d: seq<(string, string)>, o: Options)
    requires Given(o.fillna)
    ensures TrimSeparator(Untrimmed(d, o)) == "SW(" + Join(PairTexts(d), ", ") + Rest(OptionParts(o)) + ")"
  {
    var x := "SW(" + Join(PairTexts(d), ", ");
    var lead := LeadingParts(o);
    var t := Terminated(lead, ", ");
    var f := Quoted(Fillna, o.fillna.value);
    var y := Body(d, o);
    BodyParts(d, o);
    assert y == x + ", " + t + f;
    assert OptionParts(o) == lead + [f];
    TerminatedThen(lead, f);
    Regroup(x, ", ", t, f);
    assert y == x + Rest(OptionParts(o));
    assert y[|y| - 1] == f[|f| - 1];
    TrimClose(y);
  }

  /** Without `fillna`, the separator after the last argument is trimmed. */
  lemma TrimmedNoFillna(d: seq<(string, string)>, o: Options)
    requires !Given(o.fillna)
    ensures TrimSeparator(Untrimmed(d, o)) == "SW(" + Join(PairTexts(d), ", ") + Rest(OptionParts(o)) + ")"
  {
    var x := "SW(" + Join(PairTexts(d), ", ");
    var lead := LeadingParts(o);
    BodyParts(d, o);
    assert FillnaText(o.fillna) == "";
    assert OptionParts(o) == lead;
    assert Untrimmed(d, o) == x + ", " + Terminated(lead, ", ") + "" + ")";
    TrimTerminated(x, lead);
  }

  /** Trimming after options that each end in a separator. */
  lemma TrimTerminated(x: string, lead: seq<string>)
    ensures TrimSeparator(x + ", " + Terminated(lead, ", ") + "" + ")") == x + Rest(lead) + ")"
  {
    var y := x + ", " + Terminated(lead, ", ") + "";
    var before := x + Rest(lead);
    if |lead| == 0 {
      assert y == before + ", ";
    } else {
      var j := Join(lead, ", ");
      assert y == x + ", " + (j + ", ");
      assert y == before + ", ";
    }
    SepEnd(before);
    TrimClose(y);
  }

  /** Trimming the untrimmed text leaves the indicators and then the options. */
  lemma TrimmedShape(d: seq<(string, string)>, o: Options)
    ensures TrimSeparator(Untrimmed(d, o)) == "SW(" + (Join(PairTexts(d), ", ") + Rest(OptionParts(o))) + ")"
  {
    var a, b := Join(PairTexts(d), ", "), Rest(OptionParts(o));
    assert "SW(" + a + b + ")" == "SW(" + (a + b) + ")";
    if Given(o.fillna) {
      TrimmedFillna(d, o);
    } else {
      TrimmedNoFillna(d, o);
    }
  }

  /** The options after a non-empty joined list join it. */
  lemma JoinRest(p: seq<string>, opts: seq<string>)
    requires |p| > 0
    ensures Join(p, ", ") + Rest(opts) == Join(p + opts, ", ")
  {
    if |opts| > 0 {
      JoinAppend(p, opts, ", ");
    } else {
      assert p + opts == p;
    }
  }

  /** With some indicator listed, the command as written is the intended one. */
  lemma ShapeWithPairs(d: seq<(string, string)>, o: Options)
    requires !Pending(d) && |d| > 0
    ensures CommandAsWritten(d, o) == Command(d, o)
  {
    var p := PairTexts(d);
    var opts := OptionParts(o);
    TrimmedShape(d, o);
    JoinRest(p, opts);
    assert CommandAsWritten(d, o) == TrimSeparator(Untrimmed(d, o));
    assert Command(d, o) == "SW(" + Join(p + opts, ", ") + ")";
  }

  /** With no indicator and no option, both commands are `SW()`. */
  lemma ShapeBare(o: Options)
    requires |OptionParts(o)| == 0
    ensures CommandAsWritten([], o) == Command([], o) == "SW()"
  {
    var none: seq<(string, string)> := [];
    assert !Pending(none);
    TrimmedShape(none, o);
    assert Join(PairTexts(none), ", ") + Rest(OptionParts(o)) == "";
    assert PairTexts(none) + OptionParts(o) == [];
  }

  /** With no indicator and some option, the command as written opens with a
      stray separator. */
  lemma ShapeStray(o: Options)
    requires |OptionParts(o)| > 0
    ensures CommandAsWritten([], o) == "SW(, " + Join(OptionParts(o), ", ") + ")"
  {
    var none: seq<(string, string)> := [];
    var j := Join(OptionParts(o), ", ");
    assert !Pending(none);
    assert CommandAsWritten(none, o) == TrimSeparator(Untrimmed(none, o));
    TrimmedShape(none, o);
    assert PairTexts(none) == [];
    assert Rest(OptionParts(o)) == ", " + j;
    StrayText(j);
  }

  lemma StrayText(j: string)
    ensures "SW(" + (Join([], ", ") + (", " + j)) + ")" == "SW(, " + j + ")"
  {
    assert Join([], ", ") == "";
  }

  /** The command as written: with at least one indicator, or no option, it
      is the intended command; with no indicator and some option it begins
      `"SW(, "`. */
  lemma CommandShape(d: seq<(string, string)>, o: Options)
    ensures CommandAsWritten(d, o) ==
      if !Pending(d) && |d| == 0 && |OptionParts(o)| > 0 then "SW(, " + Join(OptionParts(o), ", ") + ")"
      else Command(d, o)
  {
    if !Pending(d) {
      if |d| > 0 {
        ShapeWithPairs(d, o);
      } else {
        assert d == [];
        if |OptionParts(o)| > 0 {
          ShapeStray(o);
        } else {
          ShapeBare(o);
        }
      }
    }
  }

  /** Both agree whenever some indicator is listed or no option is given. */
  lemma CommandAgrees(d: seq<(string, string)>, o: Options)
    requires |d| > 0 || |OptionParts(o)| == 0
    ensures CommandAsWritten(d, o) == Command(d, o)
  {
    CommandShape(d, o);
  }

  /** With every row deleted and an aggregation chosen, the command as
      written opens with a stray separator. */
  lemma EmptyTableCommand()
    ensures CommandAsWritten([], Options(None, None, None, Some("sum"), None)) == "SW(, func='sum')"
    ensures Command([], Options(None, None, None, Some("sum"), None)) == "SW(func='sum')"
  {
    var o := Options(None, None, None, Some("sum"), None);
    var f := Quoted(Func, "sum");
    SumOnly();
    ShapeStray(o);
    var none: seq<(string, string)> := [];
    assert !Pending(none);
    assert PairTexts(none) + OptionParts(o) == [f];
    SumText();
  }

  /** The only option given is the aggregation `sum`. */
  lemma SumOnly()
    ensures OptionParts(Options(None, None, None, Some("sum"), None)) == [Quoted(Func, "sum")]
  {
    var o := Options(None, None, None, Some("sum"), None);
    assert LeadingParts(o) == [Quoted(Func, "sum")];
  }

  lemma SumText()
    ensures "SW(, " + Quoted(Func, "sum") + ")" == "SW(, func='sum')"
    ensures "SW(" + Quoted(Func, "sum") + ")" == "SW(func='sum')"
  {
    assert KeywordText(Func) == "func";
  }

  /** A pending code makes the command the bare `SW()`. */
  lemma PendingCommand(d: seq<(string, string)>, o: Options, i: nat)
    requires i < |d| && d[i].1 == ""
    ensures CommandAsWritten(d, o) == "SW()" && Command(d, o) == "SW()"
  {
  }

  /** Every part of a command is at least two characters long and does not
      end in a separator. */
  predicate CleanPart(s: string) {
    |s| >= 2 && !IsSuffix(", ", s)
  }

  lemma {:induction false} JoinEnds(parts: seq<string>, sep: string)
    requires |parts| > 0
    ensures IsSuffix(parts[|parts| - 1], Join(parts, sep))
    decreases |parts|
  {
    if |parts| > 1 {
      JoinEnds(parts[1..], sep);
      assert parts[1..][|parts| - 2] == parts[|parts| - 1];
    }
  }

  /** A text `pre + inner + ")"` ends in `", )"` only if `inner` ends in `", "`. */
  lemma ClosedClean(pre: string, inner: string, last: string)
    requires CleanPart(last) && IsSuffix(last, inner)
    ensures !IsSuffix(", )", pre + inner + ")")
  {
    var s := pre + inner + ")";
    var n := |inner|;
    var m := |last|;
    var a, b := last[m - 2], last[m - 1];
    assert last[m - 2..] == [a, b];
    assert a != ',' || b != ' ';
    assert s[|s| - 3] == inner[n - 2] == a;
    assert s[|s| - 2] == inner[n - 1] == b;
    assert s[|s| - 3..] == [a, b, ')'];
  }

  lemma BareClean()
    ensures !IsSuffix(", )", "SW()")
  {
    assert "SW()"[1] == 'W';
  }

  lemma PairClean(k: string, v: string)
    requires v != "" && !IsSuffix(", ", v)
    ensures CleanPart(k + "=" + v)
  {
    var s := k + "=" + v;
    if |v| == 1 {
      assert s[|s| - 2..] == ['=', v[0]];
    } else {
      assert s[|s| - 2..] == v[|v| - 2..];
    }
  }

  lemma QuotedClean(name: Keyword, value: string)
    ensures CleanPart(Quoted(name, value))
  {
    var s := Quoted(name, value);
    assert s[|s| - 1] == '\'';
  }

  lemma PartsClean(d: seq<(string, string)>, o: Options)
    requires !Pending(d)
    requires forall i :: 0 <= i < |d| ==> !IsSuffix(", ", d[i].1)
    ensures var ps := PairTexts(d) + OptionParts(o);
      forall i :: 0 <= i < |ps| ==> CleanPart(ps[i])
  {
    var ps := PairTexts(d) + OptionParts(o);
    var opts := OptionParts(o);
    forall i | 0 <= i < |ps|
      ensures CleanPart(ps[i])
    {
      if i < |d| {
        PairClean(d[i].0, d[i].1);
      } else {
        var j := i - |d|;
        assert ps[i] == opts[j];
        OptionPartQuoted(o, j);
        var name, value :| opts[j] == Quoted(name, value);
        QuotedClean(name, value);
      }
    }
  }

  lemma OptionPartQuoted(o: Options, j: nat)
    requires j < |OptionParts(o)|
    ensures exists name, value :: OptionParts(o)[j] == Quoted(name, value)
  {
    var a := Part(FechaInicio, o.fechaInicio);
    var b := Part(FechaFinal, o.fechaFinal);
    var c := Part(Func, o.func);
    var e := Part(Freq, o.freq);
    var f := Part(Fillna, o.fillna);
    var opts := OptionParts(o);
    assert opts == a + b + c + e + f;
    if j < |a| {
      assert opts[j] == a[j];
    } else if j < |a + b| {
      assert opts[j] == b[j - |a|];
    } else if j < |a + b + c| {
      assert opts[j] == c[j - |a + b|];
    } else if j < |a + b + c + e| {
      assert opts[j] == e[j - |a + b + c|];
    } else {
      assert opts[j] == f[j - |a + b + c + e|];
    }
  }

  /** The text of the corrected command ends in `", )"` only when some code
      ends in `", "`. */
  lemma CommandTextClean(d: seq<(string, string)>, o: Options)
    requires !Pending(d)
    ensures (forall i :: 0 <= i < |d| ==> !IsSuffix(", ", d[i].1)) ==>
      !IsSuffix(", )", "SW(" + Join(PairTexts(d) + OptionParts(o), ", ") + ")")
  {
    if forall i :: 0 <= i < |d| ==> !IsSuffix(", ", d[i].1) {
      var ps := PairTexts(d) + OptionParts(o);
      PartsClean(d, o);
      if |ps| == 0 {
        assert Join(ps, ", ") == "";
        BareClean();
      } else {
        JoinEnds(ps, ", ");
        ClosedClean("SW(", Join(ps, ", "), ps[|ps| - 1]);
      }
    }
  }

  /** The stray-separator command of an empty table does not end in `", )"` either. */
  lemma StrayClean(o: Options)
    requires |OptionParts(o)| > 0
    ensures !IsSuffix(", )", "SW(, " + Join(OptionParts(o), ", ") + ")")
  {
    var opts := OptionParts(o);
    PartsClean([], o);
    assert PairTexts([]) + opts == opts;
    JoinEnds(opts, ", ");
    ClosedClean("SW(, ", Join(opts, ", "), opts[|opts| - 1]);
  }

  /** The trimmed command never ends in `", )"`, as long as no code itself
      ends in a separator. */
  lemma NoTrailingSeparator(d: seq<(string, string)>, o: Options)
    requires forall i :: 0 <= i < |d| ==> !IsSuffix(", ", d[i].1)
    ensures !IsSuffix(", )", CommandAsWritten(d, o))
    ensures !IsSuffix(", )", Command(d, o))
  {
    CommandShape(d, o);
    if !Pending(d) && |d| == 0 && |OptionParts(o)| > 0 {
      StrayClean(o);
    }
  }

  /** `display_output`'s command from the table rows and the widgets: it
      fails exactly when the rows do not collect, and never ends in `", )"`
      when no code does. */
  function Display(rows: seq<Row>, raw: Options): (r: Result<string>)
    ensures r.Ok? <==> Indicadores(rows).Ok?
    ensures r.Ok? && (forall i :: 0 <= i < |Indicadores(rows).value| ==> !IsSuffix(", ", Indicadores(rows).value[i].1)) ==>
      !IsSuffix(", )", r.value)
  {
    var d :- Indicadores(rows);
    Ok(Command(d, Interpret(raw)))
  }

  /** `display_output`'s command as written: it agrees with `Display`
      whenever some indicator is listed or no option is chosen. */
  function DisplayAsWritten(rows: seq<Row>, raw: Options): (r: Result<string>)
    ensures r.Ok? <==> Indicadores(rows).Ok?
    ensures r.Ok? && (|Indicadores(rows).value| > 0 || |OptionParts(Interpret(raw))| == 0) ==> r == Display(rows, raw)
  {
    var d :- Indicadores(rows);
    var o := Interpret(raw);
    if |d| > 0 || |OptionParts(o)| == 0 then CommandAgrees(d, o); Ok(CommandAsWritten(d, o))
    else Ok(CommandAsWritten(d, o))
  }

  /** Every cell of a blank row is empty. */
  lemma BlankCell(columns: seq<string>, k: string)
    requires k in columns
    ensures Cell(BlankRow(columns), k) == Ok("")
  {
    var row := BlankRow(columns);
    BlankRowFacts(columns);
    var i :| 0 <= i < |columns| && columns[i] == k;
    assert k in Keys(row);
    var v := Cell(row, k).value;
    var j :| 0 <= j < |row| && row[j] == (k, v);
  }

  /** After a click on "add" the indicators still collect, and the new blank
      row leaves a name whose code is empty. */
  lemma AddedRowPending(nClicks: int, rows: seq<Row>)
    requires nClicks > 0
    requires Indicadores(rows).Ok?
    ensures Indicadores(AddRow(nClicks, rows, Columns)).Ok?
    ensures Pending(Indicadores(AddRow(nClicks, rows, Columns)).value)
  {
    var rows' := AddRow(nClicks, rows, Columns);
    var n := |rows|;
    assert NameColumn == Columns[0] && CodeColumn == Columns[1];
    BlankCell(Columns, NameColumn);
    BlankCell(Columns, CodeColumn);
    assert Indicadores(rows').Ok? by {
      forall i | 0 <= i < |rows'|
        ensures NameColumn in Keys(rows'[i]) && CodeColumn in Keys(rows'[i])
      {
        if i < n {
          assert rows'[i] == rows[i];
        }
      }
    }
    var pairs := NamedCodes(rows').value;
    var d := Indicadores(rows').value;
    assert pairs[n] == ("", "");
    IndicadoresDict(rows');
    assert "" in Keys(d);
    var j :| 0 <= j < |d| && Keys(d)[j] == "";
    assert LastValue(pairs, "") == "";
    assert d[j].1 == "";
  }

  /** After a click on "add" the new blank row leaves a code pending, so the
      command is `SW()` whatever the options. */
  lemma AddRowPending(nClicks: int, rows: seq<Row>, raw: Options)
    requires nClicks > 0
    requires Indicadores(rows).Ok?
    ensures Display(AddRow(nClicks, rows, Columns), raw) == Ok("SW()")
    ensures DisplayAsWritten(AddRow(nClicks, rows, Columns), raw) == Ok("SW()")
  {
    AddedRowPending(nClicks, rows);
    var d := Indicadores(AddRow(nClicks, rows, Columns)).value;
    var j :| 0 <= j < |d| && d[j].1 == "";
    PendingCommand(d, Interpret(raw), j);
  }

  // ---------------------------------------------------------------------
  // The search message
  // ---------------------------------------------------------------------

  /** The message shown when nothing matches; it is split after "No " so that
      the verifier sees the first characters, which tell it from a count. */
  const NoResults: string := "No " + "se encontró ningún indicador; intente la búsqueda con otros términos."
  const Prompt: string := "Para buscar indicadores escriba los términos deseados en el espacio proporcionado."

  /** The tail shared by the count messages. */
  const Tail: string := " su búsqueda."

  /** The words after the count, with the verb in the plural for more than
      one result. */
  function Verb(n: nat): string {
    " indicadores que satisface" + (if n > 1 then "n" else "")
  }

  /** The message for `n` results. */
  function CountMessage(n: nat): string {
    if n > 0 then "Hay " + (NatToString(n) + (Verb(n) + Tail)) else NoResults
  }

  /** The digits after `"Hay "`, read as a number. */
  function ReadCount(msg: string): Option<nat> {
    if |msg| > 4 && msg[..4] == "Hay " then
      var k := DigitRun(msg[4..]);
      if k > 0 then Some(DigitsValue(msg[4..][..k])) else None
    else None
  }

  /** A run of digits after `"Hay "` reads back as its value. */
  lemma ReadsBack(digits: string, rest: string)
    requires |digits| > 0 && AllDigits(digits)
    requires |rest| > 0 && !IsDigit(rest[0])
    ensures ReadCount("Hay " + (digits + rest)) == Some(DigitsValue(digits))
  {
    var tail := digits + rest;
    PrefixSplit("Hay ", tail);
    DigitRunOf(digits, rest);
    PrefixSplit(digits, rest);
  }

  lemma PrefixSplit(a: string, b: string)
    ensures (a + b)[..|a|] == a && (a + b)[|a|..] == b
  {
  }

  /** The verb agrees with the count: plural (`"satisfacen"`) exactly when
      there is more than one result. */
  predicate PluralVerb(msg: string) {
    |msg| > |Tail| && msg[|msg| - |Tail| - 1] == 'n'
  }

  lemma PluralOf(x: string)
    requires |x| > 0
    ensures PluralVerb(x + Tail) <==> x[|x| - 1] == 'n'
  {
    var msg := x + Tail;
    assert msg[|msg| - |Tail| - 1] == x[|x| - 1];
  }

  lemma NoResultsCount()
    ensures ReadCount(NoResults).None?
  {
    assert NoResults[..4][0] == 'N';
  }

  /** A non-zero count is written out and reads back, with the verb in the
      plural exactly when the count is above one; zero gives the no-results
      message. */
  lemma CountMessageReads(n: nat)
    ensures n == 0 ==> CountMessage(n) == NoResults && ReadCount(NoResults).None?
    ensures n > 0 ==> ReadCount(CountMessage(n)) == Some(n)
    ensures n > 0 ==> (PluralVerb(CountMessage(n)) <==> n > 1)
  {
    if n > 0 {
      CountReadsBack(n);
      CountVerb(n);
    } else {
      NoResultsCount();
    }
  }

  lemma CountReadsBack(n: nat)
    requires n > 0
    ensures ReadCount(CountMessage(n)) == Some(n)
  {
    var digits := NatToString(n);
    var v := Verb(n);
    assert v[0] == ' ';
    ReadsBack(digits, v + Tail);
    NatToStringValue(n);
  }

  lemma CountVerb(n: nat)
    requires n > 0
    ensures PluralVerb(CountMessage(n)) <==> n > 1
  {
    var x := "Hay " + NatToString(n) + Verb(n);
    var v := Verb(n);
    assert CountMessage(n) == x + Tail;
    PluralOf(x);
    assert x[|x| - 1] == v[|v| - 1];
    assert v[|v| - 1] == (if n > 1 then 'n' else 'e');
  }

  /** The search types of the radio buttons. */
  datatype Kind = Frase | Todos | Algunos

  /** `SW.buscar(**{tipo: frase})`. */
  function Request(tipo: Kind, frase: string): (r: Search.Request) {
    match tipo
    case Frase => Search.Request(Some(frase), None, None, None)
    case Todos => Search.Request(None, Some(frase), None, None)
    case Algunos => Search.Request(None, None, Some(frase), None)
  }

  /** `mostrar_códigos`: without a phrase, an empty table and the prompt;
      with one, exactly the catalogue rows the search selects, in catalogue
      order, and a message that is the no-results message exactly when there
      are none and otherwise reports their count. */
  function Mostrar(catalogue: seq<Search.Entry>, frase: Option<string>, tipo: Kind): (r: (seq<Search.Entry>, string))
    ensures !Given(frase) ==> r == ([], Prompt)
    ensures Given(frase) ==>
      var (rows, msg) := r;
      var q := Search.Mode(Request(tipo, frase.value));
      q.Some? &&
      SelectsInOrder(rows, catalogue, Search.Selector(q.value, None)) &&
      (forall i :: 0 <= i < |rows| ==> rows[i] in catalogue && Search.TextMatch(q.value, rows[i])) &&
      (forall i :: 0 <= i < |catalogue| ==> Search.TextMatch(q.value, catalogue[i]) ==> catalogue[i] in rows) &&
      (|rows| == 0 <==> msg == NoResults) &&
      (|rows| > 0 ==> ReadCount(msg) == Some(|rows|))
  {
    if Given(frase) then
      var found := Search.Buscar(catalogue, Request(tipo, frase.value));
      var rows := if found.Some? then found.value else [];
      CountMessageReads(|rows|);
      if |rows| > 0 then NoResultsCount(); (rows, CountMessage(|rows|))
      else (rows, CountMessage(|rows|))
    else ([], Prompt)
  }

}
