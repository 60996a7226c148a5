/**
 Chart formats and data frequencies.

 A chart format names the layout of a chart's grid: which axis holds the
 periods and whether the grid has to be read column by column. The catalogue
 stores it as text. Frequencies form the ordered set A < 6M < Q < M < W < D
 (yearly, half-yearly, quarterly, monthly, weekly, daily); both catalogue
 classes convert a mixed request to the lowest of them.
 */
module Formats {
  import opened Common

  datatype Format =
    | YearMonth | MonthYear | IndicatorYear | IndicatorQuarter | QuarterIndicator
    | MonthIndicator | IndicatorMonth | DayYear | DayIndicator

  function FormatName(f: Format): string {
    match f
    case YearMonth => "YearMonth"
    case MonthYear => "MonthYear"
    case IndicatorYear => "IndicatorYear"
    case IndicatorQuarter => "IndicatorQuarter"
    case QuarterIndicator => "QuarterIndicator"
    case MonthIndicator => "MonthIndicator"
    case IndicatorMonth => "IndicatorMonth"
    case DayYear => "DayYear"
    case DayIndicator => "DayIndicator"
  }

  /** The format a catalogue text names, compared exactly; `None` for any
      other text. */
  function FormatOf(s: string): Option<Format> {
    if s == "YearMonth" then Some(YearMonth)
    else if s == "MonthYear" then Some(MonthYear)
    else if s == "IndicatorYear" then Some(IndicatorYear)
    else if s == "IndicatorQuarter" then Some(IndicatorQuarter)
    else if s == "QuarterIndicator" then Some(QuarterIndicator)
    else if s == "MonthIndicator" then Some(MonthIndicator)
    else if s == "IndicatorMonth" then Some(IndicatorMonth)
    else if s == "DayYear" then Some(DayYear)
    else if s == "DayIndicator" then Some(DayIndicator)
    else None
  }

  /** A text names a format exactly when it is that format's name. */
  lemma FormatNames(s: string, f: Format)
    ensures FormatOf(s) == Some(f) <==> s == FormatName(f)
  {
  }

  // ---------------------------------------------------------------------
  // Frequencies
  // ---------------------------------------------------------------------

  datatype Freq = Annual | HalfYear | Quarterly | Monthly | Weekly | Daily

  function FreqCode(f: Freq): string {
    match f
    case Annual => "A"
    case HalfYear => "6M"
    case Quarterly => "Q"
    case Monthly => "M"
    case Weekly => "W"
    case Daily => "D"
  }

  /** The category of a frequency code; `None` for a text outside the six
      categories (pandas turns it into a missing value). */
  function FreqOf(s: string): (r: Option<Freq>)
    ensures r.Some? ==> FreqCode(r.value) == s
  {
    if s == "A" then Some(Annual)
    else if s == "6M" then Some(HalfYear)
    else if s == "Q" then Some(Quarterly)
    else if s == "M" then Some(Monthly)
    else if s == "W" then Some(Weekly)
    else if s == "D" then Some(Daily)
    else None
  }

  lemma FreqRoundTrip(f: Freq)
    ensures FreqOf(FreqCode(f)) == Some(f)
  {
  }

  /** Position in the order A < 6M < Q < M < W < D. */
  function Rank(f: Freq): nat {
    match f
    case Annual => 0
    case HalfYear => 1
    case Quarterly => 2
    case Monthly => 3
    case Weekly => 4
    case Daily => 5
  }

  /** The codes among `codes` that name one of the six categories. */
  predicate HasKnown(codes: seq<string>) {
    exists i :: 0 <= i < |codes| && FreqOf(codes[i]).Some?
  }

  /** `Series.min()` of an ordered categorical: the lowest of the known
      frequencies, missing values skipped. */
  function Lowest(codes: seq<string>): (r: Option<Freq>)
    ensures r.None? <==> !HasKnown(codes)
    ensures r.Some? ==> exists i :: 0 <= i < |codes| && FreqOf(codes[i]) == r
    ensures r.Some? ==> forall i :: 0 <= i < |codes| && FreqOf(codes[i]).Some? ==>
      Rank(r.value) <= Rank(FreqOf(codes[i]).value)
  {
    if |codes| == 0 then None
    else
      var rest := Lowest(codes[1..]);
      assert forall i :: 1 <= i < |codes| ==> codes[1..][i - 1] == codes[i];
      match FreqOf(codes[0])
      case None => rest
      case Some(f) =>
        if rest.Some? && Rank(rest.value) < Rank(f) then rest else Some(f)
  }

  /** The lowest frequency does not depend on the order of the codes: moving
      the first code to the end gives the same result. */
  lemma {:induction false} LowestRotate(codes: seq<string>)
    requires |codes| > 0
    ensures Lowest(codes[1..] + [codes[0]]) == Lowest(codes)
  {
    var a := Lowest(codes);
    var b := Lowest(codes[1..] + [codes[0]]);
    var rot := codes[1..] + [codes[0]];
    assert HasKnown(rot) <==> HasKnown(codes) by {
      if HasKnown(codes) {
        var i :| 0 <= i < |codes| && FreqOf(codes[i]).Some?;
        if i == 0 {
          assert rot[|rot| - 1] == codes[0];
        } else {
          assert rot[i - 1] == codes[i];
        }
      }
      if HasKnown(rot) {
        var i :| 0 <= i < |rot| && FreqOf(rot[i]).Some?;
        if i == |rot| - 1 {
          assert codes[0] == rot[i];
        } else {
          assert codes[i + 1] == rot[i];
        }
      }
    }
    if a.Some? {
      var i :| 0 <= i < |codes| && FreqOf(codes[i]) == a;
      var k :| 0 <= k < |rot| && FreqOf(rot[k]) == b;
      var i' := if i == 0 then |rot| - 1 else i - 1;
      assert rot[i'] == codes[i];
      var k' := if k == |rot| - 1 then 0 else k + 1;
      assert codes[k'] == rot[k];
      assert Rank(a.value) == Rank(b.value) ==> a.value == b.value;
    }
  }

  // ---------------------------------------------------------------------
  // Harmonising a mixed request
  // ---------------------------------------------------------------------

  /** Two different codes among the requested ones: the series of the
      request are keyed by code, so only then are there several series. */
  predicate Mixed<K(==)>(codes: seq<K>) {
    exists i, j :: 0 <= i < |codes| && 0 <= j < |codes| && codes[i] != codes[j]
  }

  /** The `func` argument: one aggregation for every series, a table from code
      to aggregation, or nothing usable (`None`). */
  datatype FuncArg<K> = OneFunc(name: string) | PerCode(funcs: seq<(K, string)>) | NoFunc

  /** What happens to one downloaded series. */
  datatype Step = Keep | ResampleTo(target: string, func: string)

  /** The catalogue frequency of each code. */
  function FreqsOf<K>(codes: seq<K>, freqOf: K -> string): (fs: seq<string>)
    ensures |fs| == |codes| && forall i :: 0 <= i < |codes| ==> fs[i] == freqOf(codes[i])
  {
    seq(|codes|, i requires 0 <= i < |codes| => freqOf(codes[i]))
  }

  /** The frequency the request converts to: none when it has a single code,
      otherwise the requested one when given, else the lowest catalogue
      frequency (a request whose frequencies are all unknown has no lowest and
      fails when resampling). */
  function Target<K(==)>(codes: seq<K>, freqOf: K -> string, freq: Option<string>): (r: Result<Option<string>>)
    ensures !Mixed(codes) ==> r == Ok(None)
    ensures Mixed(codes) && Given(freq) ==> r == Ok(Some(freq.value))
    ensures Mixed(codes) && !Given(freq) ==>
      (r.Ok? <==> HasKnown(FreqsOf(codes, freqOf))) &&
      (r.Ok? ==> r.value == Some(FreqCode(Lowest(FreqsOf(codes, freqOf)).value)))
  {
    if !Mixed(codes) then Ok(None)
    else if Given(freq) then Ok(Some(freq.value))
    else
      match Lowest(FreqsOf(codes, freqOf))
      case None => Err(ValueError)
      case Some(f) => Ok(Some(FreqCode(f)))
  }

  /** `func[codigo]` for a series that has to be resampled. */
  function FuncFor<K(==)>(func: FuncArg<K>, code: K): (r: Result<string>)
    ensures func.OneFunc? ==> r == Ok(func.name)
    ensures func.PerCode? ==> (r.Ok? <==> code in Keys(func.funcs))
    ensures func.PerCode? && r.Ok? ==> r.value == LastValue(func.funcs, code)
    ensures func.NoFunc? ==> r == Err(TypeError)
  {
    match func
    case OneFunc(name) => Ok(name)
    case PerCode(funcs) => if code in Keys(funcs) then Ok(LastValue(funcs, code)) else Err(KeyError)
    case NoFunc => Err(TypeError)
  }

  /** A series is left alone when its catalogue frequency is a known category
      equal to the target; any other series is resampled to the target. */
  function StepFor<K(==)>(code: K, codeFreq: string, target: Option<string>, func: FuncArg<K>): (r: Result<Step>)
    ensures target.None? ==> r == Ok(Keep)
    ensures target.Some? && FreqOf(codeFreq).Some? && codeFreq == target.value ==> r == Ok(Keep)
    ensures r.Ok? && r.value.ResampleTo? ==> target.Some? && r.value.target == target.value
    ensures target.Some? && (FreqOf(codeFreq).None? || codeFreq != target.value) ==>
      (r.Ok? <==> FuncFor(func, code).Ok?) && (r.Ok? ==> r.value == ResampleTo(target.value, FuncFor(func, code).value))
  {
    if target.None? || (FreqOf(codeFreq).Some? && codeFreq == target.value) then Ok(Keep)
    else
      var f :- FuncFor(func, code);
      Ok(ResampleTo(target.value, f))
  }

  /** The steps for the series of a request, in order; the first failing
      lookup fails the whole request. */
  function Steps<K(==)>(codes: seq<K>, freqOf: K -> string, target: Option<string>, func: FuncArg<K>): (r: Result<seq<Step>>)
    ensures r.Ok? ==> |r.value| == |codes|
    ensures r.Ok? ==> forall i :: 0 <= i < |codes| ==> StepFor(codes[i], freqOf(codes[i]), target, func) == Ok(r.value[i])
    ensures r.Err? ==> exists i :: 0 <= i < |codes| && StepFor(codes[i], freqOf(codes[i]), target, func).Err?
  {
    if |codes| == 0 then Ok([])
    else
      var s :- StepFor(codes[0], freqOf(codes[0]), target, func);
      var rest :- Steps(codes[1..], freqOf, target, func);
      assert forall i :: 1 <= i < |codes| ==> codes[1..][i - 1] == codes[i];
      Ok([s] + rest)
  }

  /** Harmonising a request: the target, then one step per series. */
  function Harmonise<K(==)>(codes: seq<K>, freqOf: K -> string, freq: Option<string>, func: FuncArg<K>): Result<seq<Step>> {
    var target :- Target(codes, freqOf, freq);
    Steps(codes, freqOf, target, func)
  }

  /** The frequency a series ends up with after its step. */
  function FinalFreq(codeFreq: string, s: Step): string {
    match s
    case Keep => codeFreq
    case ResampleTo(target, _) => target
  }

  /** A request with a single code is never converted; a mixed one ends with
      every series at the target: the lowest catalogue frequency when none is
      requested, so that series are only ever converted downwards. */
  lemma HarmoniseResult<K>(codes: seq<K>, freqOf: K -> string, freq: Option<string>, func: FuncArg<K>, i: nat)
    requires Harmonise(codes, freqOf, freq, func).Ok? && i < |codes|
    ensures var steps := Harmonise(codes, freqOf, freq, func).value;
      |steps| == |codes| &&
      (!Mixed(codes) ==> steps[i] == Keep) &&
      (Mixed(codes) ==> FinalFreq(freqOf(codes[i]), steps[i]) == Target(codes, freqOf, freq).value.value) &&
      (Mixed(codes) && !Given(freq) && FreqOf(freqOf(codes[i])).Some? ==>
        var t := FreqOf(Target(codes, freqOf, freq).value.value);
        t.Some? && Rank(t.value) <= Rank(FreqOf(freqOf(codes[i])).value) &&
        (steps[i] == Keep <==> t.value == FreqOf(freqOf(codes[i])).value))
  {
    var target := Target(codes, freqOf, freq).value;
    var steps := Harmonise(codes, freqOf, freq, func).value;
    assert steps == Steps(codes, freqOf, target, func).value;
    assert StepFor(codes[i], freqOf(codes[i]), target, func) == Ok(steps[i]);
    if Mixed(codes) && !Given(freq) && FreqOf(freqOf(codes[i])).Some? {
      var fs := FreqsOf(codes, freqOf);
      var low := Lowest(fs).value;
      FreqRoundTrip(low);
      assert target == Some(FreqCode(low));
      if FreqOf(freqOf(codes[i])).value == low {
        assert freqOf(codes[i]) == FreqCode(low);
      }
    }
  }
}
