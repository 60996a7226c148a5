/**
 The web-service client `ServicioWeb`: the credentials and the parameters of
 one download, the account tree of the catalogue (the parent rule
 `find_parent`, the eleven group roots, the node labels, the printed path and
 the sub-account codes read back from the rendered tree), and the argument
 handling and frequency harmonisation of `datos`.

 The HTTP request, the XML parsing, the Excel and pickle catalogue files and
 the `anytree` rendering are not modelled: the catalogue is a map from code
 to frequency code, the rendered tree is a sequence of lines, and today's
 date and `parse_date_parameter` are parameters.
 */
module Gee {
  import opened Common
  import opened Query
  import opened Form
  import opened Formats

  // ---------------------------------------------------------------------
  // Credentials and download parameters
  // ---------------------------------------------------------------------

  /** The credentials of a `ServicioWeb` object. */
  datatype User = User(nombre: string, correo: string, token: string)

  /** The credentials a `ServicioWeb()` is created with. */
  const DefaultUser: User := User("Paquete BCCR Python", "paquete.bccr.python@outlook.com", "5CMRCBTHMT")

  /** The keys of a download request, in the order the dict receives them. */
  datatype ServiceKey = Nombre | CorreoElectronico | Token | Indicador | FechaInicio | FechaFinal | SubNiveles

  const ServiceKeys: seq<ServiceKey> :=
    [Nombre, CorreoElectronico, Token, Indicador, FechaInicio, FechaFinal, SubNiveles]

  function KeyName(k: ServiceKey): string {
    match k
    case Nombre => "Nombre"
    case CorreoElectronico => "CorreoElectronico"
    case Token => "Token"
    case Indicador => "Indicador"
    case FechaInicio => "FechaInicio"
    case FechaFinal => "FechaFinal"
    case SubNiveles => "SubNiveles"
  }

  /** `__usuario__`: the dict of credentials. */
  function Usuario(u: User): (d: seq<(ServiceKey, string)>)
    ensures Keys(d) == ServiceKeys[..3]
    ensures d[0].1 == u.nombre && d[1].1 == u.correo && d[2].1 == u.token
  {
    [(Nombre, u.nombre), (CorreoElectronico, u.correo), (Token, u.token)]
  }

  /** Assigning a key the dict does not hold appends the pair. */
  lemma {:induction false} PutNew<K, V>(d: seq<(K, V)>, k: K, v: V)
    requires k !in Keys(d)
    ensures Put(d, k, v) == d + [(k, v)]
  {
    if |d| > 0 {
      assert Keys(d) == [d[0].0] + Keys(d[1..]);
      PutNew(d[1..], k, v);
      assert d == [d[0]] + d[1..];
    }
  }

  /** An indicator or chart argument: an `int` or a `str`. */
  datatype Item = IntItem(n: int) | StrItem(s: string)

  /** `str(x)`. */
  function ItemText(x: Item): string {
    match x
    case IntItem(n) => IntToString(n)
    case StrItem(s) => s
  }

  /** The first date sent: parsed, or 1 January 1900 when not given. */
  function FirstDate(first: Option<string>, parseDate: (string, bool) -> string): string {
    if Given(first) then parseDate(first.value, true) else "01/01/1900"
  }

  /** The last date sent: parsed, or today when not given. */
  function LastDate(last: Option<string>, parseDate: (string, bool) -> string, today: string): string {
    if Given(last) then parseDate(last.value, false) else today
  }

  /** The dict `params` of `__descargar__`: the credentials, then the
      indicator as text, the two dates and the sub-levels flag.
      `parseDate(d, inicio)` stands for `parse_date_parameter` and `today`
      for today's date as `%d/%m/%Y`. */
  function DescargarParams(u: User, indicador: Item, first: Option<string>, last: Option<string>,
                           subNiveles: bool, parseDate: (string, bool) -> string, today: string)
    : seq<(ServiceKey, string)>
  {
    var d0 := Usuario(u);
    var d1 := Put(d0, Indicador, ItemText(indicador));
    var d2 := Put(d1, FechaInicio, FirstDate(first, parseDate));
    var d3 := Put(d2, FechaFinal, LastDate(last, parseDate, today));
    Put(d3, SubNiveles, if subNiveles then "S" else "N")
  }

  /** The request carries the seven keys once each, in the order credentials,
      indicator, first date, last date, sub-levels, with the indicator as
      text, 1 January 1900 and today as the default dates, and 'S' or 'N'
      for the sub-levels. */
  lemma DescargarContent(u: User, indicador: Item, first: Option<string>, last: Option<string>,
                         subNiveles: bool, parseDate: (string, bool) -> string, today: string)
    ensures var d := DescargarParams(u, indicador, first, last, subNiveles, parseDate, today);
      Keys(d) == ServiceKeys &&
      d[0].1 == u.nombre && d[1].1 == u.correo && d[2].1 == u.token &&
      d[3].1 == ItemText(indicador) &&
      d[4].1 == (if Given(first) then parseDate(first.value, true) else "01/01/1900") &&
      d[5].1 == (if Given(last) then parseDate(last.value, false) else today) &&
      d[6].1 == (if subNiveles then "S" else "N")
  {
    var d0 := Usuario(u);
    var v1, v2, v3 := ItemText(indicador), FirstDate(first, parseDate), LastDate(last, parseDate, today);
    var v4 := if subNiveles then "S" else "N";
    PutNew(d0, Indicador, v1);
    var d1 := d0 + [(Indicador, v1)];
    assert Keys(d1) == [Nombre, CorreoElectronico, Token, Indicador];
    PutNew(d1, FechaInicio, v2);
    var d2 := d1 + [(FechaInicio, v2)];
    assert Keys(d2) == [Nombre, CorreoElectronico, Token, Indicador, FechaInicio];
    PutNew(d2, FechaFinal, v3);
    var d3 := d2 + [(FechaFinal, v3)];
    assert Keys(d3) == [Nombre, CorreoElectronico, Token, Indicador, FechaInicio, FechaFinal];
    PutNew(d3, SubNiveles, v4);
    var d4 := d3 + [(SubNiveles, v4)];
    assert Keys(d4) == ServiceKeys;
    assert DescargarParams(u, indicador, first, last, subNiveles, parseDate, today) == d4;
  }

  /** The query of a download request. */
  function AsParams(d: seq<(ServiceKey, string)>): (ps: seq<Param>)
    ensures |ps| == |d| && forall i :: 0 <= i < |d| ==> ps[i] == Param(KeyName(d[i].0), d[i].1)
  {
    seq(|d|, i requires 0 <= i < |d| => Param(KeyName(d[i].0), d[i].1))
  }

  /** The address of the web service. */
  const Host: string := "https://gee.bccr.fi.cr/Indicadores/Suscripciones/WS/wsindicadoreseconomicos.asmx/ObtenerIndicadoresEconomicos"

  /** A parameter with its key and value form-encoded (`quote_plus`). */
  function FormParam(p: Param): Param {
    Param(FormEncode(p.key), FormEncode(p.value))
  }

  function FormParams(ps: seq<Param>): (r: seq<Param>)
    ensures |r| == |ps| && forall i :: 0 <= i < |ps| ==> r[i] == FormParam(ps[i])
  {
    seq(|ps|, i requires 0 <= i < |ps| => FormParam(ps[i]))
  }

  /** The address `requests.get(host, params)` asks for: the host, '?', and
      `urlencode(params)`, the form-encoded `key=value` pairs joined by '&'.
      Such a query holds only unreserved characters, '%', '+', '&' and '=',
      which requests' final requoting leaves as they are. */
  function Address(d: seq<(ServiceKey, string)>): string {
    Host + "?" + EncodeQuery(FormParams(AsParams(d)))
  }

  /** Every key and value form-decoded; `None` when one of them is not valid
      percent-encoded UTF-8. */
  function FormDecodeAll(ps: seq<Param>): Option<seq<Param>> {
    if |ps| == 0 then Some([])
    else match (FormDecode(ps[0].key), FormDecode(ps[0].value), FormDecodeAll(ps[1..]))
      case (Some(k), Some(v), Some(rest)) => Some([Param(k, v)] + rest)
      case _ => None
  }

  /** The parameters the service reads from an address: the pairs after
      `host?`, each key and value form-decoded. */
  function ReadAddress(url: string): Option<seq<Param>> {
    match DecodeUrl(Host + "?", url)
    case None => None
    case Some(ps) => FormDecodeAll(ps)
  }

  /** Distinct keys have distinct names. */
  lemma KeyNameInjective(a: ServiceKey, b: ServiceKey)
    ensures KeyName(a) == KeyName(b) ==> a == b
  {
  }

  /** The request keys are listed once each. */
  lemma ServiceKeysDistinct()
    ensures Distinct(ServiceKeys)
  {
  }

  /** Form-decoding undoes form-encoding, parameter by parameter. */
  lemma {:induction false} FormDecodeAllEncoded(ps: seq<Param>)
    ensures FormDecodeAll(FormParams(ps)) == Some(ps)
  {
    if |ps| > 0 {
      var p, rest, sent := ps[0], ps[1..], FormParams(ps);
      assert sent[0] == FormParam(p);
      assert sent[1..] == FormParams(rest);
      FormRoundTrip(p.key);
      FormRoundTrip(p.value);
      FormDecodeAllEncoded(rest);
      assert FormDecodeAll(sent) == Some([p] + rest);
      assert [p] + rest == ps;
    }
  }

  /** Reading the request address back gives the seven parameters, each key
      once and in order, with the values the request set, whatever those
      values hold. */
  lemma DescargarDecodes(u: User, indicador: Item, first: Option<string>, last: Option<string>,
                         subNiveles: bool, parseDate: (string, bool) -> string, today: string)
    ensures var d := DescargarParams(u, indicador, first, last, subNiveles, parseDate, today);
      var ps := AsParams(d);
      ReadAddress(Address(d)) == Some(ps) &&
      |ps| == 7 && (forall i :: 0 <= i < 7 ==> ps[i].key == KeyName(ServiceKeys[i])) &&
      ps[0].value == u.nombre && ps[1].value == u.correo && ps[2].value == u.token &&
      ps[3].value == ItemText(indicador) &&
      Distinct(ParamKeys(ps))
  {
    var d := DescargarParams(u, indicador, first, last, subNiveles, parseDate, today);
    DescargarContent(u, indicador, first, last, subNiveles, parseDate, today);
    ParamsDecode(d);
  }

  lemma KeyNameLetters(k: ServiceKey)
    ensures Letters(KeyName(k))
  {
    match k
    case Nombre =>
    case CorreoElectronico =>
    case Token =>
    case Indicador =>
    case FechaInicio =>
    case FechaFinal =>
    case SubNiveles =>
  }

  /** A key name is sent as it is, and its form-encoded parameter is clean:
      no form-encoded text holds '&' or '='. */
  lemma FormParamClean(k: ServiceKey, v: string)
    ensures FormEncode(KeyName(k)) == KeyName(k)
    ensures CleanParam(FormParam(Param(KeyName(k), v)))
  {
    var name := KeyName(k);
    KeyNameLetters(k);
    UnreservedUnchanged(name);
    EncodedChars(name);
    EncodedChars(v);
  }

  /** The parameters sent for a request dict are clean, and their keys are
      the key names themselves. */
  lemma SentClean(d: seq<(ServiceKey, string)>)
    ensures var ps := AsParams(d);
      Clean(FormParams(ps)) && forall i :: 0 <= i < |ps| ==> FormParams(ps)[i].key == ps[i].key
  {
    var ps := AsParams(d);
    forall i | 0 <= i < |ps|
      ensures CleanParam(FormParams(ps)[i]) && FormParams(ps)[i].key == ps[i].key
    {
      FormParamClean(d[i].0, d[i].1);
    }
  }

  /** The service reads back exactly the parameters of a request dict from
      the address requests builds for it, whatever the values hold. */
  lemma AddressReadsBack(d: seq<(ServiceKey, string)>)
    ensures ReadAddress(Address(d)) == Some(AsParams(d))
  {
    var ps := AsParams(d);
    var sent := FormParams(ps);
    SentClean(d);
    UrlRoundTrip(Host + "?", sent);
    assert DecodeUrl(Host + "?", Address(d)) == Some(sent);
    FormDecodeAllEncoded(ps);
  }

  /** The keys of a request dict are the seven key names, in order and
      distinct. */
  lemma ParamKeysNamed(d: seq<(ServiceKey, string)>)
    requires Keys(d) == ServiceKeys
    ensures var ps := AsParams(d);
      |ps| == 7 && (forall i :: 0 <= i < 7 ==> ps[i].key == KeyName(ServiceKeys[i])) &&
      Distinct(ParamKeys(ps))
  {
    var ps := AsParams(d);
    forall i | 0 <= i < |ps|
      ensures ps[i].key == KeyName(ServiceKeys[i])
    {
      assert Keys(d)[i] == d[i].0;
    }
    ServiceKeysDistinct();
    forall i, j | 0 <= i < j < |ps|
      ensures ParamKeys(ps)[i] != ParamKeys(ps)[j]
    {
      KeyNameInjective(ServiceKeys[i], ServiceKeys[j]);
    }
  }

  /** A request dict is read back from the address requests builds for it,
      for every value, with its keys sent unescaped and named after distinct
      service keys. */
  lemma ParamsDecode(d: seq<(ServiceKey, string)>)
    requires Keys(d) == ServiceKeys
    ensures var ps := AsParams(d);
      ReadAddress(Address(d)) == Some(ps) &&
      |ps| == 7 && (forall i :: 0 <= i < 7 ==> ps[i].key == KeyName(ServiceKeys[i])) &&
      (forall i :: 0 <= i < 7 ==> FormParams(ps)[i].key == ps[i].key) &&
      Distinct(ParamKeys(ps))
  {
    AddressReadsBack(d);
    SentClean(d);
    ParamKeysNamed(d);
  }

  /** The default credentials and the defaults of the dates and sub-levels. */
  lemma DescargarDefaults(indicador: Item, parseDate: (string, bool) -> string, today: string)
    ensures var d := DescargarParams(DefaultUser, indicador, None, None, false, parseDate, today);
      d == [(Nombre, "Paquete BCCR Python"), (CorreoElectronico, "paquete.bccr.python@outlook.com"),
            (Token, "5CMRCBTHMT"), (Indicador, ItemText(indicador)), (FechaInicio, "01/01/1900"),
            (FechaFinal, today), (SubNiveles, "N")]
  {
    DescargarContent(DefaultUser, indicador, None, None, false, parseDate, today);
  }

  // ---------------------------------------------------------------------
  // The account tree: find_parent and the group roots
  // ---------------------------------------------------------------------

  /** `n` segments "00". */
  function Zeros(n: nat): (r: seq<string>)
    ensures |r| == n && forall i :: 0 <= i < n ==> r[i] == "00"
  {
    seq(n, i => "00")
  }

  /** The segments of the root account `E00.00.00.00.00.00.00.00.00`. */
  const RootSegs: seq<string> := ["E00"] + Zeros(8)

  /** The position `k` that `find_parent` changes: the last position after
      the first whose segment is not "00", or 0 when there is none (the
      maximum of `(segments != "00") * arange(9)`). */
  function LastSet(segs: seq<string>, n: nat): (k: nat)
    requires n <= |segs|
    ensures k < n || k == 0
    ensures k > 0 ==> segs[k] != "00"
    ensures forall i :: k < i < n && i > 0 ==> segs[i] == "00"
  {
    if n <= 1 then 0 else if segs[n - 1] != "00" then n - 1 else LastSet(segs, n - 1)
  }

  /** One step of `find_parent`: the segment at `LastSet` becomes "00", or
      "E00" when it is the first segment. */
  function Step(segs: seq<string>): (p: seq<string>)
    requires |segs| == 9
    ensures |p| == 9
  {
    var k := LastSet(segs, 9);
    segs[k := if k > 0 then "00" else "E00"]
  }

  /** The account `segs` cut after its first `m` segments, the rest "00". */
  function Truncate(segs: seq<string>, m: nat): (r: seq<string>)
    requires m <= |segs| <= 9
  {
    segs[..m] + Zeros(9 - m)
  }

  /** The account with segments `segs` is in the catalogue (`cta1 in catalogo.index`). */
  predicate Listed(segs: seq<string>, catalogue: set<string>) {
    Join(segs, ".") in catalogue
  }

  /** Decreases with every step of `find_parent` that changes the account. */
  function StepMeasure(segs: seq<string>): nat
    requires |segs| == 9
  {
    2 * LastSet(segs, 9) + (if segs[0] == "E00" then 0 else 1)
  }

  /** A step cuts the account just before its last set segment, or turns it
      into the root; the root is the only account a step leaves unchanged. */
  lemma StepShape(segs: seq<string>)
    requires |segs| == 9
    ensures var k := LastSet(segs, 9);
      (k > 0 ==> Step(segs) == Truncate(segs, k)) &&
      (k == 0 ==> Step(segs) == RootSegs) &&
      (Step(segs) == segs <==> segs == RootSegs) &&
      (Step(segs) != segs ==> StepMeasure(Step(segs)) < StepMeasure(segs))
  {
    var k := LastSet(segs, 9);
    var p := Step(segs);
    if k > 0 {
      assert p == Truncate(segs, k);
      assert LastSet(p, 9) < k;
    } else {
      assert p == RootSegs;
      assert LastSet(p, 9) == 0;
    }
    if segs == RootSegs {
      assert LastSet(segs, 9) == 0;
    }
  }

  /** The account a chain of steps from `segs` reaches: the root, or `segs`
      cut before one of its set segments. */
  predicate Ancestor(a: seq<string>, segs: seq<string>)
    requires |segs| == 9
  {
    a == RootSegs || exists m :: 1 <= m <= LastSet(segs, 9) && a == Truncate(segs, m)
  }

  /** `find_parent` on an account of nine segments: step until the account
      (joined with '.') is in the catalogue. Stepping from the root gives the
      root again, so without the root in the catalogue Python's recursion
      never ends and raises `RecursionError`. */
  function FindParentSegs(segs: seq<string>, catalogue: set<string>): (r: Result<seq<string>>)
    requires |segs| == 9
    ensures r.Ok? ==> |r.value| == 9 && Listed(r.value, catalogue)
    ensures r.Err? ==> r.error == RecursionError
    decreases StepMeasure(segs)
  {
    var p := Step(segs);
    StepShape(segs);
    if Listed(p, catalogue) then Ok(p)
    else if p == segs then Err(RecursionError)
    else FindParentSegs(p, catalogue)
  }

  /** `find_parent(cta, catalogo)` on an account code. An account of one
      segment "00" has parent "E00" when that is in the catalogue; otherwise
      one segment ends in an `IndexError` (the array of one segment broadcasts
      to nine positions); any count other than one or nine fails to broadcast
      (`ValueError`). */
  function FindParent(cta: string, catalogue: set<string>): (r: Result<string>)
    ensures |Split(cta, '.')| != 1 && |Split(cta, '.')| != 9 ==> r == Err(ValueError)
    ensures |Split(cta, '.')| == 9 ==>
      r == (match FindParentSegs(Split(cta, '.'), catalogue)
            case Ok(p) => Ok(Join(p, "."))
            case Err(e) => Err(e))
    ensures r.Ok? ==> r.value in catalogue
  {
    var segs := Split(cta, '.');
    if |segs| == 1 then
      if segs[0] == "00" && "E00" in catalogue then Ok("E00") else Err(IndexError)
    else if |segs| != 9 then Err(ValueError)
    else
      match FindParentSegs(segs, catalogue)
      case Ok(p) => Ok(Join(p, "."))
      case Err(e) => Err(e)
  }

  /** A set position of an account: one after the first whose segment is not "00". */
  predicate SetAt(segs: seq<string>, m: nat)
    requires |segs| == 9
  {
    1 <= m <= LastSet(segs, 9) && segs[m] != "00"
  }

  /** No cut of `segs` at a set position after `m` is in the catalogue. */
  predicate NoCutBeyond(segs: seq<string>, m: nat, catalogue: set<string>)
    requires |segs| == 9
  {
    forall m' :: m < m' < 9 && SetAt(segs, m') ==> !Listed(Truncate(segs, m'), catalogue)
  }

  /** `a` is the nearest ancestor of `segs` in the catalogue: `segs` cut at a
      set position with no nearer cut in the catalogue, or the root when no
      cut at all is in the catalogue. */
  predicate NearestAncestor(a: seq<string>, segs: seq<string>, catalogue: set<string>)
    requires |segs| == 9
  {
    || (a == RootSegs && NoCutBeyond(segs, 0, catalogue))
    || (exists m :: 0 < m < 9 && SetAt(segs, m) && a == Truncate(segs, m) && NoCutBeyond(segs, m, catalogue))
  }

  /** `find_parent` returns the nearest ancestor in the catalogue: it keeps
      the segment count, keeps every segment before the one it changes and
      sets every later one to "00". */
  lemma {:induction false} FindParentNearest(segs: seq<string>, catalogue: set<string>)
    requires |segs| == 9
    requires FindParentSegs(segs, catalogue).Ok?
    ensures NearestAncestor(FindParentSegs(segs, catalogue).value, segs, catalogue)
    decreases StepMeasure(segs)
  {
    var r := FindParentSegs(segs, catalogue).value;
    var p := Step(segs);
    var L := LastSet(segs, 9);
    StepShape(segs);
    if L == 0 {
      StepShape(p);
      assert r == RootSegs;
    } else if Listed(p, catalogue) {
      assert r == Truncate(segs, L) && SetAt(segs, L);
    } else {
      assert r == FindParentSegs(p, catalogue).value;
      FindParentNearest(p, catalogue);
      NearestStep(segs, catalogue, r);
    }
  }

  /** One step of the induction of `FindParentNearest`: the nearest ancestor
      of the first step, when that step is not in the catalogue, is the
      nearest ancestor of the account. */
  lemma NearestStep(segs: seq<string>, catalogue: set<string>, r: seq<string>)
    requires |segs| == 9 && LastSet(segs, 9) > 0
    requires !Listed(Step(segs), catalogue)
    requires NearestAncestor(r, Step(segs), catalogue)
    ensures NearestAncestor(r, segs, catalogue)
  {
    var p := Step(segs);
    if r == RootSegs && NoCutBeyond(p, 0, catalogue) {
      NoCutStep(segs, 0, catalogue);
    } else {
      var m :| 0 < m < 9 && SetAt(p, m) && r == Truncate(p, m) && NoCutBeyond(p, m, catalogue);
      StepKeeps(segs, m);
      NoCutStep(segs, m, catalogue);
    }
  }

  /** No cut beyond `m` of the first step is in the catalogue, and neither is
      the first step itself: then no cut of the account beyond `m` is. */
  lemma NoCutStep(segs: seq<string>, m: nat, catalogue: set<string>)
    requires |segs| == 9 && LastSet(segs, 9) > 0
    requires m < LastSet(segs, 9)
    requires !Listed(Step(segs), catalogue)
    requires NoCutBeyond(Step(segs), m, catalogue)
    ensures NoCutBeyond(segs, m, catalogue)
  {
    var L := LastSet(segs, 9);
    var p := Step(segs);
    StepShape(segs);
    assert p == Truncate(segs, L);
    forall m' | m < m' < 9 && SetAt(segs, m')
      ensures !Listed(Truncate(segs, m'), catalogue)
    {
      if m' < L {
        StepKeeps(segs, m');
        assert SetAt(p, m');
        assert Truncate(p, m') == Truncate(segs, m');
      } else {
        assert m' == L;
      }
    }
  }

  /** A step keeps the set positions before the one it clears, and the cuts
      there. */
  lemma StepKeeps(segs: seq<string>, m: nat)
    requires |segs| == 9 && LastSet(segs, 9) > 0 && m < 9
    ensures var L := LastSet(segs, 9);
      (SetAt(Step(segs), m) <==> SetAt(segs, m) && m < L) &&
      (1 <= m < L ==> Truncate(Step(segs), m) == Truncate(segs, m))
  {
    var L := LastSet(segs, 9);
    var p := Step(segs);
    StepShape(segs);
    var L' := LastSet(p, 9);
    assert L' < L;
    if L' < m < L {
      assert p[m] == segs[m];
    }
    if 1 <= m < L {
      assert p[m] == segs[m];
      assert p[..m] == segs[..m];
    }
  }

  /** With the root account in the catalogue `find_parent` always ends, and
      it fails only when the root is missing. */
  lemma {:induction false} FindParentTerminates(segs: seq<string>, catalogue: set<string>)
    requires |segs| == 9
    ensures FindParentSegs(segs, catalogue).Ok? <== Listed(RootSegs, catalogue)
    ensures FindParentSegs(segs, catalogue).Err? ==> !Listed(RootSegs, catalogue)
    decreases StepMeasure(segs)
  {
    var p := Step(segs);
    StepShape(segs);
    if !Listed(p, catalogue) && p != segs {
      FindParentTerminates(p, catalogue);
    }
  }

  /** `f'{k:02}'`: the decimal spelling of `k` padded with zeros to two places. */
  function TwoDigits(k: nat): string {
    if k < 10 then "0" + NatToString(k) else NatToString(k)
  }

  /** Below 100 the padded spelling is the tens digit and the units digit. */
  lemma TwoDigitsSmall(k: nat)
    requires k < 100
    ensures TwoDigits(k) == [DigitChar(k / 10), DigitChar(k % 10)]
  {
    if k >= 10 {
      assert NatToString(k) == NatToString(k / 10) + [DigitChar(k % 10)];
    }
  }

  /** The names of the eleven groups, all with code '***'. */
  const GroupNames: seq<string> :=
    ["BCCR", "Índices de Precios", "Tipos de cambio", "Tasas de interés", "Sector Real",
     "Sector Externo", "Sector Fiscal", "Sector Monetario y Financiero",
     "Mercados de Negociación", "Demográficas y Mercado Laboral", "Expectativas"]

  /** The code of a group node. */
  const GroupCode: string := "***"

  /** The segments of group `k`: `E{k:02}` followed by eight "00". */
  function GroupSegs(k: nat): (r: seq<string>)
    ensures |r| == 9 && forall i :: 0 <= i < 9 ==> '.' !in r[i]
    ensures r[0] == "E" + TwoDigits(k) && forall i :: 1 <= i < 9 ==> r[i] == "00"
  {
    ["E" + TwoDigits(k)] + Zeros(8)
  }

  /** The account of group `k`. */
  function GroupAccount(k: nat): string {
    Join(GroupSegs(k), ".")
  }

  /** The accounts of the eleven groups. */
  function GroupAccounts(): (r: seq<string>)
    ensures |r| == |GroupNames| == 11
  {
    seq(11, k requires 0 <= k < 11 => GroupAccount(k))
  }

  /** The catalogue `__hacer_arbol__` searches: the accounts of one family
      followed by the group accounts. */
  function TreeCatalogue(accounts: seq<string>): (c: set<string>)
    ensures forall i :: 0 <= i < |accounts| ==> accounts[i] in c
    ensures forall k :: 0 <= k < 11 ==> GroupAccount(k) in c
  {
    var groups := GroupAccounts();
    assert forall k :: 0 <= k < 11 ==> groups[k] == GroupAccount(k);
    (set a | a in accounts) + (set a | a in groups)
  }

  /** Group 0 is the root, and the groups are the distinct accounts whose
      parent is the root: every group but the root goes straight to it, and
      the root is its own parent. */
  lemma GroupRoots(catalogue: set<string>, k: nat)
    requires k < 11
    requires GroupAccount(0) in catalogue
    ensures GroupSegs(0) == RootSegs
    ensures FindParentSegs(GroupSegs(k), catalogue) == Ok(RootSegs)
    ensures forall j :: 0 <= j < 11 && j != k ==> GroupAccount(j) != GroupAccount(k)
  {
    GroupZero();
    var segs := GroupSegs(k);
    TwoDigitsSmall(k);
    assert segs[0] == "E" + [DigitChar(k / 10), DigitChar(k % 10)];
    assert LastSet(segs, 9) == 0;
    StepShape(segs);
    forall j | 0 <= j < 11 && j != k
      ensures GroupAccount(j) != GroupAccount(k)
    {
      JoinSplit(GroupSegs(j), '.');
      JoinSplit(GroupSegs(k), '.');
      GroupHeadsDiffer(j, k);
    }
  }

  lemma GroupZero()
    ensures GroupSegs(0) == RootSegs
  {
    TwoDigitsSmall(0);
    assert "E" + TwoDigits(0) == "E00";
  }

  /** The groups have distinct first segments. */
  lemma GroupHeadsDiffer(j: nat, k: nat)
    requires j < 11 && k < 11 && j != k
    ensures GroupSegs(j)[0] != GroupSegs(k)[0]
  {
    TwoDigitsSmall(j);
    TwoDigitsSmall(k);
    assert TwoDigits(j) != TwoDigits(k) by {
      if j / 10 == k / 10 {
        assert TwoDigits(j)[1] != TwoDigits(k)[1];
      } else {
        assert TwoDigits(j)[0] != TwoDigits(k)[0];
      }
    }
    assert GroupSegs(j)[0][1..] == TwoDigits(j);
    assert GroupSegs(k)[0][1..] == TwoDigits(k);
  }

  /** The tree of a family terminates: every account of nine segments has a
      parent in the catalogue, because the root group is part of it. */
  lemma TreeParents(accounts: seq<string>, a: string)
    requires |Split(a, '.')| == 9
    ensures FindParent(a, TreeCatalogue(accounts)).Ok?
    ensures FindParent(a, TreeCatalogue(accounts)).value in TreeCatalogue(accounts)
  {
    var c := TreeCatalogue(accounts);
    GroupZero();
    assert GroupAccount(0) in c;
    assert Join(RootSegs, ".") == GroupAccount(0);
    FindParentTerminates(Split(a, '.'), c);
  }

  // ---------------------------------------------------------------------
  // Tree nodes: accounts of a family, labels, printed path, sub-accounts
  // ---------------------------------------------------------------------

  /** `cuenta.str[:-len(familia) - 1]`: the account without the family suffix
      and its separator (empty when the account is shorter than that). */
  function StripFamily(cuenta: string, familia: string): (r: string)
    ensures |r| == (if |familia| + 1 <= |cuenta| then |cuenta| - |familia| - 1 else 0)
    ensures IsPrefix(r, cuenta)
  {
    if |familia| + 1 <= |cuenta| then cuenta[..|cuenta| - |familia| - 1] else ""
  }

  /** Stripping the family from an account written as `account.familia`
      gives back the account, and the family is a suffix of it. */
  lemma StripFamilyRoundTrip(account: string, familia: string)
    ensures IsSuffix(familia, account + "." + familia)
    ensures StripFamily(account + "." + familia, familia) == account
  {
    var c := account + "." + familia;
    assert c[..|account|] == account;
    assert c[|c| - |familia|..] == familia;
  }

  /** The label of a tree node: the name, followed by ` [codigo]` unless the
      node is a group. */
  function NodeLabel(nombre: string, codigo: string): (r: string)
    ensures codigo == GroupCode ==> r == nombre
    ensures codigo != GroupCode ==> IsPrefix(nombre, r) && r[|nombre|..] == " [" + codigo + "]"
  {
    if codigo == GroupCode then nombre else nombre + " [" + codigo + "]"
  }

  /** The line `__print_node__` prints for path element `i`: a bar, three
      dashes per level (one level for the first element) and the name. */
  function PathLine(i: nat, name: string): string {
    "|" + Repeat('-', 3 * (i + 1)) + " " + name
  }

  /** The lines printed for a path, one per element, in path order. */
  function PrintNode(path: seq<string>): (lines: seq<string>)
    ensures |lines| == |path|
    ensures forall i :: 0 <= i < |path| ==> lines[i] == PathLine(i, path[i])
  {
    seq(|path|, i requires 0 <= i < |path| => PathLine(i, path[i]))
  }

  /** Each printed line shows its depth as `3 * (i + 1)` dashes between the
      bar and a space, and the name is the rest of the line: the line can be
      read back into depth and name. */
  lemma PathLineReadBack(path: seq<string>, i: nat)
    requires i < |path|
    ensures var line := PrintNode(path)[i];
      var n := 3 * (i + 1);
      |line| == n + 2 + |path[i]| &&
      line[0] == '|' && (forall j :: 1 <= j <= n ==> line[j] == '-') && line[n + 1] == ' ' &&
      line[n + 2..] == path[i]
  {
    var line := PrintNode(path)[i];
    var n := 3 * (i + 1);
    assert line == "|" + Repeat('-', n) + " " + path[i];
    assert forall j :: 1 <= j <= n ==> line[j] == Repeat('-', n)[j - 1];
  }

  /** `re.findall('\[([0-9]+)\]', s)`: scanning left to right, each '[' followed
      by one or more digits and a ']' gives the digits, and the scan resumes
      after the ']'; at any other position it moves on by one character. */
  function Brackets(s: string): (r: seq<string>)
    ensures forall i :: 0 <= i < |r| ==> |r[i]| > 0 && AllDigits(r[i]) && Contains(s, "[" + r[i] + "]")
    decreases |s|
  {
    if |s| == 0 then []
    else
      var n := DigitRun(s[1..]);
      if s[0] == '[' && n > 0 && n + 1 < |s| && s[n + 1] == ']' then
        var d := s[1..n + 1];
        var rest := Brackets(s[n + 2..]);
        assert s[..n + 2] == "[" + d + "]";
        assert forall i :: 0 <= i < |rest| ==> Contains(s, "[" + rest[i] + "]") by {
          forall i | 0 <= i < |rest|
            ensures Contains(s, "[" + rest[i] + "]")
          {
            ContainsSuffix(s, n + 2, "[" + rest[i] + "]");
          }
        }
        [d] + rest
      else
        var rest := Brackets(s[1..]);
        assert forall i :: 0 <= i < |rest| ==> Contains(s, "[" + rest[i] + "]") by {
          forall i | 0 <= i < |rest|
            ensures Contains(s, "[" + rest[i] + "]")
          {
            ContainsSuffix(s, 1, "[" + rest[i] + "]");
          }
        }
        rest
  }

  /** Characters without a bracket contribute nothing to the scan. */
  lemma {:induction false} BracketsSkip(a: string, b: string)
    requires '[' !in a
    ensures Brackets(a + b) == Brackets(b)
    decreases |a|
  {
    if |a| > 0 {
      assert (a + b)[0] == a[0] != '[';
      assert (a + b)[1..] == a[1..] + b;
      assert '[' !in a[1..] by {
        assert forall c :: c in a[1..] ==> c in a;
      }
      BracketsSkip(a[1..], b);
      assert Brackets(a + b) == Brackets((a + b)[1..]);
    } else {
      assert a + b == b;
    }
  }

  /** A bracketed code is found, and the scan goes on after it. */
  lemma BracketsCode(d: string, b: string)
    requires |d| > 0 && AllDigits(d)
    ensures Brackets("[" + d + "]" + b) == [d] + Brackets(b)
  {
    var s := "[" + d + "]" + b;
    assert s[1..] == d + ("]" + b);
    DigitRunOf(d, "]" + b);
    assert s[|d| + 1] == ']';
    assert s[1..|d| + 1] == d;
    assert s[|d| + 2..] == b;
  }

  /** One node of a rendered tree: the drawing in front of it, its name and
      its code. */
  datatype TreeLine = TreeLine(prefix: string, nombre: string, codigo: string)

  function LineText(l: TreeLine): string {
    l.prefix + NodeLabel(l.nombre, l.codigo)
  }

  /** The codes shown on a tree: those of the nodes that are not groups, in order. */
  function ShownCodes(lines: seq<TreeLine>): (r: seq<string>)
    ensures |r| <= |lines|
  {
    if |lines| == 0 then []
    else (if lines[0].codigo == GroupCode then [] else [lines[0].codigo]) + ShownCodes(lines[1..])
  }

  /** A tree whose drawing and names hold no '[' and whose nodes are groups
      or carry a numeric code. */
  predicate WellDrawn(lines: seq<TreeLine>) {
    forall i :: 0 <= i < |lines| ==> LineOk(lines[i])
  }

  predicate LineOk(l: TreeLine) {
    '[' !in l.prefix && '[' !in l.nombre && (l.codigo == GroupCode || (|l.codigo| > 0 && AllDigits(l.codigo)))
  }

  function LineTexts(lines: seq<TreeLine>): (r: seq<string>)
    ensures |r| == |lines| && forall i :: 0 <= i < |lines| ==> r[i] == LineText(lines[i])
  {
    seq(|lines|, i requires 0 <= i < |lines| => LineText(lines[i]))
  }

  /** `subcuentas`: the codes found in the rendered tree. */
  function Subcuentas(lines: seq<TreeLine>): seq<string> {
    Brackets(Join(LineTexts(lines), "\n"))
  }

  /** One line of the tree, followed by anything, gives its code (if any)
      and then the codes of what follows. */
  lemma LineBrackets(l: TreeLine, rest: string)
    requires LineOk(l)
    ensures Brackets(LineText(l) + rest) ==
            (if l.codigo == GroupCode then [] else [l.codigo]) + Brackets(rest)
  {
    var pn := l.prefix + l.nombre;
    assert '[' !in pn by {
      assert forall c :: c in pn ==> c in l.prefix || c in l.nombre;
    }
    if l.codigo == GroupCode {
      assert LineText(l) + rest == pn + rest;
      BracketsSkip(pn, rest);
    } else {
      CodedLineBrackets(pn, l.codigo, rest);
      assert LineText(l) + rest == pn + " [" + l.codigo + "]" + rest;
    }
  }

  lemma CodedLineBrackets(pn: string, codigo: string, rest: string)
    requires '[' !in pn && |codigo| > 0 && AllDigits(codigo)
    ensures Brackets(pn + " [" + codigo + "]" + rest) == [codigo] + Brackets(rest)
  {
    var tail := "[" + codigo + "]" + rest;
    assert pn + " [" + codigo + "]" + rest == (pn + " ") + tail;
    assert '[' !in pn + " " by {
      assert forall c :: c in pn + " " ==> c in pn || c == ' ';
    }
    BracketsSkip(pn + " ", tail);
    BracketsCode(codigo, rest);
  }

  /** `subcuentas` reads back exactly the codes of the non-group nodes of the
      tree, in order. */
  lemma {:induction false} SubcuentasShown(lines: seq<TreeLine>)
    requires WellDrawn(lines)
    ensures Subcuentas(lines) == ShownCodes(lines)
    decreases |lines|
  {
    if |lines| == 1 {
      LineBrackets(lines[0], "");
      assert LineText(lines[0]) + "" == LineText(lines[0]);
      assert ShownCodes(lines[1..]) == [];
    } else if |lines| > 1 {
      var texts := LineTexts(lines);
      assert texts[1..] == LineTexts(lines[1..]);
      LineBrackets(lines[0], "\n" + Join(texts[1..], "\n"));
      BracketsSkip("\n", Join(texts[1..], "\n"));
      assert LineText(lines[0]) + "\n" + Join(texts[1..], "\n") ==
             LineText(lines[0]) + ("\n" + Join(texts[1..], "\n"));
      SubcuentasShown(lines[1..]);
    }
  }

  // ---------------------------------------------------------------------
  // datos: unpacking the arguments, downloading, harmonising, renaming
  // ---------------------------------------------------------------------

  /** A positional argument of `datos`: one code, a list of codes, or a dict
      from code to the name the column should get (its items in order). */
  datatype Arg = One(item: Item) | ListArg(items: seq<Item>) | DictArg(pairs: seq<(Item, string)>)

  /** `hasattr(x, '__iter__')`: everything but an `int` is iterable. */
  predicate Iterable(a: Arg) {
    !(a.One? && a.item.IntItem?)
  }

  /** `[str(x) for x in a]` for an iterable argument: a `str` gives its
      characters, a list its items and a dict its keys. */
  function Elements(a: Arg): (r: seq<Option<string>>)
    ensures forall i :: 0 <= i < |r| ==> r[i].Some?
    ensures a.One? && a.item.StrItem? ==>
      |r| == |a.item.s| && forall i :: 0 <= i < |r| ==> r[i] == Some([a.item.s[i]])
    ensures a.One? && a.item.IntItem? ==> r == [Some(IntToString(a.item.n))]
    ensures a.ListArg? ==>
      |r| == |a.items| && forall i :: 0 <= i < |r| ==> r[i] == Some(ItemText(a.items[i]))
    ensures a.DictArg? ==>
      |r| == |a.pairs| && forall i :: 0 <= i < |r| ==> r[i] == Some(ItemText(a.pairs[i].0))
  {
    match a
    case One(item) =>
      (match item
       case StrItem(s) => seq(|s|, i requires 0 <= i < |s| => Some([s[i]]))
       case IntItem(n) => [Some(IntToString(n))])
    case ListArg(items) => seq(|items|, i requires 0 <= i < |items| => Some(ItemText(items[i])))
    case DictArg(pairs) => seq(|pairs|, i requires 0 <= i < |pairs| => Some(ItemText(pairs[i].0)))
  }

  /** `str(x)` for one positional argument; the text of a list or a dict is
      its printed form, which is no catalogue code (`None`). */
  function ArgText(a: Arg): Option<string> {
    match a
    case One(item) => Some(ItemText(item))
    case ListArg(_) => None
    case DictArg(_) => None
  }

  function ArgTexts(args: seq<Arg>): (r: seq<Option<string>>)
    ensures |r| == |args| && forall i :: 0 <= i < |args| ==> r[i] == ArgText(args[i])
  {
    seq(|args|, i requires 0 <= i < |args| => ArgText(args[i]))
  }

  /** The codes `datos` asks for, as written: a single iterable argument is
      unpacked, because the guard tests `type(Indicadores)`, the tuple of
      arguments, which is never a `str`; so a single `str` is unpacked into
      its characters. */
  function CodesAsWritten(args: seq<Arg>): seq<Option<string>> {
    if |args| == 1 && Iterable(args[0]) then Elements(args[0]) else ArgTexts(args)
  }

  /** The codes `datos` asks for, unpacking a single argument only when it is
      a list or a dict (the guard on `type(Indicadores[0])`). */
  function Codes(args: seq<Arg>): (r: seq<Option<string>>)
    ensures |args| == 1 && args[0].ListArg? ==> r == Elements(args[0])
    ensures |args| == 1 && args[0].DictArg? ==> r == Elements(args[0])
    ensures !(|args| == 1 && (args[0].ListArg? || args[0].DictArg?)) ==>
      |r| == |args| && forall i :: 0 <= i < |args| ==> r[i] == ArgText(args[i])
  {
    if |args| == 1 && (args[0].ListArg? || args[0].DictArg?) then Elements(args[0]) else ArgTexts(args)
  }

  /** A single `str` argument is split into its characters as written, and
      asked for as one code once corrected; on every other input the two
      agree. */
  lemma StringArgumentSplit()
    ensures CodesAsWritten([One(StrItem("317"))]) == [Some("3"), Some("1"), Some("7")]
    ensures Codes([One(StrItem("317"))]) == [Some("317")]
  {
    var r := CodesAsWritten([One(StrItem("317"))]);
    assert r == seq(3, i requires 0 <= i < 3 => Some(["317"[i]]));
    assert r[0] == Some("3") && r[1] == Some("1") && r[2] == Some("7");
  }

  lemma CodesAgree(args: seq<Arg>)
    requires !(|args| == 1 && args[0].One? && args[0].item.StrItem?)
    ensures CodesAsWritten(args) == Codes(args)
  {
  }

  /** The dict of column names when the argument was a dict: its `str` keys
      (a column is named by its code as text, so an `int` key renames nothing). */
  function StrKeys(pairs: seq<(Item, string)>): (r: seq<(string, string)>)
    ensures forall i :: 0 <= i < |r| ==> StrItem(r[i].0) in Keys(pairs)
    ensures forall i :: 0 <= i < |pairs| && pairs[i].0.StrItem? ==> pairs[i].0.s in Keys(r)
  {
    if |pairs| == 0 then []
    else
      var rest := StrKeys(pairs[1..]);
      var r := if pairs[0].0.StrItem? then [(pairs[0].0.s, pairs[0].1)] + rest else rest;
      StrKeysStep(pairs, rest, r);
      r
  }

  /** One step of `StrKeys`: the keys found in the tail stay keys. */
  lemma StrKeysStep(pairs: seq<(Item, string)>, rest: seq<(string, string)>, r: seq<(string, string)>)
    requires |pairs| > 0
    requires forall i :: 0 <= i < |rest| ==> StrItem(rest[i].0) in Keys(pairs[1..])
    requires forall i :: 0 <= i < |pairs[1..]| && pairs[1..][i].0.StrItem? ==> pairs[1..][i].0.s in Keys(rest)
    requires r == if pairs[0].0.StrItem? then [(pairs[0].0.s, pairs[0].1)] + rest else rest
    ensures forall i :: 0 <= i < |r| ==> StrItem(r[i].0) in Keys(pairs)
    ensures forall i :: 0 <= i < |pairs| && pairs[i].0.StrItem? ==> pairs[i].0.s in Keys(r)
  {
    var tail := pairs[1..];
    assert forall j :: 0 <= j < |tail| ==> Keys(pairs)[j + 1] == Keys(tail)[j];
    forall i | 0 <= i < |r|
      ensures StrItem(r[i].0) in Keys(pairs)
    {
      if pairs[0].0.StrItem? && i == 0 {
        assert Keys(pairs)[0] == StrItem(r[i].0);
      } else {
        var x := if pairs[0].0.StrItem? then rest[i - 1] else rest[i];
        assert x == r[i];
        assert StrItem(x.0) in Keys(tail);
      }
    }
    forall i | 0 <= i < |pairs| && pairs[i].0.StrItem?
      ensures pairs[i].0.s in Keys(r)
    {
      if i == 0 {
        assert Keys(r)[0] == pairs[0].0.s;
      } else {
        assert tail[i - 1] == pairs[i];
        assert pairs[i].0.s in Keys(rest);
        if pairs[0].0.StrItem? {
          assert Keys(r) == [pairs[0].0.s] + Keys(rest);
        }
      }
    }
  }

  /** The name of the column of `code`: renamed through the dict argument
      when there is one and it has the code as a `str` key. */
  function Label(renames: Option<seq<(Item, string)>>, code: string): string {
    match renames
    case None => code
    case Some(pairs) =>
      var names := StrKeys(pairs);
      if code in Keys(names) then LastValue(names, code) else code
  }

  /** The dict argument that renames the columns, if any. */
  function Renames(args: seq<Arg>): Option<seq<(Item, string)>> {
    if |args| == 1 && args[0].DictArg? then Some(args[0].pairs) else None
  }

  /** The keys of `{codigo: ... for codigo in cs}`: each code once, in order
      of first occurrence. */
  function Unique(cs: seq<string>): seq<string> {
    Keys(PutAll([], SelfPairs(cs)))
  }

  function SelfPairs(cs: seq<string>): (r: seq<(string, string)>)
    ensures |r| == |cs| && forall i :: 0 <= i < |cs| ==> r[i] == (cs[i], cs[i])
  {
    seq(|cs|, i requires 0 <= i < |cs| => (cs[i], cs[i]))
  }

  /** The catalogue frequency of a code. */
  function CatFreq(cat: map<string, string>): (f: string -> string)
    ensures forall c :: c in cat ==> f(c) == cat[c]
  {
    (c: string) => if c in cat then cat[c] else ""
  }

  /** One column of the result: its name, the code it was downloaded for and
      what harmonisation does to it. */
  datatype Column = Column(name: string, code: string, step: Step)

  /** Every requested code is a code of the catalogue (`indicadores.loc[codigo, 'freq']`). */
  predicate AllListed(codes: seq<Option<string>>, cat: map<string, string>) {
    forall i :: 0 <= i < |codes| ==> codes[i].Some? && codes[i].value in cat
  }

  function Values(codes: seq<Option<string>>): (cs: seq<string>)
    requires forall i :: 0 <= i < |codes| ==> codes[i].Some?
    ensures |cs| == |codes| && forall i :: 0 <= i < |codes| ==> cs[i] == codes[i].value
  {
    seq(|codes|, i requires 0 <= i < |codes| => codes[i].value)
  }

  /** `datos` after the codes are known: a code outside the catalogue is a
      `KeyError`; otherwise one column per distinct code, harmonised to a
      common frequency, and renamed when the argument was a dict. `func` is
      one aggregation for all series or a table by code. */
  function DatosFrom(cat: map<string, string>, codes: seq<Option<string>>,
                     renames: Option<seq<(Item, string)>>, freq: Option<string>,
                     func: FuncArg<string>): (r: Result<seq<Column>>)
    ensures !AllListed(codes, cat) ==> r == Err(KeyError)
    ensures AllListed(codes, cat) ==> (r.Ok? <==> Harmonise(Unique(Values(codes)), CatFreq(cat), freq, func).Ok?)
  {
    if !AllListed(codes, cat) then Err(KeyError)
    else
      var uniq := Unique(Values(codes));
      var steps :- Harmonise(uniq, CatFreq(cat), freq, func);
      HarmoniseLength(uniq, CatFreq(cat), freq, func);
      Ok(seq(|uniq|, i requires 0 <= i < |uniq| => Column(Label(renames, uniq[i]), uniq[i], steps[i])))
  }

  lemma HarmoniseLength(codes: seq<string>, freqOf: string -> string, freq: Option<string>, func: FuncArg<string>)
    requires Harmonise(codes, freqOf, freq, func).Ok?
    ensures |Harmonise(codes, freqOf, freq, func).value| == |codes|
  {
  }

  /** `ServicioWeb.datos`: a code outside the catalogue is a `KeyError`;
      otherwise every column is a catalogued code under its label. */
  function Datos(cat: map<string, string>, args: seq<Arg>, freq: Option<string>,
                 func: FuncArg<string>): (r: Result<seq<Column>>)
    ensures !AllListed(Codes(args), cat) ==> r == Err(KeyError)
    ensures r.Ok? ==> forall k :: 0 <= k < |r.value| ==>
      r.value[k].code in cat && r.value[k].name == Label(Renames(args), r.value[k].code)
  {
    var r := DatosFrom(cat, Codes(args), Renames(args), freq, func);
    if r.Ok? then DatosListed(cat, Codes(args), Renames(args), freq, func); r else r
  }

  /** `ServicioWeb.datos` as written, with the unpacking of a single `str`;
      on any other request it agrees with `Datos`. */
  function DatosAsWritten(cat: map<string, string>, args: seq<Arg>, freq: Option<string>,
                          func: FuncArg<string>): (r: Result<seq<Column>>)
    ensures !AllListed(CodesAsWritten(args), cat) ==> r == Err(KeyError)
    ensures !(|args| == 1 && args[0].One? && args[0].item.StrItem?) ==> r == Datos(cat, args, freq, func)
  {
    var r := DatosFrom(cat, CodesAsWritten(args), Renames(args), freq, func);
    if !(|args| == 1 && args[0].One? && args[0].item.StrItem?) then CodesAgree(args); r else r
  }

  /** Every column of `DatosFrom` is a catalogued code under its label. */
  lemma DatosListed(cat: map<string, string>, codes: seq<Option<string>>,
                    renames: Option<seq<(Item, string)>>, freq: Option<string>, func: FuncArg<string>)
    requires DatosFrom(cat, codes, renames, freq, func).Ok?
    ensures var cols := DatosFrom(cat, codes, renames, freq, func).value;
      forall k :: 0 <= k < |cols| ==> cols[k].code in cat && cols[k].name == Label(renames, cols[k].code)
  {
    var cols := DatosFrom(cat, codes, renames, freq, func).value;
    var cs := Values(codes);
    DatosColumns(cat, codes, renames, freq, func);
    forall k | 0 <= k < |cols|
      ensures cols[k].code in cat
    {
      assert ColumnCodes(cols)[k] in cs;
      var i :| 0 <= i < |cs| && cs[i] == cols[k].code;
    }
  }

  /** The codes of the columns, in order. */
  function ColumnCodes(cols: seq<Column>): (r: seq<string>)
    ensures |r| == |cols| && forall i :: 0 <= i < |cols| ==> r[i] == cols[i].code
  {
    seq(|cols|, i requires 0 <= i < |cols| => cols[i].code)
  }

  lemma SelfPairKeys(cs: seq<string>)
    ensures Keys(SelfPairs(cs)) == cs
  {
  }

  /** Position of the first request of code `c`. */
  function FirstRequest(cs: seq<string>, c: string): nat
    requires c in cs
  {
    SelfPairKeys(cs);
    FirstIndex(SelfPairs(cs), c)
  }

  /** The result has one column per distinct requested code, in the order the
      codes were first requested. */
  lemma DatosColumns(cat: map<string, string>, codes: seq<Option<string>>,
                     renames: Option<seq<(Item, string)>>, freq: Option<string>, func: FuncArg<string>)
    requires DatosFrom(cat, codes, renames, freq, func).Ok?
    ensures var cols := DatosFrom(cat, codes, renames, freq, func).value;
      var cs := Values(codes);
      var got := ColumnCodes(cols);
      Distinct(got) &&
      (forall i :: 0 <= i < |cs| ==> cs[i] in got) &&
      (forall j :: 0 <= j < |got| ==> got[j] in cs) &&
      (forall i, j :: 0 <= i < j < |got| ==> FirstRequest(cs, got[i]) < FirstRequest(cs, got[j]))
  {
    var cs := Values(codes);
    var pairs := SelfPairs(cs);
    var cols := DatosFrom(cat, codes, renames, freq, func).value;
    var got := ColumnCodes(cols);
    PutAllFromEmpty(pairs);
    SelfPairKeys(cs);
    assert got == Unique(cs);
    var d := PutAll([], pairs);
    forall j | 0 <= j < |got|
      ensures got[j] in cs
    {
      assert d[j].0 in Keys(pairs);
    }
    forall i | 0 <= i < |cs|
      ensures cs[i] in got
    {
      assert pairs[i].0 in Keys(d);
    }
  }

  /** A dict argument names each column after the value of its code as a
      `str` key, and leaves it named by its code otherwise; without a dict
      the columns are named by their codes. */
  lemma DatosNames(cat: map<string, string>, args: seq<Arg>, freq: Option<string>, func: FuncArg<string>, k: nat)
    requires Datos(cat, args, freq, func).Ok? && k < |Datos(cat, args, freq, func).value|
    ensures var col := Datos(cat, args, freq, func).value[k];
      (Renames(args).None? ==> col.name == col.code) &&
      (Renames(args).Some? ==>
        var pairs := args[0].pairs;
        (StrItem(col.code) in Keys(pairs) ==> col.name == LastValue(StrKeys(pairs), col.code)) &&
        (StrItem(col.code) !in Keys(pairs) ==> col.name == col.code))
  {
    var col := Datos(cat, args, freq, func).value[k];
    DatosLabel(cat, Codes(args), Renames(args), freq, func, k);
    if Renames(args).Some? {
      LabelOf(args[0].pairs, col.code);
    }
  }

  /** Each column is named by `Label`. */
  lemma DatosLabel(cat: map<string, string>, codes: seq<Option<string>>,
                   renames: Option<seq<(Item, string)>>, freq: Option<string>, func: FuncArg<string>, k: nat)
    requires DatosFrom(cat, codes, renames, freq, func).Ok? && k < |DatosFrom(cat, codes, renames, freq, func).value|
    ensures var col := DatosFrom(cat, codes, renames, freq, func).value[k];
      col.name == Label(renames, col.code)
  {
  }

  /** A dict renames a code exactly when it has the code as a `str` key. */
  lemma LabelOf(pairs: seq<(Item, string)>, code: string)
    ensures StrItem(code) in Keys(pairs) ==> Label(Some(pairs), code) == LastValue(StrKeys(pairs), code)
    ensures StrItem(code) !in Keys(pairs) ==> Label(Some(pairs), code) == code
  {
    var names := StrKeys(pairs);
    if StrItem(code) in Keys(pairs) {
      var i :| 0 <= i < |pairs| && Keys(pairs)[i] == StrItem(code);
      assert code in Keys(names);
    }
    if code in Keys(names) {
      var i :| 0 <= i < |names| && Keys(names)[i] == code;
    }
  }

  /** Every column is a catalogued series; a request for a single code is
      never converted, and in a mixed one every series ends at the target
      frequency: the one requested, else the lowest of the catalogue. */
  lemma DatosHarmonised(cat: map<string, string>, args: seq<Arg>, freq: Option<string>, func: FuncArg<string>, k: nat)
    requires Datos(cat, args, freq, func).Ok? && k < |Datos(cat, args, freq, func).value|
    ensures var cols := Datos(cat, args, freq, func).value;
      var codes := ColumnCodes(cols);
      cols[k].code in cat &&
      Harmonise(codes, CatFreq(cat), freq, func).Ok? &&
      Harmonise(codes, CatFreq(cat), freq, func).value[k] == cols[k].step &&
      (!Mixed(codes) ==> cols[k].step == Keep)
  {
    var codes := Codes(args);
    var cols := Datos(cat, args, freq, func).value;
    var uniq := Unique(Values(codes));
    assert ColumnCodes(cols) == uniq;
    assert cols[k].code in cat by {
      DatosColumns(cat, codes, Renames(args), freq, func);
      var i :| 0 <= i < |Values(codes)| && Values(codes)[i] == cols[k].code;
    }
    HarmoniseResult(uniq, CatFreq(cat), freq, func, k);
  }

  /** In a mixed request every column ends at the target frequency. */
  lemma DatosSameFrequency(cat: map<string, string>, args: seq<Arg>, freq: Option<string>, func: FuncArg<string>, k: nat)
    requires Datos(cat, args, freq, func).Ok? && k < |Datos(cat, args, freq, func).value|
    requires Mixed(ColumnCodes(Datos(cat, args, freq, func).value))
    ensures var cols := Datos(cat, args, freq, func).value;
      var target := Target(ColumnCodes(cols), CatFreq(cat), freq);
      cols[k].code in cat && target.Ok? && target.value.Some? &&
      FinalFreq(cat[cols[k].code], cols[k].step) == target.value.value
  {
    var cols := Datos(cat, args, freq, func).value;
    DatosHarmonised(cat, args, freq, func, k);
    HarmoniseResult(ColumnCodes(cols), CatFreq(cat), freq, func, k);
  }

  /** The split of a single `str` argument makes `datos("317")` fail with a
      `KeyError` on a catalogue holding the code 317, which the corrected
      unpacking downloads. */
  lemma DatosStringArgument()
    ensures DatosAsWritten(map["317" := "M"], [One(StrItem("317"))], None, NoFunc) == Err(KeyError)
    ensures Datos(map["317" := "M"], [One(StrItem("317"))], None, NoFunc).Ok?
  {
    var cat := map["317" := "M"];
    StringArgumentSplit();
    var split := CodesAsWritten([One(StrItem("317"))]);
    assert split[0] == Some("3");
    assert "3" != "317";
    assert split[0].value !in cat;
    var cs := Values([Some("317")]);
    assert cs == ["317"];
    assert Unique(cs) == ["317"];
    assert !Mixed(Unique(cs));
  }
}
