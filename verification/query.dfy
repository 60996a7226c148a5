/**
 URL query strings: an ordered list of `key=value` parameters joined by '&'
 after a fixed page address. Both chart-page URL builders produce this shape;
 `DecodeUrl` reads a URL back into its parameter list.
 */
module Query {
  import opened Common

  datatype Param = Param(key: string, value: string)

  function EncodeParam(p: Param): string {
    p.key + "=" + p.value
  }

  function EncodeParams(ps: seq<Param>): (r: seq<string>)
    ensures |r| == |ps|
    ensures forall i :: 0 <= i < |ps| ==> r[i] == EncodeParam(ps[i])
  {
    seq(|ps|, i requires 0 <= i < |ps| => EncodeParam(ps[i]))
  }

  /** `"&".join(f"{k}={v}" for k, v in params)`. */
  function EncodeQuery(ps: seq<Param>): string {
    Join(EncodeParams(ps), "&")
  }

  /** Keys and values of a well-formed parameter: a non-empty key, and neither
      part contains the two delimiters. */
  predicate CleanParam(p: Param) {
    |p.key| > 0 && '&' !in p.key && '=' !in p.key && '&' !in p.value && '=' !in p.value
  }

  predicate Clean(ps: seq<Param>) {
    forall i :: 0 <= i < |ps| ==> CleanParam(ps[i])
  }

  function DecodeParam(s: string): (r: Option<Param>)
    ensures r.Some? ==> '=' !in r.value.key && '=' !in r.value.value
  {
    var parts := Split(s, '=');
    if |parts| == 2 then Some(Param(parts[0], parts[1])) else None
  }

  function DecodeParams(pieces: seq<string>): Option<seq<Param>> {
    if |pieces| == 0 then Some([])
    else match (DecodeParam(pieces[0]), DecodeParams(pieces[1..]))
      case (Some(p), Some(ps)) => Some([p] + ps)
      case _ => None
  }

  /** The parameters of a query string; `None` when some piece is not `key=value`. */
  function DecodeQuery(q: string): Option<seq<Param>> {
    if q == "" then Some([]) else DecodeParams(Split(q, '&'))
  }

  /** The parameters of a URL built on the page address `page`. */
  function DecodeUrl(page: string, url: string): Option<seq<Param>> {
    if IsPrefix(page, url) then DecodeQuery(url[|page|..]) else None
  }

  lemma DecodeEncodeParam(p: Param)
    requires CleanParam(p)
    ensures DecodeParam(EncodeParam(p)) == Some(p)
  {
    JoinSplit([p.key, p.value], '=');
    assert Join([p.key, p.value], "=") == EncodeParam(p);
  }

  lemma {:induction false} DecodeEncodeParams(ps: seq<Param>)
    requires Clean(ps)
    ensures DecodeParams(EncodeParams(ps)) == Some(ps)
  {
    if |ps| > 0 {
      DecodeEncodeParam(ps[0]);
      DecodeEncodeParams(ps[1..]);
      assert EncodeParams(ps)[1..] == EncodeParams(ps[1..]);
      assert [ps[0]] + ps[1..] == ps;
    }
  }

  /** Decoding an encoded query gives back the parameters, keys and values
      and order alike. */
  lemma QueryRoundTrip(ps: seq<Param>)
    requires Clean(ps)
    ensures DecodeQuery(EncodeQuery(ps)) == Some(ps)
  {
    var pieces := EncodeParams(ps);
    if |ps| == 0 {
    } else {
      forall i | 0 <= i < |pieces|
        ensures '&' !in pieces[i]
      {
        assert pieces[i] == ps[i].key + "=" + ps[i].value;
      }
      JoinSplit(pieces, '&');
      assert |pieces[0]| > 0;
      assert EncodeQuery(ps) != "" by {
        JoinLength(pieces, "&");
      }
      DecodeEncodeParams(ps);
    }
  }

  lemma {:induction false} JoinLength(parts: seq<string>, sep: string)
    requires |parts| > 0
    ensures |Join(parts, sep)| >= |parts[0]|
  {
  }

  /** A URL made of a page address and an encoded query decodes back to its
      parameters. */
  lemma UrlRoundTrip(page: string, ps: seq<Param>)
    requires Clean(ps)
    ensures DecodeUrl(page, page + EncodeQuery(ps)) == Some(ps)
  {
    var url := page + EncodeQuery(ps);
    assert url[..|page|] == page;
    assert url[|page|..] == EncodeQuery(ps);
    QueryRoundTrip(ps);
  }

  /** The keys of a parameter list. */
  function ParamKeys(ps: seq<Param>): (r: seq<string>)
    ensures |r| == |ps|
    ensures forall i :: 0 <= i < |ps| ==> r[i] == ps[i].key
  {
    seq(|ps|, i requires 0 <= i < |ps| => ps[i].key)
  }

  /** Whether a URL built on `page` carries a parameter named `key`. */
  predicate HasParam(page: string, url: string, key: string) {
    DecodeUrl(page, url).Some? && key in ParamKeys(DecodeUrl(page, url).value)
  }
}
