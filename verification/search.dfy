/**
 Catalogue search by description, shared by the chart-page catalogue
 (`PaginaWeb.buscar`, searching title and subtitle) and the web-service
 catalogue (`ServicioWeb.buscar`, searching the two description columns).

 Exactly one text mode is used, checked in the order phrase, all words, any
 word; the words are the pieces of `text.split(' ')`. Matching is a
 case-insensitive substring test on any of the searched fields. An optional
 frequency filter keeps the entries whose frequency code is the upper-cased
 first letter of the request, and is conjoined with the text match.
 */
module Search {
  import opened Common

  /** A catalogue row: its code, the fields searched, and its frequency code. */
  datatype Entry = Entry(code: string, fields: seq<string>, freq: string)

  /** The keyword arguments of `buscar`. */
  datatype Request = Request(frase: Option<string>, todos: Option<string>,
                             algunos: Option<string>, frecuencia: Option<string>)

  /** The text mode selected by a request. */
  datatype TextQuery = Phrase(phrase: string) | AllWords(words: seq<string>) | AnyWord(words: seq<string>)

  /** The first non-empty mode argument, in the order frase, todos, algunos;
      `None` when none is given (help is printed instead). */
  function Mode(req: Request): (m: Option<TextQuery>)
    ensures m.None? <==> !Given(req.frase) && !Given(req.todos) && !Given(req.algunos)
    ensures Given(req.frase) ==> m == Some(Phrase(req.frase.value))
    ensures !Given(req.frase) && Given(req.todos) ==> m == Some(AllWords(Split(req.todos.value, ' ')))
    ensures !Given(req.frase) && !Given(req.todos) && Given(req.algunos) ==>
      m == Some(AnyWord(Split(req.algunos.value, ' ')))
  {
    if Given(req.frase) then Some(Phrase(req.frase.value))
    else if Given(req.todos) then Some(AllWords(Split(req.todos.value, ' ')))
    else if Given(req.algunos) then Some(AnyWord(Split(req.algunos.value, ' ')))
    else None
  }

  /** `__buscar_frase__`: some searched field contains the phrase, ignoring case. */
  predicate PhraseIn(e: Entry, phrase: string) {
    exists i :: 0 <= i < |e.fields| && ContainsIgnoreCase(e.fields[i], phrase)
  }

  predicate TextMatch(q: TextQuery, e: Entry) {
    match q
    case Phrase(p) => PhraseIn(e, p)
    case AllWords(ws) => forall k :: 0 <= k < |ws| ==> PhraseIn(e, ws[k])
    case AnyWord(ws) => exists k :: 0 <= k < |ws| && PhraseIn(e, ws[k])
  }

  /** The frequency filter: the entry's code equals the upper-cased first letter. */
  predicate FreqMatch(e: Entry, frecuencia: Option<string>) {
    !Given(frecuencia) || e.freq == [UpperChar(frecuencia.value[0])]
  }

  predicate Selected(q: TextQuery, frecuencia: Option<string>, e: Entry) {
    TextMatch(q, e) && FreqMatch(e, frecuencia)
  }

  /** The row filter of a search. */
  function Selector(q: TextQuery, frecuencia: Option<string>): (p: Entry -> bool)
    ensures forall e :: p(e) <==> Selected(q, frecuencia, e)
  {
    e => Selected(q, frecuencia, e)
  }

  /** `buscar`: the catalogue rows that match, in catalogue order; `None` when no
      mode is given. */
  function Buscar(catalogue: seq<Entry>, req: Request): (r: Option<seq<Entry>>)
    ensures r.None? <==> Mode(req).None?
    ensures r.Some? ==> forall i :: 0 <= i < |r.value| ==>
      r.value[i] in catalogue && TextMatch(Mode(req).value, r.value[i]) && FreqMatch(r.value[i], req.frecuencia)
    ensures r.Some? ==> forall i :: 0 <= i < |catalogue| ==>
      (TextMatch(Mode(req).value, catalogue[i]) && FreqMatch(catalogue[i], req.frecuencia) ==> catalogue[i] in r.value)
    ensures r.Some? ==> SelectsInOrder(r.value, catalogue, Selector(Mode(req).value, req.frecuencia))
  {
    match Mode(req)
    case None => None
    case Some(q) =>
      FilterInOrder(catalogue, Selector(q, req.frecuencia));
      Some(Filter(catalogue, Selector(q, req.frecuencia)))
  }

  /** A single word searched as a phrase or as "all words" gives the same rows. */
  lemma PhraseIsOneWord(catalogue: seq<Entry>, w: string, frecuencia: Option<string>)
    requires |w| > 0 && ' ' !in w
    ensures Buscar(catalogue, Request(Some(w), None, None, frecuencia)) ==
            Buscar(catalogue, Request(None, Some(w), None, frecuencia))
  {
    SplitNoSep(w, ' ');
    var q1 := Phrase(w);
    var q2 := AllWords([w]);
    forall i | 0 <= i < |catalogue|
      ensures Selected(q1, frecuencia, catalogue[i]) == Selected(q2, frecuencia, catalogue[i])
    {
      assert TextMatch(q2, catalogue[i]) <==> PhraseIn(catalogue[i], [w][0]);
    }
    FilterCongruent(catalogue, Selector(q1, frecuencia), Selector(q2, frecuencia));
  }

  /** Every row found with "all words" is found with "any word" on the same
      text, as long as the text has at least one word. */
  lemma AllWordsWithinAnyWord(catalogue: seq<Entry>, text: string, frecuencia: Option<string>, i: nat)
    requires |text| > 0
    requires var r := Buscar(catalogue, Request(None, Some(text), None, frecuencia));
      r.Some? && i < |r.value|
    ensures Buscar(catalogue, Request(None, None, Some(text), frecuencia)).Some?
    ensures Buscar(catalogue, Request(None, Some(text), None, frecuencia)).value[i] in
            Buscar(catalogue, Request(None, None, Some(text), frecuencia)).value
  {
    var ws := Split(text, ' ');
    var e := Buscar(catalogue, Request(None, Some(text), None, frecuencia)).value[i];
    assert PhraseIn(e, ws[0]);
    assert TextMatch(AnyWord(ws), e);
    var k :| 0 <= k < |catalogue| && catalogue[k] == e;
  }

  /** The frequency filter only ever removes rows. */
  lemma FrequencyNarrows(catalogue: seq<Entry>, q: Request, i: nat)
    requires var r := Buscar(catalogue, q); r.Some? && i < |r.value|
    ensures var all := Buscar(catalogue, q.(frecuencia := None));
      all.Some? && Buscar(catalogue, q).value[i] in all.value
  {
    var e := Buscar(catalogue, q).value[i];
    var k :| 0 <= k < |catalogue| && catalogue[k] == e;
  }
}
