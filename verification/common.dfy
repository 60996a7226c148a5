/**
 Shared vocabulary for the model: failure-carrying results, the Python
 exceptions the modelled code raises, the string operations it relies on
 (ASCII case folding, substring search, splitting and joining, decimal
 conversion of integers) and the insertion-ordered dictionary semantics of
 Python's `dict`.
 */
module Common {

  datatype Option<+T> = None | Some(value: T) {
    function GetOr(default: T): T {
      match this
      case Some(v) => v
      case None => default
    }
  }

  /** The Python exceptions the modelled code can raise. */
  datatype Error = IndexError | ValueError | KeyError | TypeError | NotImplemented | RecursionError

  datatype Result<+T> = Ok(value: T) | Err(error: Error) {
    predicate IsFailure() { Err? }
    function PropagateFailure<U>(): Result<U>
      requires Err?
    {
      Err(error)
    }
    function Extract(): T
      requires Ok?
    {
      value
    }
  }

  /** A Python value that is "given": not `None` and not the empty string. */
  predicate Given(s: Option<string>) {
    s.Some? && s.value != ""
  }

  // ---------------------------------------------------------------------
  // Characters and case folding (ASCII only)
  // ---------------------------------------------------------------------

  predicate IsDigit(c: char) { '0' <= c <= '9' }

  /** A non-empty word of ASCII letters. */
  predicate Letters(s: string) {
    |s| > 0 && forall i :: 0 <= i < |s| ==> 'A' <= s[i] <= 'Z' || 'a' <= s[i] <= 'z'
  }

  predicate AllDigits(s: string) {
    forall i :: 0 <= i < |s| ==> IsDigit(s[i])
  }

  function LowerChar(c: char): char {
    if 'A' <= c <= 'Z' then (c as int + 32) as char else c
  }

  function UpperChar(c: char): char {
    if 'a' <= c <= 'z' then (c as int - 32) as char else c
  }

  function Lower(s: string): (r: string)
    ensures |r| == |s|
    ensures forall i :: 0 <= i < |s| ==> r[i] == LowerChar(s[i])
  {
    if |s| == 0 then "" else [LowerChar(s[0])] + Lower(s[1..])
  }

  function Upper(s: string): (r: string)
    ensures |r| == |s|
    ensures forall i :: 0 <= i < |s| ==> r[i] == UpperChar(s[i])
  {
    if |s| == 0 then "" else [UpperChar(s[0])] + Upper(s[1..])
  }

  // ---------------------------------------------------------------------
  // Prefixes, suffixes and substrings
  // ---------------------------------------------------------------------

  predicate IsPrefix(p: string, s: string) {
    |p| <= |s| && s[..|p|] == p
  }

  predicate IsSuffix(p: string, s: string) {
    |p| <= |s| && s[|s| - |p|..] == p
  }

  /** Concatenation regroups: a named step for the solver in the longer
      proofs about strings built piece by piece. */
  lemma Assoc(a: string, b: string, c: string)
    ensures a + (b + c) == a + b + c
  {
  }

  /** `sub in s`, Python's substring test. */
  predicate Contains(s: string, sub: string)
    decreases |s|
  {
    IsPrefix(sub, s) || (|s| > 0 && Contains(s[1..], sub))
  }

  /** Substring test that ignores (ASCII) case, as `re.IGNORECASE` / `case=False` do. */
  predicate ContainsIgnoreCase(s: string, sub: string) {
    Contains(Lower(s), Lower(sub))
  }

  /** An occurrence of `sub` at position `i` makes `Contains` true. */
  lemma {:induction false} ContainsAt(s: string, sub: string, i: nat)
    requires i + |sub| <= |s| && s[i..i + |sub|] == sub
    ensures Contains(s, sub)
    decreases i
  {
    if i == 0 {
      assert s[..|sub|] == sub;
    } else {
      assert s[1..][i - 1..i - 1 + |sub|] == sub;
      ContainsAt(s[1..], sub, i - 1);
    }
  }

  /** The first position at which `sub` occurs in `s`. */
  function FirstOccurrence(s: string, sub: string): (i: nat)
    requires Contains(s, sub)
    ensures i + |sub| <= |s| && s[i..i + |sub|] == sub
    decreases |s|
  {
    if IsPrefix(sub, s) then 0
    else
      var j := FirstOccurrence(s[1..], sub);
      SliceShift(s, j, |sub|);
      j + 1
  }

  lemma SliceShift(s: string, j: nat, n: nat)
    requires |s| > 0 && j + n <= |s| - 1
    ensures s[j + 1..j + 1 + n] == s[1..][j..j + n]
  {
    var t := s[1..];
    var a, b := s[j + 1..j + 1 + n], t[j..j + n];
    assert |a| == n == |b|;
    forall i | 0 <= i < n
      ensures a[i] == b[i]
    {
      assert t[j + i] == s[j + 1 + i];
    }
  }

  /** `sub` occurs in `s` starting at position `i`. */
  predicate OccursAt(s: string, sub: string, i: nat) {
    i + |sub| <= |s| && s[i..i + |sub|] == sub
  }

  /** `Contains` holds exactly when `sub` occurs at some position of `s`. */
  lemma ContainsIff(s: string, sub: string)
    ensures Contains(s, sub) <==> exists i: nat :: OccursAt(s, sub, i)
  {
    if Contains(s, sub) {
      var i := FirstOccurrence(s, sub);
      assert OccursAt(s, sub, i);
    }
    if exists i: nat :: OccursAt(s, sub, i) {
      var i: nat :| OccursAt(s, sub, i);
      ContainsAt(s, sub, i);
    }
  }

  /** The middle part of a concatenation is a substring of it. */
  lemma ContainsMiddle(a: string, b: string, c: string)
    ensures Contains(a + b + c, b)
  {
    assert (a + b + c)[|a|..|a| + |b|] == b;
    ContainsAt(a + b + c, b, |a|);
  }

  /** A substring of a suffix is a substring of the whole. */
  lemma {:induction false} ContainsSuffix(s: string, k: nat, sub: string)
    requires k <= |s| && Contains(s[k..], sub)
    ensures Contains(s, sub)
    decreases k
  {
    if k > 0 {
      assert s[1..][k - 1..] == s[k..];
      ContainsSuffix(s[1..], k - 1, sub);
    }
  }

  /** The empty string is a substring of every string (so `''.split` pieces always match). */
  lemma EmptyContained(s: string)
    ensures Contains(s, "")
  {
    assert IsPrefix("", s);
  }

  // ---------------------------------------------------------------------
  // Character replacement, repetition
  // ---------------------------------------------------------------------

  /** `s.replace(a, b)` for single characters. */
  function ReplaceChar(s: string, a: char, b: char): (r: string)
    ensures |r| == |s|
    ensures forall i :: 0 <= i < |s| ==> r[i] == (if s[i] == a then b else s[i])
  {
    if |s| == 0 then "" else [if s[0] == a then b else s[0]] + ReplaceChar(s[1..], a, b)
  }

  /** `c * n` for a one-character string `c`. */
  function Repeat(c: char, n: nat): (r: string)
    ensures |r| == n
    ensures forall i :: 0 <= i < n ==> r[i] == c
  {
    if n == 0 then "" else [c] + Repeat(c, n - 1)
  }

  // ---------------------------------------------------------------------
  // Splitting and joining
  // ---------------------------------------------------------------------

  /** `s.split(c)`: the pieces between occurrences of `c`, empty pieces kept. */
  function Split(s: string, c: char): (r: seq<string>)
    ensures |r| > 0
    ensures forall i :: 0 <= i < |r| ==> c !in r[i]
    decreases |s|
  {
    if |s| == 0 then [""]
    else
      var rest := Split(s[1..], c);
      if s[0] == c then [""] + rest
      else [[s[0]] + rest[0]] + rest[1..]
  }

  /** `sep.join(parts)`. */
  function Join(parts: seq<string>, sep: string): string {
    if |parts| == 0 then ""
    else if |parts| == 1 then parts[0]
    else parts[0] + sep + Join(parts[1..], sep)
  }

  /** Joining the pieces of a split with the separator gives back the string. */
  lemma {:induction false} SplitJoin(s: string, c: char)
    ensures Join(Split(s, c), [c]) == s
    decreases |s|
  {
    if |s| > 0 {
      SplitJoin(s[1..], c);
      var rest := Split(s[1..], c);
      if s[0] == c {
        assert Split(s, c) == [""] + rest;
        assert [s[0]] + s[1..] == s;
      } else {
        var r := Split(s, c);
        assert r == [[s[0]] + rest[0]] + rest[1..];
        if |rest| == 1 {
          assert Join(rest, [c]) == rest[0];
          assert [s[0]] + rest[0] == s;
        } else {
          assert r[1..] == rest[1..];
          assert Join(rest, [c]) == rest[0] + [c] + Join(rest[1..], [c]);
          assert [s[0]] + (rest[0] + [c] + Join(rest[1..], [c])) == s;
        }
      }
    }
  }

  /** A string without the separator splits into itself alone. */
  lemma {:induction false} SplitNoSep(s: string, c: char)
    requires c !in s
    ensures Split(s, c) == [s]
    decreases |s|
  {
    if |s| > 0 {
      SplitNoSep(s[1..], c);
      assert [s[0]] + s[1..] == s;
    }
  }

  /** Splitting `p + c + rest` cuts off `p` as the first piece when `p` has no `c`. */
  lemma {:induction false} SplitAfterPiece(p: string, rest: string, c: char)
    requires c !in p
    ensures Split(p + [c] + rest, c) == [p] + Split(rest, c)
    decreases |p|
  {
    var s := p + [c] + rest;
    if |p| == 0 {
      assert s == [c] + rest;
      assert s[1..] == rest;
    } else {
      assert s[1..] == p[1..] + [c] + rest;
      SplitAfterPiece(p[1..], rest, c);
      assert [p[0]] + p[1..] == p;
    }
  }

  /** Splitting a join on its separator gives back the pieces, provided no piece
      contains the separator. */
  lemma {:induction false} JoinSplit(parts: seq<string>, c: char)
    requires |parts| > 0
    requires forall i :: 0 <= i < |parts| ==> c !in parts[i]
    ensures Split(Join(parts, [c]), c) == parts
    decreases |parts|
  {
    if |parts| == 1 {
      SplitNoSep(parts[0], c);
    } else {
      JoinSplit(parts[1..], c);
      SplitAfterPiece(parts[0], Join(parts[1..], [c]), c);
      assert parts == [parts[0]] + parts[1..];
    }
  }

  /** The elements of `xs` that satisfy `p`, in their original order. */
  function Filter<T>(xs: seq<T>, p: T -> bool): (r: seq<T>)
    ensures |r| <= |xs|
    ensures forall i :: 0 <= i < |r| ==> r[i] in xs && p(r[i])
    ensures forall i :: 0 <= i < |xs| && p(xs[i]) ==> xs[i] in r
  {
    if |xs| == 0 then []
    else if p(xs[0]) then [xs[0]] + Filter(xs[1..], p)
    else Filter(xs[1..], p)
  }

  /** Filters by predicates that agree on every element give the same result. */
  lemma {:induction false} FilterCongruent<T>(xs: seq<T>, p: T -> bool, q: T -> bool)
    requires forall i :: 0 <= i < |xs| ==> p(xs[i]) == q(xs[i])
    ensures Filter(xs, p) == Filter(xs, q)
  {
    if |xs| > 0 {
      FilterCongruent(xs[1..], p, q);
    }
  }

  /** The positions from `from` on of the elements of `xs` that satisfy `p`:
      increasing, and exactly those positions. */
  function MatchingFrom<T>(xs: seq<T>, p: T -> bool, from: nat): (ks: seq<nat>)
    requires from <= |xs|
    ensures forall a :: 0 <= a < |ks| ==> from <= ks[a] < |xs| && p(xs[ks[a]])
    ensures forall a, b :: 0 <= a < b < |ks| ==> ks[a] < ks[b]
    ensures forall i :: from <= i < |xs| && p(xs[i]) ==> i in ks
    decreases |xs| - from
  {
    if from == |xs| then []
    else (if p(xs[from]) then [from] else []) + MatchingFrom(xs, p, from + 1)
  }

  function Matching<T>(xs: seq<T>, p: T -> bool): (ks: seq<nat>)
    ensures forall a :: 0 <= a < |ks| ==> ks[a] < |xs| && p(xs[ks[a]])
    ensures forall a, b :: 0 <= a < b < |ks| ==> ks[a] < ks[b]
    ensures forall i :: 0 <= i < |xs| && p(xs[i]) ==> i in ks
  {
    MatchingFrom(xs, p, 0)
  }

  /** `r` lists, in their original order and each once, exactly the elements
      of `xs` that satisfy `p`. */
  ghost predicate SelectsInOrder<T>(r: seq<T>, xs: seq<T>, p: T -> bool) {
    var ks := Matching(xs, p);
    |r| == |ks| && forall a :: 0 <= a < |r| ==> r[a] == xs[ks[a]]
  }

  /** `r` lists the elements of `xs` at positions `ks`. */
  ghost predicate Picks<T>(r: seq<T>, xs: seq<T>, ks: seq<nat>) {
    |r| == |ks| && forall a :: 0 <= a < |r| ==> ks[a] < |xs| && r[a] == xs[ks[a]]
  }

  lemma {:induction false} PicksCons<T>(r: seq<T>, xs: seq<T>, ks: seq<nat>, i: nat)
    requires Picks(r, xs, ks) && i < |xs|
    ensures Picks([xs[i]] + r, xs, [i] + ks)
  {
    forall a | 1 <= a < |r| + 1
      ensures ([xs[i]] + r)[a] == r[a - 1] && ([i] + ks)[a] == ks[a - 1]
    {
    }
  }

  /** Filtering the elements from `from` on picks them at `MatchingFrom`. */
  lemma {:induction false} FilterFrom<T>(xs: seq<T>, p: T -> bool, from: nat)
    requires from <= |xs|
    ensures Picks(Filter(xs[from..], p), xs, MatchingFrom(xs, p, from))
    decreases |xs| - from
  {
    if from < |xs| {
      FilterFrom(xs, p, from + 1);
      var rest, later := Filter(xs[from + 1..], p), MatchingFrom(xs, p, from + 1);
      assert xs[from..][1..] == xs[from + 1..];
      assert xs[from..][0] == xs[from];
      if p(xs[from]) {
        PicksCons(rest, xs, later, from);
      } else {
        assert [] + later == later;
      }
    }
  }

  /** `Filter` keeps the matching elements in their original order. */
  lemma FilterInOrder<T>(xs: seq<T>, p: T -> bool)
    ensures SelectsInOrder(Filter(xs, p), xs, p)
  {
    FilterFrom(xs, p, 0);
    assert xs[0..] == xs;
  }

  /** Python's position `i` in a sequence of length `n`: a negative position
      counts from the end; `None` is the `IndexError` of an out-of-range position. */
  function PyIndex(n: nat, i: int): (r: Option<nat>)
    ensures r.None? <==> i >= n || i < -(n as int)
    ensures r.Some? ==> r.value < n && r.value as int == (if i < 0 then n + i else i)
  {
    if 0 <= i < n then Some(i) else if -(n as int) <= i < 0 then Some(n + i) else None
  }

  /** Every non-empty substring starts with a character of the string. */
  lemma {:induction false} ContainsFirstChar(s: string, sub: string)
    requires Contains(s, sub) && |sub| > 0
    ensures sub[0] in s
    decreases |s|
  {
    if !IsPrefix(sub, s) {
      ContainsFirstChar(s[1..], sub);
    }
  }

  /** Python's whitespace set for `str.split()` restricted to ASCII. */
  predicate IsSpace(c: char) {
    c == ' ' || c == '\t' || c == '\n' || c == '\r' || c == '\U{000B}' || c == '\U{000C}'
  }

  /** `s.split()`: maximal runs of non-whitespace characters, in order. */
  function Words(s: string): (r: seq<string>)
    ensures forall i :: 0 <= i < |r| ==> |r[i]| > 0
    ensures forall i, j :: 0 <= i < |r| && 0 <= j < |r[i]| ==> !IsSpace(r[i][j])
    decreases |s|
  {
    if |s| == 0 then []
    else if IsSpace(s[0]) then Words(s[1..])
    else
      var n := WordLength(s);
      [s[..n]] + Words(s[n..])
  }

  function WordLength(s: string): (n: nat)
    requires |s| > 0 && !IsSpace(s[0])
    ensures 0 < n <= |s|
    ensures forall i :: 0 <= i < n ==> !IsSpace(s[i])
    ensures n < |s| ==> IsSpace(s[n])
  {
    if |s| == 1 || IsSpace(s[1]) then 1 else 1 + WordLength(s[1..])
  }

  /** A string with no whitespace splits into itself alone (or nothing if empty). */
  lemma {:induction false} WordsOfWord(s: string)
    requires forall i :: 0 <= i < |s| ==> !IsSpace(s[i])
    ensures Words(s) == (if s == "" then [] else [s])
  {
    if |s| > 0 {
      var n := WordLength(s);
      assert n == |s|;
      assert s[..n] == s;
      assert Words(s[n..]) == [];
    }
  }

  // ---------------------------------------------------------------------
  // Decimal conversion: Python's `str(n)` and `int(s)`
  // ---------------------------------------------------------------------

  function DigitChar(d: nat): char
    requires d < 10
  {
    ('0' as int + d) as char
  }

  function DigitValue(c: char): nat
    requires IsDigit(c)
  {
    c as int - '0' as int
  }

  /** `str(n)` for a natural number: shortest decimal spelling. */
  function NatToString(n: nat): (r: string)
    ensures |r| > 0 && AllDigits(r)
    ensures r[0] == '0' ==> n == 0
  {
    if n < 10 then [DigitChar(n)] else NatToString(n / 10) + [DigitChar(n % 10)]
  }

  /** `str(i)` for an integer. */
  function IntToString(i: int): (r: string)
    ensures |r| > 0
    ensures forall k :: 0 <= k < |r| ==> IsDigit(r[k]) || r[k] == '-'
  {
    if i < 0 then "-" + NatToString(-i) else NatToString(i)
  }

  /** The value of a non-empty digit string. */
  function DigitsValue(s: string): nat
    requires AllDigits(s)
  {
    if |s| == 0 then 0 else 10 * DigitsValue(s[..|s| - 1]) + DigitValue(s[|s| - 1])
  }

  /** `int(s)` for strings of decimal digits with an optional leading minus sign;
      anything else raises `ValueError` (modelled as `None`). */
  function ParseInt(s: string): (r: Option<int>)
    ensures r.Some? ==> |s| > 0
    ensures AllDigits(s) && |s| > 0 ==> r == Some(DigitsValue(s) as int)
  {
    if |s| > 0 && AllDigits(s) then Some(DigitsValue(s) as int)
    else if |s| > 1 && s[0] == '-' && AllDigits(s[1..]) then Some(-(DigitsValue(s[1..]) as int))
    else None
  }

  lemma {:induction false} NatToStringValue(n: nat)
    ensures DigitsValue(NatToString(n)) == n
  {
    var s := NatToString(n);
    if n >= 10 {
      NatToStringValue(n / 10);
      assert s[..|s| - 1] == NatToString(n / 10);
    }
  }

  /** Reading back the decimal spelling of an integer gives the integer. */
  lemma IntRoundTrip(i: int)
    ensures ParseInt(IntToString(i)) == Some(i)
  {
    if i < 0 {
      var s := IntToString(i);
      assert s[1..] == NatToString(-i);
      NatToStringValue(-i);
      assert !AllDigits(s) by { assert !IsDigit(s[0]); }
    } else {
      NatToStringValue(i);
    }
  }

  // ---------------------------------------------------------------------
  // Python dict: insertion-ordered association lists
  // ---------------------------------------------------------------------

  function Keys<K, V>(d: seq<(K, V)>): (r: seq<K>)
    ensures |r| == |d|
    ensures forall i :: 0 <= i < |d| ==> r[i] == d[i].0
  {
    if |d| == 0 then [] else [d[0].0] + Keys(d[1..])
  }

  predicate Distinct<T(==)>(xs: seq<T>) {
    forall i, j :: 0 <= i < j < |xs| ==> xs[i] != xs[j]
  }

  /** `d[k] = v`: an existing key keeps its position and takes the new value;
      a new key goes to the end. */
  function Put<K(==), V>(d: seq<(K, V)>, k: K, v: V): (r: seq<(K, V)>)
    ensures |r| == |d| + (if k in Keys(d) then 0 else 1)
  {
    if |d| == 0 then [(k, v)]
    else if d[0].0 == k then [(k, v)] + d[1..]
    else [d[0]] + Put(d[1..], k, v)
  }

  /** Each key paired with the empty text, as the pairs of `{k: '' for k in keys}`. */
  function Blank<K>(keys: seq<K>): (r: seq<(K, string)>)
    ensures |r| == |keys| && forall i :: 0 <= i < |keys| ==> r[i] == (keys[i], "")
  {
    seq(|keys|, i requires 0 <= i < |keys| => (keys[i], ""))
  }

  /** Assigning the pairs one after the other, as a loop `for k, v in pairs: d[k] = v`. */
  function PutAll<K(==), V>(d: seq<(K, V)>, pairs: seq<(K, V)>): seq<(K, V)>
    decreases |pairs|
  {
    if |pairs| == 0 then d else PutAll(Put(d, pairs[0].0, pairs[0].1), pairs[1..])
  }

  /** Position of the first pair with key `k`. */
  function FirstIndex<K(==), V>(ps: seq<(K, V)>, k: K): (i: nat)
    requires k in Keys(ps)
    ensures i < |ps| && ps[i].0 == k
    ensures forall j :: 0 <= j < i ==> ps[j].0 != k
  {
    if ps[0].0 == k then 0 else 1 + FirstIndex(ps[1..], k)
  }

  /** The value paired with `k` in the LAST pair that has key `k`. */
  function LastValue<K(==), V>(ps: seq<(K, V)>, k: K): V
    requires k in Keys(ps)
  {
    var n := |ps| - 1;
    if ps[n].0 == k then ps[n].1
    else
      assert k in Keys(ps[..n]) by {
        var i :| 0 <= i < |ps| && Keys(ps)[i] == k;
        assert Keys(ps[..n])[i] == k;
      }
      LastValue(ps[..n], k)
  }

  /** When every assignment stores `v`, every key ends up holding `v`. */
  lemma {:induction false} LastValueConst<K, V>(ps: seq<(K, V)>, k: K, v: V)
    requires k in Keys(ps)
    requires forall i :: 0 <= i < |ps| ==> ps[i].1 == v
    ensures LastValue(ps, k) == v
    decreases |ps|
  {
    var n := |ps| - 1;
    if ps[n].0 != k {
      assert k in Keys(ps[..n]) by {
        var i :| 0 <= i < |ps| && Keys(ps)[i] == k;
        assert Keys(ps[..n])[i] == k;
      }
      LastValueConst(ps[..n], k, v);
    }
  }

  /** One assignment `d[k] = v` on a dict with distinct keys. */
  lemma {:induction false} PutFacts<K, V>(d: seq<(K, V)>, k: K, v: V)
    requires Distinct(Keys(d))
    ensures Keys(Put(d, k, v)) == if k in Keys(d) then Keys(d) else Keys(d) + [k]
    ensures Distinct(Keys(Put(d, k, v)))
    ensures forall i :: 0 <= i < |Put(d, k, v)| ==>
      Put(d, k, v)[i] == if Put(d, k, v)[i].0 == k then (k, v) else d[i]
  {
    if |d| > 0 {
      assert Keys(d) == [d[0].0] + Keys(d[1..]);
      if d[0].0 != k {
        PutFacts(d[1..], k, v);
        assert Keys(Put(d, k, v)) == [d[0].0] + Keys(Put(d[1..], k, v));
      } else {
        assert Keys(Put(d, k, v)) == [k] + Keys(d[1..]);
      }
    }
  }

  lemma {:induction false} PutAllSnoc<K, V>(d: seq<(K, V)>, pairs: seq<(K, V)>, p: (K, V))
    ensures PutAll(d, pairs + [p]) == Put(PutAll(d, pairs), p.0, p.1)
    decreases |pairs|
  {
    if |pairs| > 0 {
      assert (pairs + [p])[1..] == pairs[1..] + [p];
      PutAllSnoc(Put(d, pairs[0].0, pairs[0].1), pairs[1..], p);
    }
  }

  lemma KeysSnoc<K, V>(ps: seq<(K, V)>, p: (K, V))
    ensures Keys(ps + [p]) == Keys(ps) + [p.0]
  {
  }

  lemma {:induction false} FirstIndexExtend<K, V>(ps: seq<(K, V)>, p: (K, V), k: K)
    requires k in Keys(ps + [p])
    ensures k in Keys(ps) ==> FirstIndex(ps + [p], k) == FirstIndex(ps, k)
    ensures k !in Keys(ps) ==> FirstIndex(ps + [p], k) == |ps|
  {
    KeysSnoc(ps, p);
    if k in Keys(ps) {
      var j := FirstIndex(ps, k);
      assert (ps + [p])[j].0 == k;
    }
  }

  /** Every key of the pairs ends up in the dict, and only those. */
  ghost predicate SameKeys<K, V>(d: seq<(K, V)>, pairs: seq<(K, V)>) {
    && (forall i :: 0 <= i < |pairs| ==> pairs[i].0 in Keys(d))
    && (forall i :: 0 <= i < |d| ==> d[i].0 in Keys(pairs))
  }

  /** Each key holds the value of its last assignment. */
  ghost predicate LastWins<K, V>(d: seq<(K, V)>, pairs: seq<(K, V)>)
    requires SameKeys(d, pairs)
  {
    forall i :: 0 <= i < |d| ==> d[i].1 == LastValue(pairs, d[i].0)
  }

  /** Keys are listed in the order of their first assignment. */
  ghost predicate FirstOrder<K, V>(d: seq<(K, V)>, pairs: seq<(K, V)>)
    requires SameKeys(d, pairs)
  {
    forall i, j :: 0 <= i < j < |d| ==> FirstIndex(pairs, d[i].0) < FirstIndex(pairs, d[j].0)
  }

  /** The dict built by assigning `pairs` in order. */
  ghost predicate BuiltFrom<K, V>(d: seq<(K, V)>, pairs: seq<(K, V)>) {
    Distinct(Keys(d)) && SameKeys(d, pairs) && LastWins(d, pairs) && FirstOrder(d, pairs)
  }

  lemma SameKeysStep<K, V>(d0: seq<(K, V)>, ps: seq<(K, V)>, p: (K, V))
    requires Distinct(Keys(d0)) && SameKeys(d0, ps)
    ensures SameKeys(Put(d0, p.0, p.1), ps + [p])
  {
    var d := Put(d0, p.0, p.1);
    PutFacts(d0, p.0, p.1);
    KeysSnoc(ps, p);
    forall i | 0 <= i < |ps + [p]|
      ensures (ps + [p])[i].0 in Keys(d)
    {
      if i < |ps| {
        assert ps[i].0 in Keys(d0);
      }
    }
    forall i | 0 <= i < |d|
      ensures d[i].0 in Keys(ps + [p])
    {
      assert Keys(d)[i] == d[i].0;
      if d[i].0 != p.0 {
        assert d[i] == d0[i];
      }
    }
  }

  lemma LastWinsStep<K, V>(d0: seq<(K, V)>, ps: seq<(K, V)>, p: (K, V))
    requires Distinct(Keys(d0)) && SameKeys(d0, ps) && LastWins(d0, ps)
    ensures SameKeys(Put(d0, p.0, p.1), ps + [p]) && LastWins(Put(d0, p.0, p.1), ps + [p])
  {
    var d := Put(d0, p.0, p.1);
    PutFacts(d0, p.0, p.1);
    SameKeysStep(d0, ps, p);
    forall i | 0 <= i < |d|
      ensures d[i].1 == LastValue(ps + [p], d[i].0)
    {
      if d[i].0 != p.0 {
        assert (ps + [p])[..|ps|] == ps;
      }
    }
  }

  lemma FirstOrderStep<K, V>(d0: seq<(K, V)>, ps: seq<(K, V)>, p: (K, V))
    requires Distinct(Keys(d0)) && SameKeys(d0, ps) && FirstOrder(d0, ps)
    ensures SameKeys(Put(d0, p.0, p.1), ps + [p]) && FirstOrder(Put(d0, p.0, p.1), ps + [p])
  {
    var d := Put(d0, p.0, p.1);
    PutFacts(d0, p.0, p.1);
    SameKeysStep(d0, ps, p);
    forall i, j | 0 <= i < j < |d|
      ensures FirstIndex(ps + [p], d[i].0) < FirstIndex(ps + [p], d[j].0)
    {
      FirstOrderPair(d0, ps, p, i, j);
    }
  }

  lemma FirstOrderPair<K, V>(d0: seq<(K, V)>, ps: seq<(K, V)>, p: (K, V), i: nat, j: nat)
    requires Distinct(Keys(d0)) && SameKeys(d0, ps) && FirstOrder(d0, ps)
    requires SameKeys(Put(d0, p.0, p.1), ps + [p])
    requires i < j < |Put(d0, p.0, p.1)|
    ensures FirstIndex(ps + [p], Put(d0, p.0, p.1)[i].0) < FirstIndex(ps + [p], Put(d0, p.0, p.1)[j].0)
  {
    var d := Put(d0, p.0, p.1);
    PutFacts(d0, p.0, p.1);
    assert Keys(d)[i] == d[i].0 && Keys(d)[j] == d[j].0;
    assert d[i].0 == d0[i].0 by { assert Keys(d)[i] == Keys(d0)[i]; }
    FirstIndexExtend(ps, p, d[i].0);
    FirstIndexExtend(ps, p, d[j].0);
    if j < |d0| {
      assert d[j].0 == d0[j].0 by { assert Keys(d)[j] == Keys(d0)[j]; }
    } else {
      assert d[j].0 == p.0;
      assert d0[i].0 in Keys(ps);
    }
  }

  /** Building a dict from pairs: keys are distinct, every key of the pairs is
      present, the keys appear in order of first occurrence, and each key maps
      to the value of its last occurrence. */
  lemma {:induction false} PutAllFromEmpty<K, V>(pairs: seq<(K, V)>)
    ensures BuiltFrom(PutAll([], pairs), pairs)
    decreases |pairs|
  {
    if |pairs| > 0 {
      var n := |pairs| - 1;
      var ps := pairs[..n];
      var p := pairs[n];
      assert pairs == ps + [p];
      PutAllFromEmpty(ps);
      PutAllSnoc([], ps, p);
      var d0 := PutAll([], ps);
      PutFacts(d0, p.0, p.1);
      LastWinsStep(d0, ps, p);
      FirstOrderStep(d0, ps, p);
    }
  }

  /** The number of decimal digits at the start of `s`. */
  function DigitRun(s: string): (n: nat)
    ensures n <= |s|
    ensures forall i :: 0 <= i < n ==> IsDigit(s[i])
    ensures n < |s| ==> !IsDigit(s[n])
  {
    if |s| == 0 || !IsDigit(s[0]) then 0 else 1 + DigitRun(s[1..])
  }

  /** A run of digits followed by a non-digit is exactly the run. */
  lemma {:induction false} DigitRunOf(d: string, rest: string)
    requires AllDigits(d)
    requires |rest| > 0 && !IsDigit(rest[0])
    ensures DigitRun(d + rest) == |d|
    decreases |d|
  {
    if |d| > 0 {
      assert (d + rest)[1..] == d[1..] + rest;
      DigitRunOf(d[1..], rest);
    } else {
      assert d + rest == rest;
    }
  }
}
