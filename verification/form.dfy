/**
 The form encoding that `urllib.parse.urlencode` (through `quote_plus`)
 gives each key and value of a query that `requests.get(url, params)`
 sends: ASCII letters, digits and `_.-~` stand for themselves, a space
 becomes '+', and every other character becomes '%XX' for each byte of
 its UTF-8 encoding, with upper-case hexadecimal digits. `FormDecode`
 reads such text back, as `unquote_plus` does; text that is not valid
 percent-encoded UTF-8 reads back as `None`.
 */
module Form {
  import opened Common

  // ---------------------------------------------------------------------
  // UTF-8
  // ---------------------------------------------------------------------

  predicate IsByte(b: int) {
    0 <= b < 256
  }

  /** The code points of Unicode scalar values, which are what a `char` holds. */
  predicate IsScalar(n: int) {
    0 <= n < 0xD800 || 0xE000 <= n < 0x110000
  }

  /** The UTF-8 bytes of a character: one byte below 0x80, then two, three or
      four bytes, a lead byte followed by continuation bytes that carry six
      bits each. */
  function Utf8(c: char): (r: seq<int>)
    ensures 1 <= |r| <= 4 && forall i :: 0 <= i < |r| ==> IsByte(r[i])
    ensures (|r| == 1 <==> c as int < 0x80) && (|r| == 1 ==> r[0] == c as int)
    ensures forall i :: 1 <= i < |r| ==> 0x80 <= r[i] < 0xC0
  {
    var n := c as int;
    if n < 0x80 then [n]
    else if n < 0x800 then [0xC0 + n / 64, 0x80 + n % 64]
    else if n < 0x10000 then [0xE0 + n / 4096, 0x80 + n / 64 % 64, 0x80 + n % 64]
    else [0xF0 + n / 262144, 0x80 + n / 4096 % 64, 0x80 + n / 64 % 64, 0x80 + n % 64]
  }

  /** The length of the sequence a lead byte opens; 0 for a byte that opens
      none (a continuation byte, or 0xC0, 0xC1 and 0xF5 upwards). */
  function SeqLength(b: int): (r: nat)
    ensures r <= 4
  {
    if 0 <= b < 0x80 then 1
    else if 0xC2 <= b < 0xE0 then 2
    else if 0xE0 <= b < 0xF0 then 3
    else if 0xF0 <= b < 0xF5 then 4
    else 0
  }

  /** The number that a lead byte and its continuation bytes spell. */
  function Assemble(bs: seq<int>): int
    requires 1 <= |bs| <= 4
  {
    if |bs| == 1 then bs[0]
    else if |bs| == 2 then (bs[0] - 0xC0) * 64 + (bs[1] - 0x80)
    else if |bs| == 3 then (bs[0] - 0xE0) * 4096 + (bs[1] - 0x80) * 64 + (bs[2] - 0x80)
    else (bs[0] - 0xF0) * 262144 + (bs[1] - 0x80) * 4096 + (bs[2] - 0x80) * 64 + (bs[3] - 0x80)
  }

  /** The characters a byte sequence encodes, or `None` when it is not valid
      UTF-8: a sequence is accepted only when it is the encoding of the
      character it spells, which rules out overlong forms and surrogates. */
  function Utf8Decode(bs: seq<int>): (r: Option<string>)
    decreases |bs|
  {
    if |bs| == 0 then Some("")
    else
      var len := SeqLength(bs[0]);
      if len == 0 || |bs| < len then None
      else
        var n := Assemble(bs[..len]);
        if !IsScalar(n) || Utf8(n as char) != bs[..len] then None
        else
          match Utf8Decode(bs[len..])
          case None => None
          case Some(rest) => Some([n as char] + rest)
  }

  /** The bytes of a text, character after character. */
  function Utf8Of(s: string): (r: seq<int>)
    ensures forall i :: 0 <= i < |r| ==> IsByte(r[i])
  {
    if |s| == 0 then [] else Utf8(s[0]) + Utf8Of(s[1..])
  }

  /** The lead byte of a character's encoding opens a sequence of exactly
      the encoding's length, and the bytes spell the character. */
  lemma Utf8Spells(c: char)
    ensures SeqLength(Utf8(c)[0]) == |Utf8(c)|
    ensures Assemble(Utf8(c)) == c as int
  {
    var n := c as int;
    if n < 0x80 {
    } else if n < 0x800 {
      assert n == n / 64 * 64 + n % 64;
    } else if n < 0x10000 {
      assert n / 64 == n / 4096 * 64 + n / 64 % 64;
      assert n == n / 64 * 64 + n % 64;
    } else {
      assert n / 4096 == n / 262144 * 64 + n / 4096 % 64;
      assert n / 64 == n / 4096 * 64 + n / 64 % 64;
      assert n == n / 64 * 64 + n % 64;
    }
  }

  /** Decoding the bytes of one character in front of more bytes reads that
      character and goes on with the rest. */
  lemma Utf8DecodeCons(c: char, rest: seq<int>)
    ensures Utf8Decode(Utf8(c) + rest) ==
      match Utf8Decode(rest) case None => None case Some(t) => Some([c] + t)
  {
    var u := Utf8(c);
    var bs := u + rest;
    Utf8Spells(c);
    assert bs[..|u|] == u;
    assert bs[|u|..] == rest;
  }

  /** UTF-8 decoding undoes UTF-8 encoding, for every text. */
  lemma {:induction false} Utf8RoundTrip(s: string)
    ensures Utf8Decode(Utf8Of(s)) == Some(s)
  {
    if |s| > 0 {
      Utf8RoundTrip(s[1..]);
      Utf8DecodeCons(s[0], Utf8Of(s[1..]));
      assert [s[0]] + s[1..] == s;
    }
  }

  // ---------------------------------------------------------------------
  // Percent-encoding
  // ---------------------------------------------------------------------

  /** The characters `quote_plus` never escapes. */
  predicate Unreserved(c: char) {
    'A' <= c <= 'Z' || 'a' <= c <= 'z' || '0' <= c <= '9' || c == '_' || c == '.' || c == '-' || c == '~'
  }

  /** The upper-case hexadecimal digit of a value below 16. */
  function HexDigit(k: int): (r: char)
    requires 0 <= k < 16
    ensures '0' <= r <= '9' || 'A' <= r <= 'F'
  {
    if k < 10 then ('0' as int + k) as char else ('A' as int + k - 10) as char
  }

  /** The value of a hexadecimal digit, in either case, as `unquote` reads it. */
  function HexValue(c: char): (r: Option<int>)
    ensures r.Some? ==> 0 <= r.value < 16
  {
    if '0' <= c <= '9' then Some(c as int - '0' as int)
    else if 'A' <= c <= 'F' then Some(c as int - 'A' as int + 10)
    else if 'a' <= c <= 'f' then Some(c as int - 'a' as int + 10)
    else None
  }

  /** '%XX' for one byte. */
  function Escape(b: int): (r: string)
    requires IsByte(b)
    ensures |r| == 3 && r[0] == '%'
    ensures HexValue(r[1]) == Some(b / 16) && HexValue(r[2]) == Some(b % 16)
  {
    ['%', HexDigit(b / 16), HexDigit(b % 16)]
  }

  /** '%XX' for each byte in turn. */
  function EscapeAll(bs: seq<int>): (r: string)
    requires forall i :: 0 <= i < |bs| ==> IsByte(bs[i])
    ensures |r| == 3 * |bs|
  {
    if |bs| == 0 then "" else Escape(bs[0]) + EscapeAll(bs[1..])
  }

  /** `quote_plus` of one character. */
  function EncodeChar(c: char): string {
    if Unreserved(c) then [c]
    else if c == ' ' then "+"
    else EscapeAll(Utf8(c))
  }

  /** `quote_plus(s)`: each character encoded in turn. */
  function FormEncode(s: string): (r: string)
    ensures |s| > 0 ==> |r| > 0
  {
    if |s| == 0 then "" else EncodeChar(s[0]) + FormEncode(s[1..])
  }

  /** Some bytes in front of the bytes of a reading, when it succeeded. */
  function Prepend(bs: seq<int>, r: Option<seq<int>>): Option<seq<int>> {
    match r
    case None => None
    case Some(more) => Some(bs + more)
  }

  /** The bytes a percent-encoded text stands for: '+' is a space, '%XX' is
      the byte XX, and any other character stands for its UTF-8 bytes; a '%'
      without two hexadecimal digits after it gives `None`. */
  function Unescape(s: string): (r: Option<seq<int>>)
    ensures r.Some? ==> forall i :: 0 <= i < |r.value| ==> IsByte(r.value[i])
    decreases |s|
  {
    if |s| == 0 then Some([])
    else if s[0] == '%' then
      if |s| >= 3 && HexValue(s[1]).Some? && HexValue(s[2]).Some? then
        Prepend([HexValue(s[1]).value * 16 + HexValue(s[2]).value], Unescape(s[3..]))
      else None
    else if s[0] == '+' then Prepend([' ' as int], Unescape(s[1..]))
    else Prepend(Utf8(s[0]), Unescape(s[1..]))
  }

  /** `unquote_plus`: the text that a form-encoded text stands for. */
  function FormDecode(s: string): Option<string> {
    match Unescape(s)
    case None => None
    case Some(bs) => Utf8Decode(bs)
  }

  /** Unescaping the escapes of some bytes in front of more text gives those
      bytes followed by what the rest gives. */
  lemma {:induction false} UnescapeEscapes(bs: seq<int>, rest: string)
    requires forall i :: 0 <= i < |bs| ==> IsByte(bs[i])
    ensures Unescape(EscapeAll(bs) + rest) == Prepend(bs, Unescape(rest))
  {
    if |bs| > 0 {
      var b := bs[0];
      var e := Escape(b);
      var tail := EscapeAll(bs[1..]) + rest;
      var s := EscapeAll(bs) + rest;
      assert s == e + tail;
      assert s[0] == '%' && s[1] == e[1] && s[2] == e[2];
      assert s[3..] == tail;
      assert HexValue(s[1]).value * 16 + HexValue(s[2]).value == b;
      assert Unescape(s) == Prepend([b], Unescape(tail));
      UnescapeEscapes(bs[1..], rest);
      assert [b] + bs[1..] == bs;
      PrependTwice([b], bs[1..], Unescape(rest));
    } else {
      assert EscapeAll(bs) + rest == rest;
      if Unescape(rest).Some? {
        assert bs + Unescape(rest).value == Unescape(rest).value;
      }
    }
  }

  lemma PrependTwice(a: seq<int>, b: seq<int>, r: Option<seq<int>>)
    ensures Prepend(a, Prepend(b, r)) == Prepend(a + b, r)
  {
    if r.Some? {
      assert a + (b + r.value) == (a + b) + r.value;
    }
  }

  /** Unescaping the encoding of one character in front of more text gives
      the character's UTF-8 bytes followed by what the rest gives. */
  lemma UnescapeEncodeChar(c: char, rest: string)
    ensures Unescape(EncodeChar(c) + rest) == Prepend(Utf8(c), Unescape(rest))
  {
    var s := EncodeChar(c) + rest;
    if Unreserved(c) || c == ' ' {
      assert s[0] == (if Unreserved(c) then c else '+') && s[1..] == rest;
    } else {
      UnescapeEscapes(Utf8(c), rest);
    }
  }

  /** Unescaping a form-encoded text gives the text's UTF-8 bytes. */
  lemma {:induction false} UnescapeEncode(s: string)
    ensures Unescape(FormEncode(s)) == Some(Utf8Of(s))
  {
    if |s| > 0 {
      UnescapeEncode(s[1..]);
      UnescapeEncodeChar(s[0], FormEncode(s[1..]));
    }
  }

  /** `unquote_plus(quote_plus(s)) == s` for every text. */
  lemma FormRoundTrip(s: string)
    ensures FormDecode(FormEncode(s)) == Some(s)
  {
    UnescapeEncode(s);
    Utf8RoundTrip(s);
  }

  /** The characters a form-encoded text is made of. */
  predicate EncodedChar(c: char) {
    Unreserved(c) || c == '+' || c == '%'
  }

  /** Every character of a text is one a form encoding is made of. */
  predicate AllEncoded(s: string) {
    forall i :: 0 <= i < |s| ==> EncodedChar(s[i])
  }

  lemma AllEncodedAppend(a: string, b: string)
    requires AllEncoded(a) && AllEncoded(b)
    ensures AllEncoded(a + b)
  {
    forall i | 0 <= i < |a + b|
      ensures EncodedChar((a + b)[i])
    {
      if i >= |a| {
        assert (a + b)[i] == b[i - |a|];
      }
    }
  }

  lemma {:induction false} EscapeAllChars(bs: seq<int>)
    requires forall i :: 0 <= i < |bs| ==> IsByte(bs[i])
    ensures AllEncoded(EscapeAll(bs))
  {
    if |bs| > 0 {
      EscapeAllChars(bs[1..]);
      var e := Escape(bs[0]);
      assert AllEncoded(e);
      AllEncodedAppend(e, EscapeAll(bs[1..]));
    }
  }

  lemma EncodeCharChars(c: char)
    ensures AllEncoded(EncodeChar(c))
  {
    if !Unreserved(c) && c != ' ' {
      EscapeAllChars(Utf8(c));
    }
  }

  /** A form-encoded text holds only unreserved characters, '+' and '%'; in
      particular neither '&' nor '=' occurs in it. */
  lemma {:induction false} EncodedChars(s: string)
    ensures AllEncoded(FormEncode(s))
    ensures '&' !in FormEncode(s) && '=' !in FormEncode(s)
  {
    if |s| > 0 {
      EncodedChars(s[1..]);
      EncodeCharChars(s[0]);
      AllEncodedAppend(EncodeChar(s[0]), FormEncode(s[1..]));
    }
  }

  /** The encoding of a concatenation is the concatenation of the encodings. */
  lemma {:induction false} FormEncodeAppend(a: string, b: string)
    ensures FormEncode(a + b) == FormEncode(a) + FormEncode(b)
  {
    if |a| == 0 {
      assert a + b == b;
    } else {
      var ab := a + b;
      assert ab[0] == a[0] && ab[1..] == a[1..] + b;
      FormEncodeAppend(a[1..], b);
      Assoc(EncodeChar(a[0]), FormEncode(a[1..]), FormEncode(b));
    }
  }

  /** A space is sent as '+', and '@' and '/' as their escapes. */
  lemma EncodeSpecials()
    ensures FormEncode(" ") == "+"
    ensures FormEncode("@") == "%40"
    ensures FormEncode("/") == "%2F"
  {
    assert FormEncode(" ") == EncodeChar(' ') + FormEncode("");
    assert FormEncode("@") == EncodeChar('@') + FormEncode("");
    assert FormEncode("/") == EncodeChar('/') + FormEncode("");
    assert Utf8('@') == [64] && Utf8('/') == [47];
    assert EscapeAll([64]) == Escape(64) + EscapeAll([]);
    assert EscapeAll([47]) == Escape(47) + EscapeAll([]);
  }

  /** Between two runs of unreserved characters, only the middle part is
      changed by the encoding. */
  lemma EncodeBetween(a: string, m: string, b: string)
    requires forall i :: 0 <= i < |a| ==> Unreserved(a[i])
    requires forall i :: 0 <= i < |b| ==> Unreserved(b[i])
    ensures FormEncode(a + (m + b)) == a + (FormEncode(m) + b)
  {
    UnreservedUnchanged(a);
    UnreservedUnchanged(b);
    FormEncodeAppend(m, b);
    FormEncodeAppend(a, m + b);
  }

  /** A text made of unreserved characters is its own encoding. */
  lemma {:induction false} UnreservedUnchanged(s: string)
    requires forall i :: 0 <= i < |s| ==> Unreserved(s[i])
    ensures FormEncode(s) == s
  {
    if |s| > 0 {
      UnreservedUnchanged(s[1..]);
      assert [s[0]] + s[1..] == s;
    }
  }
}
