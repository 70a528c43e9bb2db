/**
  JSON string literals: QuoteJSONString of ECMA-262 section 25.5.2.3 as the printer, and the
  grammar of RFC 8259 section 7 as an independent reader.
 */
module JsonString {
  import opened Wrappers
  import opened Strings

  predicate IsLead(u: Unit) { 0xD800 <= u <= 0xDBFF }

  predicate IsTrail(u: Unit) { 0xDC00 <= u <= 0xDFFF }

  function HexDigit(n: nat): Unit
    requires n < 16
  {
    if n < 10 then 0x30 + n else 0x57 + n
  }

  function UnicodeEscape(u: Unit): (e: Text)
    ensures |e| == 6
  {
    [BACKSLASH, 0x75, HexDigit(u / 4096), HexDigit(u / 256 % 16), HexDigit(u / 16 % 16), HexDigit(u % 16)]
  }

  /** The text JSON.stringify prints for one code unit that is not half of a surrogate pair. */
  function EscapeUnit(u: Unit): (e: Text) {
    if u == 0x08 then [BACKSLASH, 0x62]
    else if u == TAB then [BACKSLASH, 0x74]
    else if u == LF then [BACKSLASH, 0x6E]
    else if u == 0x0C then [BACKSLASH, 0x66]
    else if u == CR then [BACKSLASH, 0x72]
    else if u == DQUOTE || u == BACKSLASH then [BACKSLASH, u]
    else if u < 0x20 || IsLead(u) || IsTrail(u) then UnicodeEscape(u)
    else [u]
  }

  predicate StartsWithPair(v: Text) { |v| >= 2 && IsLead(v[0]) && IsTrail(v[1]) }

  function QuoteBody(v: Text): Text {
    if v == [] then []
    else if StartsWithPair(v) then v[..2] + QuoteBody(v[2..])
    else EscapeUnit(v[0]) + QuoteBody(v[1..])
  }

  /** JSON.stringify of a string. */
  function Quote(v: Text): Text { [DQUOTE] + QuoteBody(v) + [DQUOTE] }

  function HexValue(u: Unit): (n: Option<nat>)
    ensures n.Some? ==> n.value < 16
  {
    if IsDigit(u) then Some(u - 0x30)
    else if 0x61 <= u <= 0x66 then Some(u - 0x57)
    else if 0x41 <= u <= 0x46 then Some(u - 0x37)
    else None
  }

  function SimpleEscape(u: Unit): Option<Unit> {
    if u == DQUOTE || u == BACKSLASH || u == 0x2F then Some(u)
    else if u == 0x62 then Some(0x08)
    else if u == 0x66 then Some(0x0C)
    else if u == 0x6E then Some(LF)
    else if u == 0x72 then Some(CR)
    else if u == 0x74 then Some(TAB)
    else None
  }

  function Cons(u: Unit, r: Option<(Text, Text)>): Option<(Text, Text)> {
    match r
    case None => None
    case Some((value, rest)) => Some(([u] + value, rest))
  }

  /** Reads characters up to the closing quotation mark; returns the value and what follows the mark. */
  function ReadBody(t: Text): Option<(Text, Text)>
    decreases |t|
  {
    if t == [] || t[0] < 0x20 then None
    else if t[0] == DQUOTE then Some(([], t[1..]))
    else if t[0] != BACKSLASH then Cons(t[0], ReadBody(t[1..]))
    else if |t| >= 2 && SimpleEscape(t[1]).Some? then Cons(SimpleEscape(t[1]).value, ReadBody(t[2..]))
    else if |t| >= 6 && t[1] == 0x75 then
      match (HexValue(t[2]), HexValue(t[3]), HexValue(t[4]), HexValue(t[5]))
      case (Some(a), Some(b), Some(c), Some(d)) => Cons(4096 * a + 256 * b + 16 * c + d, ReadBody(t[6..]))
      case _ => None
    else None
  }

  /** Reads one string literal at the start of t. */
  function ReadString(t: Text): Option<(Text, Text)> {
    if t != [] && t[0] == DQUOTE then ReadBody(t[1..]) else None
  }

  lemma HexRoundTrip(u: Unit)
    ensures 4096 * (u / 4096) + 256 * (u / 256 % 16) + 16 * (u / 16 % 16) + u % 16 == u
    ensures u / 4096 < 16
  {
  }

  lemma ReadSimple(u: Unit, e: Unit, rest: Text)
    requires SimpleEscape(e) == Some(u)
    ensures ReadBody([BACKSLASH, e] + rest) == Cons(u, ReadBody(rest))
  {
    hide SimpleEscape;
    assert ([BACKSLASH, e] + rest)[2..] == rest;
  }

  lemma HexOfDigit(n: nat)
    requires n < 16
    ensures HexValue(HexDigit(n)) == Some(n)
  {
  }

  lemma ReadUnicode(u: Unit, rest: Text)
    ensures ReadBody(UnicodeEscape(u) + rest) == Cons(u, ReadBody(rest))
  {
    hide HexDigit, HexValue;
    var t := UnicodeEscape(u) + rest;
    assert t[6..] == rest;
    HexOfDigit(u / 4096);
    HexOfDigit(u / 256 % 16);
    HexOfDigit(u / 16 % 16);
    HexOfDigit(u % 16);
    HexRoundTrip(u);
  }

  lemma ReadRaw(u: Unit, rest: Text)
    requires u >= 0x20 && u != DQUOTE && u != BACKSLASH
    ensures ReadBody([u] + rest) == Cons(u, ReadBody(rest))
  {
    assert ([u] + rest)[1..] == rest;
  }

  lemma ReadEscape(u: Unit, rest: Text)
    ensures ReadBody(EscapeUnit(u) + rest) == Cons(u, ReadBody(rest))
  {
    hide ReadBody, UnicodeEscape;
    if |EscapeUnit(u)| == 1 {
      ReadRaw(u, rest);
    } else if EscapeUnit(u) == UnicodeEscape(u) {
      ReadUnicode(u, rest);
    } else {
      ReadSimple(u, EscapeUnit(u)[1], rest);
    }
  }

  lemma QuotePair(v: Text, tail: Text)
    requires StartsWithPair(v)
    ensures QuoteBody(v) + tail == [v[0]] + ([v[1]] + (QuoteBody(v[2..]) + tail))
  {
    hide EscapeUnit;
  }

  lemma QuoteUnit(v: Text, tail: Text)
    requires v != [] && !StartsWithPair(v)
    ensures QuoteBody(v) + tail == EscapeUnit(v[0]) + (QuoteBody(v[1..]) + tail)
  {
    hide EscapeUnit;
  }

  lemma ReadClose(rest: Text)
    ensures ReadBody([DQUOTE] + rest) == Some(([], rest))
  {
    assert ([DQUOTE] + rest)[1..] == rest;
  }

  lemma {:induction false} ReadOfQuoteBody(v: Text, rest: Text)
    ensures ReadBody(QuoteBody(v) + ([DQUOTE] + rest)) == Some((v, rest))
    decreases |v|
  {
    hide ReadBody, EscapeUnit;
    var tail := [DQUOTE] + rest;
    if v == [] {
      assert QuoteBody([]) + tail == tail;
      ReadClose(rest);
    } else if StartsWithPair(v) {
      hide QuoteBody;
      var u := QuoteBody(v[2..]) + tail;
      ReadOfQuoteBody(v[2..], rest);
      QuotePair(v, tail);
      ReadRaw(v[1], u);
      ReadRaw(v[0], [v[1]] + u);
      assert v == [v[0]] + ([v[1]] + v[2..]);
    } else {
      hide QuoteBody;
      ReadOfQuoteBody(v[1..], rest);
      QuoteUnit(v, tail);
      ReadEscape(v[0], QuoteBody(v[1..]) + tail);
      assert v == [v[0]] + v[1..];
    }
  }

  /** An RFC 8259 reader gets back every code-unit string JSON.stringify printed, and stops right after it. */
  lemma ReadOfQuote(v: Text, rest: Text)
    ensures ReadString(Quote(v) + rest) == Some((v, rest))
  {
    hide ReadBody, QuoteBody;
    assert (Quote(v) + rest)[1..] == QuoteBody(v) + ([DQUOTE] + rest);
    ReadOfQuoteBody(v, rest);
  }

  /** Quoted strings are self-delimiting: equal documents that start with them agree on them and on the rest. */
  lemma QuotePrefixFree(v: Text, w: Text, x: Text, y: Text)
    requires Quote(v) + x == Quote(w) + y
    ensures v == w && x == y
  {
    ReadOfQuote(v, x);
    ReadOfQuote(w, y);
  }
}
