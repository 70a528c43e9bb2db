/** The Dotenv template of the operator, printed with strconv.Quote, and what parseDotenv makes of it. */
module OperatorDotenv {
  import opened Wrappers
  import opened Strings
  import opened JsonString
  import opened Dotenv
  import opened LineExport
  import Database
  import Operations

  type Rune = r: int | 0 <= r <= 0x10FFFF && !(0xD800 <= r <= 0xDFFF)

  /** strconv.IsPrint, of which only the ASCII part is fixed here. */
  ghost predicate KnowsAscii(isPrint: Rune -> bool) {
    forall r: Rune :: r < 0x80 ==> (isPrint(r) <==> 0x20 <= r <= 0x7E)
  }

  /** A code point in UTF-16. */
  function Units(r: Rune): (t: Text)
    ensures 1 <= |t| <= 2
  {
    if r < 0x10000 then [r] else [0xD800 + (r - 0x10000) / 0x400, 0xDC00 + (r - 0x10000) % 0x400]
  }

  function Utf16(s: seq<Rune>): Text { if s == [] then [] else Units(s[0]) + Utf16(s[1..]) }

  /** Lower-case hexadecimal digits, padded to a width. */
  function Hex(n: nat, width: nat): (t: Text)
    ensures |t| == width
    ensures forall i :: 0 <= i < |t| ==> IsDigit(t[i]) || 0x61 <= t[i] <= 0x66
  {
    if width == 0 then [] else Hex(n / 16, width - 1) + [HexDigit(n % 16)]
  }

  /** The letter of a control character that has its own escape. */
  function ControlLetter(r: Rune): Unit {
    if r == 0x07 then 0x61 else if r == 0x08 then 0x62 else if r == 0x0C then 0x66 else if r == 0x0A then 0x6E
    else if r == 0x0D then 0x72 else if r == 0x09 then 0x74 else if r == 0x0B then 0x76
    else NUL
  }

  /** One code point as strconv.Quote prints it. */
  function Escaped(r: Rune, isPrint: Rune -> bool): Text {
    if r == DQUOTE || r == BACKSLASH then [BACKSLASH, r]
    else if isPrint(r) then Units(r)
    else if ControlLetter(r) != NUL then [BACKSLASH, ControlLetter(r)]
    else if r < 0x20 || r == 0x7F then [BACKSLASH, 0x78] + Hex(r, 2)
    else if r < 0x10000 then [BACKSLASH, 0x75] + Hex(r, 4)
    else [BACKSLASH, 0x55] + Hex(r, 8)
  }

  function GoBody(s: seq<Rune>, isPrint: Rune -> bool): Text {
    if s == [] then [] else Escaped(s[0], isPrint) + GoBody(s[1..], isPrint)
  }

  datatype RuneSecret = RuneSecret(key: Text, value: seq<Rune>)

  function GoLine(s: RuneSecret, isPrint: Rune -> bool): Text {
    s.key + [EQUALS] + ([DQUOTE] + GoBody(s.value, isPrint) + [DQUOTE])
  }

  /** renderDotenv over the entries in sorted order. */
  function RenderDotenv(secrets: seq<RuneSecret>, isPrint: Rune -> bool): Text {
    if secrets == [] then []
    else RenderDotenv(secrets[..|secrets| - 1], isPrint) + GoLine(secrets[|secrets| - 1], isPrint) + [LF]
  }

  /** The code points that come back: printable ones, line feed, carriage return and tab. */
  predicate Survives(r: Rune, isPrint: Rune -> bool) { isPrint(r) || r == LF || r == CR || r == TAB }

  function Kept(r: Rune, isPrint: Rune -> bool): Text { if Survives(r, isPrint) then Units(r) else Escaped(r, isPrint) }

  function KeptAll(s: seq<Rune>, isPrint: Rune -> bool): Text {
    if s == [] then [] else Kept(s[0], isPrint) + KeptAll(s[1..], isPrint)
  }

  // ---- scanning one printed value ----

  lemma ScanPair(lines: seq<Text>, i: nat, letter: Unit, rest: Text)
    requires i < |lines|
    ensures Scan(lines, i, [BACKSLASH, letter] + rest, DQUOTE)
         == Prepend(Unescape(letter, DQUOTE), Scan(lines, i, rest, DQUOTE))
  {
    hide Unescape;
    assert ([BACKSLASH, letter] + rest)[2..] == rest;
  }

  lemma ScanHex(lines: seq<Text>, i: nat, letter: Unit, n: nat, width: nat, rest: Text)
    requires i < |lines| && letter in {0x78, 0x75, 0x55}
    ensures Scan(lines, i, [BACKSLASH, letter] + Hex(n, width) + rest, DQUOTE)
         == Prepend([BACKSLASH, letter] + Hex(n, width), Scan(lines, i, rest, DQUOTE))
  {
    var digits := Hex(n, width);
    hide Hex, Scan;
    ScanPlain(lines, i, digits, rest);
    assert [BACKSLASH, letter] + digits + rest == [BACKSLASH, letter] + (digits + rest);
    ScanPair(lines, i, letter, digits + rest);
    assert Unescape(letter, DQUOTE) == [BACKSLASH, letter];
    PrependPrepend([BACKSLASH, letter], digits, Scan(lines, i, rest, DQUOTE));
  }

  lemma ScanRune(lines: seq<Text>, i: nat, r: Rune, isPrint: Rune -> bool, rest: Text)
    requires i < |lines| && KnowsAscii(isPrint)
    ensures Scan(lines, i, Escaped(r, isPrint) + rest, DQUOTE) == Prepend(Kept(r, isPrint), Scan(lines, i, rest, DQUOTE))
  {
    hide Scan, Hex;
    if r == DQUOTE || r == BACKSLASH {
      ScanPair(lines, i, r, rest);
    } else if isPrint(r) {
      ScanPlain(lines, i, Units(r), rest);
    } else if ControlLetter(r) != NUL {
      ScanPair(lines, i, ControlLetter(r), rest);
    } else if r < 0x20 || r == 0x7F {
      ScanHex(lines, i, 0x78, r, 2, rest);
    } else if r < 0x10000 {
      ScanHex(lines, i, 0x75, r, 4, rest);
    } else {
      ScanHex(lines, i, 0x55, r, 8, rest);
    }
  }

  lemma {:induction false} ScanBody(lines: seq<Text>, i: nat, s: seq<Rune>, isPrint: Rune -> bool)
    requires i < |lines| && KnowsAscii(isPrint)
    ensures Scan(lines, i, GoBody(s, isPrint) + [DQUOTE], DQUOTE) == Scanned(KeptAll(s, isPrint), i, [], true)
  {
    if s == [] {
      assert GoBody(s, isPrint) + [DQUOTE] == [DQUOTE];
    } else {
      hide Scan, Escaped, Kept, KnowsAscii;
      var rest := GoBody(s[1..], isPrint) + [DQUOTE];
      ScanBody(lines, i, s[1..], isPrint);
      assert GoBody(s, isPrint) + [DQUOTE] == Escaped(s[0], isPrint) + rest;
      ScanRune(lines, i, s[0], isPrint, rest);
    }
  }

  lemma {:induction false} KeptLength(s: seq<Rune>, isPrint: Rune -> bool)
    requires KnowsAscii(isPrint)
    ensures |KeptAll(s, isPrint)| >= |Utf16(s)|
    ensures KeptAll(s, isPrint) == Utf16(s) <==> forall i :: 0 <= i < |s| ==> Survives(s[i], isPrint)
    ensures |KeptAll(s, isPrint)| == |Utf16(s)| <==> forall i :: 0 <= i < |s| ==> Survives(s[i], isPrint)
  {
    if s != [] {
      KeptLength(s[1..], isPrint);
      KeptRune(s[0], isPrint);
      hide Kept, Units, Survives, KnowsAscii;
      assert s == [s[0]] + s[1..];
    }
  }

  lemma KeptRune(r: Rune, isPrint: Rune -> bool)
    requires KnowsAscii(isPrint)
    ensures if Survives(r, isPrint) then Kept(r, isPrint) == Units(r) else |Kept(r, isPrint)| > |Units(r)|
  {
    hide Hex;
  }

  lemma {:induction false} BodyHasNoLf(s: seq<Rune>, isPrint: Rune -> bool)
    requires KnowsAscii(isPrint)
    ensures LF !in GoBody(s, isPrint)
  {
    if s != [] {
      BodyHasNoLf(s[1..], isPrint);
      EscapedHasNoLf(s[0], isPrint);
    }
  }

  lemma EscapedHasNoLf(r: Rune, isPrint: Rune -> bool)
    requires KnowsAscii(isPrint)
    ensures LF !in Escaped(r, isPrint)
  {
    assert !isPrint(LF);
    hide KnowsAscii;
  }

  // ---- the document ----

  function GoRows(secrets: seq<RuneSecret>, isPrint: Rune -> bool): seq<Text> {
    seq(|secrets|, i requires 0 <= i < |secrets| => GoLine(secrets[i], isPrint))
  }

  lemma {:induction false} JoinSnoc(rows: seq<Text>, row: Text)
    ensures Join(rows + [row], [LF]) == Join(rows, [LF]) + (if rows == [] then [] else [LF]) + row
  {
    if rows == [] {
      assert rows + [row] == [row];
    } else {
      assert (rows + [row])[1..] == rows[1..] + [row];
      JoinSnoc(rows[1..], row);
    }
  }

  lemma {:induction false} RenderIsRows(secrets: seq<RuneSecret>, isPrint: Rune -> bool)
    ensures RenderDotenv(secrets, isPrint) == Join(GoRows(secrets, isPrint), [LF]) + if secrets == [] then [] else [LF]
  {
    hide GoLine, Join;
    if secrets == [] {
      JoinNothing();
      assert GoRows(secrets, isPrint) == [];
    } else {
      var n := |secrets| - 1;
      RenderIsRows(secrets[..n], isPrint);
      var rows := GoRows(secrets[..n], isPrint);
      assert GoRows(secrets, isPrint) == rows + [GoLine(secrets[n], isPrint)];
      JoinSnoc(rows, GoLine(secrets[n], isPrint));
    }
  }

  lemma JoinNothing()
    ensures Join([], [LF]) == []
  {
  }

  function KeysOf(secrets: seq<RuneSecret>): seq<Text> {
    seq(|secrets|, i requires 0 <= i < |secrets| => secrets[i].key)
  }

  function KeptValues(secrets: seq<RuneSecret>, isPrint: Rune -> bool): seq<Text> {
    seq(|secrets|, i requires 0 <= i < |secrets| => KeptAll(secrets[i].value, isPrint))
  }

  function ValuesOf(secrets: seq<RuneSecret>): seq<Text> {
    seq(|secrets|, i requires 0 <= i < |secrets| => Utf16(secrets[i].value))
  }

  ghost predicate AreEntries(secrets: seq<RuneSecret>) {
    && (forall i :: 0 <= i < |secrets| ==> IsDotenvKey(secrets[i].key))
    && forall i, j :: 0 <= i < j < |secrets| ==> secrets[i].key != secrets[j].key
  }

  lemma EntriesParse(secrets: seq<RuneSecret>, isPrint: Rune -> bool)
    requires KnowsAscii(isPrint) && AreEntries(secrets)
    ensures Parse(RenderDotenv(secrets, isPrint)) == Parsed(Entries(KeysOf(secrets), KeptValues(secrets, isPrint)), [])
  {
    hide KnowsAscii, IsDotenvKey, Parse, Entries, RenderDotenv, Scan, GoBody, KeptAll;
    var rows := GoRows(secrets, isPrint);
    var bodies := seq(|secrets|, i requires 0 <= i < |secrets| => GoBody(secrets[i].value, isPrint) + [DQUOTE]);
    var values := KeptValues(secrets, isPrint);
    forall i | 0 <= i < |rows|
      ensures rows[i] == secrets[i].key + [EQUALS] + ([DQUOTE] + bodies[i])
      ensures LF !in bodies[i]
    {
      BodyHasNoLf(secrets[i].value, isPrint);
      assert [DQUOTE] + GoBody(secrets[i].value, isPrint) + [DQUOTE] == [DQUOTE] + bodies[i];
    }
    forall i, lines: seq<Text>, k: nat | 0 <= i < |rows| && k < |lines|
      ensures Scan(lines, k, bodies[i], DQUOTE) == Scanned(values[i], k, [], true)
    {
      ScanBody(lines, k, secrets[i].value, isPrint);
    }
    RenderIsRows(secrets, isPrint);
    ParseRows(rows, KeysOf(secrets), bodies, values);
  }

  /** What a parse without loss would be for these keys and some values. */
  lemma ParsedAreEntries(source: Text, secrets: seq<RuneSecret>, values: seq<Text>)
    requires |values| == |secrets| && Parse(source) == Parsed(Entries(KeysOf(secrets), values), [])
    ensures AreEntries(secrets)
  {
    var lines := SplitLines(StripBom(source));
    ParseFromWellFormed(lines, 0, {});
    hide ParseFrom, SplitLines, StripBom, IsDotenvKey;
    var entries := Parse(source).entries;
    forall i | 0 <= i < |secrets|
      ensures IsDotenvKey(secrets[i].key)
    {
      assert entries[i].key == secrets[i].key;
    }
    forall i, j | 0 <= i < j < |secrets|
      ensures secrets[i].key != secrets[j].key
    {
      assert entries[i].key == secrets[i].key && entries[j].key == secrets[j].key;
    }
  }

  /**
    The document parses to all its keys, with unknown escapes left in the values, exactly when the keys are distinct
    and dotenv keys; nothing else of a key or a value matters.
   */
  lemma RenderParses(secrets: seq<RuneSecret>, isPrint: Rune -> bool)
    requires KnowsAscii(isPrint)
    ensures Parse(RenderDotenv(secrets, isPrint)) == Parsed(Entries(KeysOf(secrets), KeptValues(secrets, isPrint)), [])
       <==> AreEntries(secrets)
  {
    hide KnowsAscii, AreEntries, AllSurvive, Parse, RenderDotenv, Entries, KeptAll, Utf16;
    if AreEntries(secrets) {
      EntriesParse(secrets, isPrint);
    } else if Parse(RenderDotenv(secrets, isPrint)) == Parsed(Entries(KeysOf(secrets), KeptValues(secrets, isPrint)), []) {
      ParsedAreEntries(RenderDotenv(secrets, isPrint), secrets, KeptValues(secrets, isPrint));
    }
  }

  ghost predicate AllSurvive(secrets: seq<RuneSecret>, isPrint: Rune -> bool) {
    forall i, j :: 0 <= i < |secrets| && 0 <= j < |secrets[i].value| ==> Survives(secrets[i].value[j], isPrint)
  }

  /**
    The comment on renderDotenv promises a round trip through this parser. Of all secrets, it holds exactly for those
    whose keys are distinct dotenv keys and whose values have only code points that are printable for Go, line feeds,
    carriage returns and tabs.
   */
  lemma RenderRoundTrip(secrets: seq<RuneSecret>, isPrint: Rune -> bool)
    requires KnowsAscii(isPrint)
    ensures Parse(RenderDotenv(secrets, isPrint)) == Parsed(Entries(KeysOf(secrets), ValuesOf(secrets)), [])
       <==> AreEntries(secrets) && AllSurvive(secrets, isPrint)
  {
    hide KnowsAscii, AreEntries, AllSurvive, Parse, RenderDotenv, Entries, KeptAll, Utf16;
    if AreEntries(secrets) {
      EntriesParse(secrets, isPrint);
      SameEntries(secrets, isPrint);
    } else if Parse(RenderDotenv(secrets, isPrint)) == Parsed(Entries(KeysOf(secrets), ValuesOf(secrets)), []) {
      ParsedAreEntries(RenderDotenv(secrets, isPrint), secrets, ValuesOf(secrets));
    }
  }

  /** The values that come back are the values exactly when every code point survives. */
  lemma SameEntries(secrets: seq<RuneSecret>, isPrint: Rune -> bool)
    requires KnowsAscii(isPrint)
    ensures Entries(KeysOf(secrets), KeptValues(secrets, isPrint)) == Entries(KeysOf(secrets), ValuesOf(secrets))
       <==> AllSurvive(secrets, isPrint)
  {
    hide KnowsAscii, KeptAll, Utf16, Survives;
    var got := Entries(KeysOf(secrets), KeptValues(secrets, isPrint));
    var want := Entries(KeysOf(secrets), ValuesOf(secrets));
    forall i | 0 <= i < |secrets|
      ensures got[i] == want[i] <==> forall j :: 0 <= j < |secrets[i].value| ==> Survives(secrets[i].value[j], isPrint)
    {
      KeptLength(secrets[i].value, isPrint);
    }
    if AllSurvive(secrets, isPrint) {
      assert got == want;
    }
  }

  // ---- keys that the store takes and the parser does not ----

  /** A stored key that starts with a hash sign is printed as a comment: its secret vanishes without an issue. */
  lemma HashKeyVanishes(secret: RuneSecret, isPrint: Rune -> bool)
    requires KnowsAscii(isPrint) && Database.IsStoredKey(secret.key) && secret.key[0] == HASH
    ensures Parse(RenderDotenv([secret], isPrint)) == Parsed([], [])
  {
    var line := GoLine(secret, isPrint);
    StoredLineHasNoLf(secret, isPrint);
    assert RenderDotenv([], isPrint) == [];
    assert [secret][..0] == [];
    assert RenderDotenv([secret], isPrint) == line + [LF];
    assert line[0] == HASH && line[|line| - 1] == DQUOTE;
    hide GoLine, RenderDotenv;
    CommentParses(line);
  }

  lemma StoredLineHasNoLf(secret: RuneSecret, isPrint: Rune -> bool)
    requires KnowsAscii(isPrint) && Database.IsStoredKey(secret.key)
    ensures LF !in GoLine(secret, isPrint)
  {
    assert forall i :: 0 <= i < |secret.key| ==> !IsForbidden(secret.key[i]);
    hide GoBody, KnowsAscii;
    BodyHasNoLf(secret.value, isPrint);
  }

  /** A document of one comment line. */
  lemma CommentParses(line: Text)
    requires line != [] && line[0] == HASH && line[|line| - 1] != CR && LF !in line
    ensures Parse(line + [LF]) == Parsed([], [])
  {
    assert [line, []][1..] == [[]];
    assert Join([line, []], [LF]) == line + [LF];
    SplitOfJoin([line, []], LF);
    assert SplitLines(StripBom(line + [LF])) == [line, []];
    hide Split, Join;
    assert ReadLine([line, []], 1, {}) == Skip;
    assert ReadLine([line, []], 0, {}) == Skip;
    hide ReadLine;
    assert ParseFrom([line, []], 1, {}) == Parsed([], []);
  }

  /** For example the key #a, which the store accepts with any value. */
  lemma HashKeyIsAccepted(value: seq<Rune>, isPrint: Rune -> bool)
    requires KnowsAscii(isPrint)
    ensures Operations.ValidateKey(Ascii("#a"), true) == Ok(Ascii("#a"))
    ensures Parse(RenderDotenv([RuneSecret(Ascii("#a"), value)], isPrint)) == Parsed([], [])
  {
    var key := Ascii("#a");
    assert key == [HASH, 0x61];
    assert forall i :: 0 <= i < |key| ==> !IsSpace(key[i]);
    TrimOfDense(key);
    HashKeyVanishes(RuneSecret(key, value), isPrint);
  }
}
