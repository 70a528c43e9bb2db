/** The dotenv branch of serializeSecretExport, and what parseDotenv makes of its output. */
module LineExport {
  import opened Wrappers
  import opened Strings
  import opened JsonString
  import opened Dotenv

  /** A secret of the record being exported; the record's entries are listed in the export's sort order. */
  datatype Secret = Secret(key: Text, value: Text)

  datatype ExportError = NotRepresentable(key: Text)

  /** The pattern of exportableKey: an identifier. */
  predicate IsExportable(key: Text) {
    && key != [] && IsKeyStart(key[0])
    && forall i :: 0 <= i < |key| ==> IsKeyStart(key[i]) || IsDigit(key[i])
  }

  /** entries.map(line): stops at the first key that cannot be represented. */
  function SerializeRows(secrets: seq<Secret>, line: Secret -> Text): (r: Result<seq<Text>, ExportError>)
    ensures r.Ok? <==> forall i :: 0 <= i < |secrets| ==> IsExportable(secrets[i].key)
    ensures r.Ok? ==> |r.value| == |secrets| && forall i :: 0 <= i < |secrets| ==> r.value[i] == line(secrets[i])
    ensures r.Err? ==> exists i :: 0 <= i < |secrets| && secrets[i].key == r.error.key && !IsExportable(r.error.key)
  {
    if secrets == [] then Ok([])
    else if !IsExportable(secrets[0].key) then Err(NotRepresentable(secrets[0].key))
    else
      match SerializeRows(secrets[1..], line)
      case Err(e) => Err(e)
      case Ok(rows) => Ok([line(secrets[0])] + rows)
  }

  /** The rows joined with line feeds, closed by one unless there are none. */
  function SerializeLines(secrets: seq<Secret>, line: Secret -> Text): Result<Text, ExportError> {
    match SerializeRows(secrets, line)
    case Err(e) => Err(e)
    case Ok(rows) => Ok(Join(rows, [LF]) + if rows == [] then [] else [LF])
  }

  function DotenvLine(s: Secret): Text { s.key + [EQUALS] + Quote(s.value) }

  function SerializeDotenv(secrets: seq<Secret>): Result<Text, ExportError> { SerializeLines(secrets, DotenvLine) }

  /** Control characters dotenv has no escape for. */
  predicate IsBadControl(u: Unit) { u < 0x20 && u != TAB && u != LF && u != CR }

  predicate IsLoneSurrogate(v: Text, i: nat)
    requires i < |v|
  {
    || (IsLead(v[i]) && !(i + 1 < |v| && IsTrail(v[i + 1])))
    || (IsTrail(v[i]) && !(i > 0 && IsLead(v[i - 1])))
  }

  /** No C0 control other than tab, line feed and carriage return, and no lone surrogate. */
  predicate IsClean(v: Text) {
    forall i :: 0 <= i < |v| ==> !IsBadControl(v[i]) && !IsLoneSurrogate(v, i)
  }

  /** What survives of one printed unit: an escape the parser does not know stays as it is written. */
  function LiteralUnit(u: Unit): Text {
    if IsBadControl(u) || IsLead(u) || IsTrail(u) then EscapeUnit(u) else [u]
  }

  /** The value parseDotenv recovers from the JSON literal of v. */
  function Literal(v: Text): Text {
    if v == [] then []
    else if StartsWithPair(v) then v[..2] + Literal(v[2..])
    else LiteralUnit(v[0]) + Literal(v[1..])
  }

  lemma {:induction false} LiteralLength(v: Text)
    ensures |Literal(v)| >= |v|
    ensures |Literal(v)| == |v| <==> IsClean(v)
    ensures IsClean(v) ==> Literal(v) == v
  {
    if v == [] {
    } else if StartsWithPair(v) {
      LiteralLength(v[2..]);
      CleanTail(v, 2);
    } else {
      LiteralLength(v[1..]);
      CleanTail(v, 1);
    }
  }

  lemma CleanTail(v: Text, n: nat)
    requires v != [] && n == if StartsWithPair(v) then 2 else 1
    ensures IsClean(v) <==> (n == 2 || LiteralUnit(v[0]) == [v[0]]) && IsClean(v[n..])
  {
    var w := v[n..];
    assert forall i :: 0 <= i < |w| ==> w[i] == v[i + n];
    if IsClean(v) {
      forall i | 0 <= i < |w| ensures !IsBadControl(w[i]) && !IsLoneSurrogate(w, i) {
        assert !IsLoneSurrogate(v, i + n);
      }
    }
    if IsClean(w) && (n == 2 || LiteralUnit(v[0]) == [v[0]]) {
      forall i | 0 <= i < |v| ensures !IsBadControl(v[i]) && !IsLoneSurrogate(v, i) {
        if i >= n {
          assert !IsLoneSurrogate(w, i - n);
        }
      }
    }
  }

  /** Scanning the printed body up to the closing quote. */
  lemma ScanEscape(lines: seq<Text>, i: nat, u: Unit, rest: Text)
    requires i < |lines|
    ensures Scan(lines, i, EscapeUnit(u) + rest, DQUOTE) == Prepend(LiteralUnit(u), Scan(lines, i, rest, DQUOTE))
  {
    var e := EscapeUnit(u);
    var t := e + rest;
    if e == [u] {
      assert t[1..] == rest;
    } else if |e| == 2 {
      assert t[2..] == rest;
    } else {
      ScanHexEscape(lines, i, u, rest);
    }
  }

  lemma ScanHexEscape(lines: seq<Text>, i: nat, u: Unit, rest: Text)
    requires i < |lines|
    ensures Scan(lines, i, UnicodeEscape(u) + rest, DQUOTE) == Prepend(UnicodeEscape(u), Scan(lines, i, rest, DQUOTE))
  {
    var e := UnicodeEscape(u);
    ScanPlain(lines, i, e[2..], rest);
    var t := e + rest;
    assert t[2..] == e[2..] + rest;
    assert Unescape(e[1], DQUOTE) == e[..2];
    PrependPrepend(e[..2], e[2..], Scan(lines, i, rest, DQUOTE));
    assert e == e[..2] + e[2..];
  }

  lemma {:induction false} ScanPlain(lines: seq<Text>, i: nat, plain: Text, rest: Text)
    requires i < |lines|
    requires forall k :: 0 <= k < |plain| ==> plain[k] != BACKSLASH && plain[k] != DQUOTE
    ensures Scan(lines, i, plain + rest, DQUOTE) == Prepend(plain, Scan(lines, i, rest, DQUOTE))
  {
    if plain == [] {
      assert plain + rest == rest;
      assert [] + Scan(lines, i, rest, DQUOTE).value == Scan(lines, i, rest, DQUOTE).value;
    } else {
      ScanPlain(lines, i, plain[1..], rest);
      assert (plain + rest)[1..] == plain[1..] + rest;
      PrependPrepend([plain[0]], plain[1..], Scan(lines, i, rest, DQUOTE));
      assert plain == [plain[0]] + plain[1..];
    }
  }

  lemma {:induction false} ScanOfQuoteBody(lines: seq<Text>, i: nat, v: Text)
    requires i < |lines|
    ensures Scan(lines, i, QuoteBody(v) + [DQUOTE], DQUOTE) == Scanned(Literal(v), i, [], true)
    decreases |v|
  {
    if v == [] {
      assert QuoteBody(v) + [DQUOTE] == [DQUOTE];
    } else if StartsWithPair(v) {
      var rest := QuoteBody(v[2..]) + [DQUOTE];
      ScanOfQuoteBody(lines, i, v[2..]);
      ScanPlain(lines, i, v[..2], rest);
      assert QuoteBody(v) + [DQUOTE] == v[..2] + rest;
    } else {
      var rest := QuoteBody(v[1..]) + [DQUOTE];
      ScanOfQuoteBody(lines, i, v[1..]);
      ScanEscape(lines, i, v[0], rest);
      assert QuoteBody(v) + [DQUOTE] == EscapeUnit(v[0]) + rest;
    }
  }

  /** A line that starts with a key and an equals sign has no export prefix to drop. */
  lemma AssignmentOfKey(key: Text, tail: Text)
    requires IsDotenvKey(key)
    ensures TrimStart(key + [EQUALS] + tail) == key + [EQUALS] + tail
    ensures Assignment(key + [EQUALS] + tail) == key + [EQUALS] + tail
  {
    var line := key + [EQUALS] + tail;
    assert IsKeyUnit(line[0]);
    var k := if |key| <= 6 then |key| else 6;
    if k < |key| {
      assert IsKeyUnit(key[k]);
    }
    assert line[k] != Ascii("export ")[k] && line[k] != Ascii("export\t")[k];
  }

  /** A line KEY="body" on its own reads back as that key and whatever the body scans to. */
  lemma AssignmentReads(lines: seq<Text>, i: nat, seen: set<Text>, key: Text, body: Text, value: Text)
    requires i < |lines| && IsDotenvKey(key) && key !in seen
    requires lines[i] == key + [EQUALS] + ([DQUOTE] + body)
    requires Scan(lines, i, body, DQUOTE) == Scanned(value, i, [], true)
    ensures ReadLine(lines, i, seen) == Assign(DotenvEntry(key, value, i + 1), i + 1)
  {
    hide Scan, Unquoted;
    var line := lines[i];
    AssignmentOfKey(key, [DQUOTE] + body);
    assert EQUALS !in key by {
      assert forall j :: 0 <= j < |key| ==> IsKeyUnit(key[j]);
    }
    IndexOfUnit(key, EQUALS, [DQUOTE] + body);
    assert line[..|key|] == key;
    assert Trim(key) == key by {
      forall j | 0 <= j < |key| ensures !IsSpace(key[j]) { assert IsKeyUnit(key[j]); }
      TrimOfDense(key);
    }
    var initial := line[|key| + 1..];
    assert initial == [DQUOTE] + body;
    assert TrimStart(initial) == initial && initial[1..] == body;
  }

  /** A document of such lines parses to exactly their assignments, in order and numbered from 1. */
  ghost predicate AreAssignments(rows: seq<Text>, keys: seq<Text>, bodies: seq<Text>, values: seq<Text>) {
    && |rows| == |keys| == |bodies| == |values|
    && (forall i :: 0 <= i < |rows| ==>
          && IsDotenvKey(keys[i])
          && rows[i] == keys[i] + [EQUALS] + ([DQUOTE] + bodies[i])
          && LF !in bodies[i] && bodies[i] != [] && bodies[i][|bodies[i]| - 1] == DQUOTE
          && forall lines: seq<Text>, k: nat {:trigger Scan(lines, k, bodies[i], DQUOTE)} ::
               k < |lines| ==> Scan(lines, k, bodies[i], DQUOTE) == Scanned(values[i], k, [], true))
    && (forall i, j :: 0 <= i < j < |keys| ==> keys[i] != keys[j])
  }

  function Entries(keys: seq<Text>, values: seq<Text>): seq<DotenvEntry>
    requires |keys| == |values|
  {
    seq(|keys|, i requires 0 <= i < |keys| => DotenvEntry(keys[i], values[i], i + 1))
  }

  lemma {:induction false} ParseRowsFrom(
    rows: seq<Text>, keys: seq<Text>, bodies: seq<Text>, values: seq<Text>, i: nat, seen: set<Text>)
    requires AreAssignments(rows, keys, bodies, values) && i <= |rows|
    requires forall j :: i <= j < |keys| ==> keys[j] !in seen
    ensures ParseFrom(rows + [[]], i, seen) == Parsed(Entries(keys, values)[i..], [])
    decreases |rows| - i
  {
    hide ParseFrom, ReadLine, Scan;
    var lines := rows + [[]];
    if i == |rows| {
      LastLineIsEmpty(lines, i, seen);
    } else {
      AssignmentReads(lines, i, seen, keys[i], bodies[i], values[i]);
      ParseRowsFrom(rows, keys, bodies, values, i + 1, seen + {keys[i]});
      var all := Entries(keys, values);
      assert all[i..] == [all[i]] + all[i + 1..];
      AssignmentFirst(lines, i, seen, all[i], all[i + 1..]);
    }
  }

  lemma LastLineIsEmpty(lines: seq<Text>, i: nat, seen: set<Text>)
    requires i + 1 == |lines| && lines[i] == []
    ensures ParseFrom(lines, i, seen) == Parsed([], [])
  {
  }

  lemma AssignmentFirst(lines: seq<Text>, i: nat, seen: set<Text>, entry: DotenvEntry, rest: seq<DotenvEntry>)
    requires i < |lines| && ReadLine(lines, i, seen) == Assign(entry, i + 1)
    requires ParseFrom(lines, i + 1, seen + {entry.key}) == Parsed(rest, [])
    ensures ParseFrom(lines, i, seen) == Parsed([entry] + rest, [])
  {
    hide ReadLine;
  }

  lemma RowHasNoLf(key: Text, body: Text)
    requires IsDotenvKey(key) && LF !in body
    ensures LF !in key + [EQUALS] + ([DQUOTE] + body)
  {
    assert forall k :: 0 <= k < |key| ==> IsKeyUnit(key[k]);
  }

  lemma ParseRows(rows: seq<Text>, keys: seq<Text>, bodies: seq<Text>, values: seq<Text>)
    requires AreAssignments(rows, keys, bodies, values)
    ensures Parse(Join(rows, [LF]) + if rows == [] then [] else [LF]) == Parsed(Entries(keys, values), [])
  {
    hide ParseFrom, Split, Entries;
    var lines := rows + [[]];
    var text := Join(rows, [LF]) + if rows == [] then [] else [LF];
    JoinSnocEmpty(rows);
    forall i | 0 <= i < |rows| ensures LF !in rows[i] {
      RowHasNoLf(keys[i], bodies[i]);
    }
    SplitOfJoin(lines, LF);
    assert SplitLines(text) == lines;
    assert StripBom(text) == text by {
      if rows != [] {
        JoinHead(rows);
        assert IsKeyUnit(keys[0][0]);
      }
    }
    ParseRowsFrom(rows, keys, bodies, values, 0, {});
  }

  lemma {:induction false} JoinSnocEmpty(rows: seq<Text>)
    ensures Join(rows + [[]], [LF]) == Join(rows, [LF]) + if rows == [] then [] else [LF]
  {
    if |rows| == 1 {
      assert (rows + [[]])[1..] == [[]];
    } else if rows != [] {
      assert (rows + [[]])[1..] == rows[1..] + [[]];
      JoinSnocEmpty(rows[1..]);
    }
  }

  lemma JoinHead(rows: seq<Text>)
    requires rows != [] && rows[0] != []
    ensures Join(rows, [LF]) != [] && Join(rows, [LF])[0] == rows[0][0]
  {
  }

  lemma {:induction false} QuoteBodyHasNoLf(v: Text)
    ensures LF !in QuoteBody(v)
  {
    if v == [] {
    } else if StartsWithPair(v) {
      QuoteBodyHasNoLf(v[2..]);
    } else {
      QuoteBodyHasNoLf(v[1..]);
      assert LF !in EscapeUnit(v[0]);
    }
  }

  ghost predicate DistinctKeys(secrets: seq<Secret>) {
    forall i, j :: 0 <= i < j < |secrets| ==> secrets[i].key != secrets[j].key
  }

  function Values(secrets: seq<Secret>): seq<Text> {
    seq(|secrets|, i requires 0 <= i < |secrets| => secrets[i].value)
  }

  function Keys(secrets: seq<Secret>): seq<Text> {
    seq(|secrets|, i requires 0 <= i < |secrets| => secrets[i].key)
  }

  function Literals(values: seq<Text>): seq<Text> {
    seq(|values|, i requires 0 <= i < |values| => Literal(values[i]))
  }

  /** Whatever the values, the export parses without issues to the same keys, with unknown escapes left in place. */
  lemma DotenvExportParses(secrets: seq<Secret>)
    requires DistinctKeys(secrets)
    requires forall i :: 0 <= i < |secrets| ==> IsExportable(secrets[i].key)
    ensures SerializeDotenv(secrets).Ok?
    ensures Parse(SerializeDotenv(secrets).value) == Parsed(Entries(Keys(secrets), Literals(Values(secrets))), [])
  {
    var rows := SerializeRows(secrets, DotenvLine).value;
    var bodies := seq(|secrets|, i requires 0 <= i < |secrets| => QuoteBody(secrets[i].value) + [DQUOTE]);
    var values := Literals(Values(secrets));
    forall i | 0 <= i < |rows|
      ensures IsDotenvKey(secrets[i].key)
      ensures rows[i] == secrets[i].key + [EQUALS] + ([DQUOTE] + bodies[i])
      ensures LF !in bodies[i]
    {
      QuoteBodyHasNoLf(secrets[i].value);
      assert [DQUOTE] + QuoteBody(secrets[i].value) + [DQUOTE] == [DQUOTE] + bodies[i];
    }
    forall i, lines: seq<Text>, k: nat | 0 <= i < |rows| && k < |lines|
      ensures Scan(lines, k, bodies[i], DQUOTE) == Scanned(values[i], k, [], true)
    {
      ScanOfQuoteBody(lines, k, secrets[i].value);
    }
    ParseRows(rows, Keys(secrets), bodies, values);
  }

  /** The dotenv round trip holds exactly for the clean values. */
  lemma DotenvRoundTrip(secrets: seq<Secret>)
    requires DistinctKeys(secrets)
    requires forall i :: 0 <= i < |secrets| ==> IsExportable(secrets[i].key)
    ensures SerializeDotenv(secrets).Ok?
    ensures Parse(SerializeDotenv(secrets).value) == Parsed(Entries(Keys(secrets), Values(secrets)), [])
       <==> forall i :: 0 <= i < |secrets| ==> IsClean(secrets[i].value)
  {
    DotenvExportParses(secrets);
    var got := Entries(Keys(secrets), Literals(Values(secrets)));
    var want := Entries(Keys(secrets), Values(secrets));
    forall i | 0 <= i < |secrets|
      ensures got[i] == want[i] <==> IsClean(secrets[i].value)
    {
      LiteralLength(secrets[i].value);
    }
    if forall i :: 0 <= i < |secrets| ==> IsClean(secrets[i].value) {
      assert got == want;
    }
  }
}
