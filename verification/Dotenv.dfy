/** The dotenv reader of packages/imports: its loops, and the function they compute. */
module Dotenv {
  import opened Wrappers
  import opened Strings

  datatype DotenvEntry = DotenvEntry(key: Text, value: Text, line: nat)

  datatype IssueCode = InvalidAssignment | InvalidKey | DuplicateKey | UnterminatedQuote | TrailingContent

  datatype DotenvIssue = DotenvIssue(line: nat, code: IssueCode, key: Option<Text>)

  /** What reading a quoted value yields; trailing is the rest of the line that closed it. */
  datatype Scanned = Scanned(value: Text, finalLine: nat, trailing: Text, terminated: bool)

  datatype LineOutcome =
    | Skip
    | Problem(issue: DotenvIssue, next: nat)
    | Assign(entry: DotenvEntry, next: nat)

  datatype Parsed = Parsed(entries: seq<DotenvEntry>, issues: seq<DotenvIssue>)

  predicate IsKeyStart(u: Unit) { IsAlpha(u) || u == 0x5F }

  predicate IsKeyUnit(u: Unit) { IsKeyStart(u) || IsDigit(u) || u == 0x2E || u == 0x2D }

  /** keyPattern. */
  predicate IsDotenvKey(key: Text) {
    key != [] && IsKeyStart(key[0]) && forall i :: 0 <= i < |key| ==> IsKeyUnit(key[i])
  }

  function StripBom(source: Text): Text {
    if source != [] && source[0] == 0xFEFF then source[1..] else source
  }

  function StripCr(line: Text): Text {
    if line != [] && line[|line| - 1] == CR then line[..|line| - 1] else line
  }

  /** source.split(/\r?\n/). */
  function SplitLines(source: Text): (lines: seq<Text>)
    ensures |lines| >= 1
  {
    var parts := Split(source, [LF]);
    seq(|parts|, i requires 0 <= i < |parts| => if i + 1 < |parts| then StripCr(parts[i]) else parts[i])
  }

  /** The text a backslash followed by next stands for inside the given quotes. */
  function Unescape(next: Unit, quote: Unit): Text {
    if next == quote || next == BACKSLASH then [next]
    else if quote == DQUOTE && next == 0x6E then [LF]
    else if quote == DQUOTE && next == 0x72 then [CR]
    else if quote == DQUOTE && next == 0x74 then [TAB]
    else [BACKSLASH, next]
  }

  function Prepend(t: Text, s: Scanned): Scanned { s.(value := t + s.value) }

  ghost function Scan(lines: seq<Text>, lineIndex: nat, text: Text, quote: Unit): (s: Scanned)
    requires lineIndex < |lines|
    ensures lineIndex <= s.finalLine < |lines|
    decreases |lines| - lineIndex, |text|
  {
    if text == [] then
      if lineIndex + 1 == |lines| then Scanned([], lineIndex, [], false)
      else Prepend([LF], Scan(lines, lineIndex + 1, lines[lineIndex + 1], quote))
    else if text[0] == BACKSLASH then
      if |text| == 1 then Prepend([BACKSLASH], Scan(lines, lineIndex, [], quote))
      else Prepend(Unescape(text[1], quote), Scan(lines, lineIndex, text[2..], quote))
    else if text[0] == quote then Scanned([], lineIndex, text[1..], true)
    else Prepend([text[0]], Scan(lines, lineIndex, text[1..], quote))
  }

  predicate IsEscapedHash(t: Text) { |t| >= 2 && t[0] == BACKSLASH && t[1] == HASH }

  ghost function Unquoted(input: Text): Text
    decreases |input|
  {
    if input == [] || input[0] == HASH then []
    else if IsEscapedHash(input) then [HASH] + Unquoted(input[2..])
    else [input[0]] + Unquoted(input[1..])
  }

  function Assignment(line: Text): Text {
    var a := TrimStart(line);
    if Ascii("export ") <= a || Ascii("export\t") <= a then TrimStart(a[6..]) else a
  }

  predicate IsQuote(u: Unit) { u == DQUOTE || u == SQUOTE || u == BACKTICK }

  /** What the line at index i contributes when the keys in seen are already taken. */
  ghost function ReadLine(lines: seq<Text>, i: nat, seen: set<Text>): (o: LineOutcome)
    requires i < |lines|
    ensures !o.Skip? ==> i < o.next <= |lines|
  {
    var start := TrimStart(lines[i]);
    if start == [] || start[0] == HASH then Skip
    else
      var assignment := Assignment(lines[i]);
      var equals := IndexOf(assignment, [EQUALS]);
      if equals < 0 then Problem(DotenvIssue(i + 1, InvalidAssignment, None), i + 1)
      else
        var key := Trim(assignment[..equals]);
        if !IsDotenvKey(key) then
          Problem(DotenvIssue(i + 1, InvalidKey, if key == [] then None else Some(key)), i + 1)
        else if key in seen then Problem(DotenvIssue(i + 1, DuplicateKey, Some(key)), i + 1)
        else
          var initial := TrimStart(assignment[equals + 1..]);
          if initial != [] && IsQuote(initial[0]) then
            var s := Scan(lines, i, initial[1..], initial[0]);
            var trailing := Trim(s.trailing);
            if !s.terminated then Problem(DotenvIssue(i + 1, UnterminatedQuote, Some(key)), s.finalLine + 1)
            else if trailing != [] && trailing[0] != HASH then
              Problem(DotenvIssue(i + 1, TrailingContent, Some(key)), s.finalLine + 1)
            else Assign(DotenvEntry(key, s.value, i + 1), s.finalLine + 1)
          else Assign(DotenvEntry(key, TrimEnd(Unquoted(initial)), i + 1), i + 1)
  }

  ghost function ParseFrom(lines: seq<Text>, i: nat, seen: set<Text>): Parsed
    decreases |lines| - i
  {
    if i >= |lines| then Parsed([], [])
    else
      match ReadLine(lines, i, seen)
      case Skip => ParseFrom(lines, i + 1, seen)
      case Problem(issue, next) =>
        var rest := ParseFrom(lines, next, seen);
        rest.(issues := [issue] + rest.issues)
      case Assign(entry, next) =>
        var rest := ParseFrom(lines, next, seen + {entry.key});
        rest.(entries := [entry] + rest.entries)
  }

  ghost function Parse(source: Text): Parsed { ParseFrom(SplitLines(StripBom(source)), 0, {}) }

  lemma PrependPrepend(a: Text, b: Text, s: Scanned)
    ensures Prepend(a, Prepend(b, s)) == Prepend(a + b, s)
  {
    assert a + (b + s.value) == a + b + s.value;
  }

  /** One step of the scan, in terms of the cursor. */
  lemma ScanStep(lines: seq<Text>, lineIndex: nat, text: Text, cursor: nat, quote: Unit)
    requires lineIndex < |lines| && cursor < |text|
    ensures var here := Scan(lines, lineIndex, text[cursor..], quote);
            if text[cursor] == BACKSLASH then
              if cursor + 1 == |text| then here == Prepend([BACKSLASH], Scan(lines, lineIndex, text[cursor + 1..], quote))
              else here == Prepend(Unescape(text[cursor + 1], quote), Scan(lines, lineIndex, text[cursor + 2..], quote))
            else if text[cursor] == quote then here == Scanned([], lineIndex, text[cursor + 1..], true)
            else here == Prepend([text[cursor]], Scan(lines, lineIndex, text[cursor + 1..], quote))
  {
    var here := text[cursor..];
    assert here[1..] == text[cursor + 1..];
    if cursor + 2 <= |text| {
      assert here[2..] == text[cursor + 2..];
    }
  }

  method ParseQuoted(lines: seq<Text>, startIndex: nat, initial: Text, quote: Unit) returns (s: Scanned)
    requires startIndex < |lines| && initial != []
    ensures s == Scan(lines, startIndex, initial[1..], quote)
  {
    var value: Text := [];
    var lineIndex := startIndex;
    var text := initial[1..];
    ghost var whole := Scan(lines, startIndex, text, quote);
    while true
      invariant lineIndex < |lines|
      invariant Prepend(value, Scan(lines, lineIndex, text, quote)) == whole
      decreases |lines| - lineIndex
    {
      var cursor := 0;
      assert text[cursor..] == text;
      while cursor < |text|
        invariant 0 <= cursor <= |text|
        invariant Prepend(value, Scan(lines, lineIndex, text[cursor..], quote)) == whole
      {
        ScanStep(lines, lineIndex, text, cursor, quote);
        var character := text[cursor];
        if character == BACKSLASH {
          if cursor + 1 == |text| {
            PrependPrepend(value, [BACKSLASH], Scan(lines, lineIndex, text[cursor + 1..], quote));
            value := value + [BACKSLASH];
            cursor := cursor + 1;
          } else {
            var piece := Unescape(text[cursor + 1], quote);
            PrependPrepend(value, piece, Scan(lines, lineIndex, text[cursor + 2..], quote));
            value := value + piece;
            cursor := cursor + 2;
          }
        } else if character == quote {
          return Scanned(value, lineIndex, text[cursor + 1..], true);
        } else {
          PrependPrepend(value, [character], Scan(lines, lineIndex, text[cursor + 1..], quote));
          value := value + [character];
          cursor := cursor + 1;
        }
      }
      assert text[cursor..] == [];
      lineIndex := lineIndex + 1;
      if lineIndex == |lines| {
        return Scanned(value, lineIndex - 1, [], false);
      }
      PrependPrepend(value, [LF], Scan(lines, lineIndex, lines[lineIndex], quote));
      value := value + [LF];
      text := lines[lineIndex];
    }
  }

  lemma UnquotedStep(input: Text, index: nat, value: Text)
    requires index < |input| && input[index] != HASH
    ensures var here := input[index..];
            if IsEscapedHash(here) then
              value + Unquoted(here) == value + [HASH] + Unquoted(input[index + 2..])
            else value + Unquoted(here) == value + [input[index]] + Unquoted(input[index + 1..])
  {
    var here := input[index..];
    if IsEscapedHash(here) {
      assert here[2..] == input[index + 2..];
    } else {
      assert here[1..] == input[index + 1..];
    }
  }

  method UnquotedValue(input: Text) returns (value: Text)
    ensures value == TrimEnd(Unquoted(input))
  {
    value := [];
    var index := 0;
    assert input[index..] == input;
    while index < |input| && input[index] != HASH
      invariant 0 <= index <= |input|
      invariant value + Unquoted(input[index..]) == Unquoted(input)
    {
      UnquotedStep(input, index, value);
      if IsEscapedHash(input[index..]) {
        value := value + [HASH];
        index := index + 2;
      } else {
        value := value + [input[index]];
        index := index + 1;
      }
    }
    assert value + [] == value;
    value := TrimEnd(value);
  }

  /** The body of the line loop. */
  method ParseLine(lines: seq<Text>, index: nat, seen: set<Text>) returns (o: LineOutcome)
    requires index < |lines|
    ensures o == ReadLine(lines, index, seen)
  {
    var startLine := index + 1;
    var start := TrimStart(lines[index]);
    if start == [] || start[0] == HASH {
      return Skip;
    }
    var assignment := Assignment(lines[index]);
    var equals := IndexOf(assignment, [EQUALS]);
    if equals < 0 {
      return Problem(DotenvIssue(startLine, InvalidAssignment, None), index + 1);
    }
    var key := Trim(assignment[..equals]);
    if !IsDotenvKey(key) {
      return Problem(DotenvIssue(startLine, InvalidKey, if key == [] then None else Some(key)), index + 1);
    }
    if key in seen {
      return Problem(DotenvIssue(startLine, DuplicateKey, Some(key)), index + 1);
    }
    var initial := TrimStart(assignment[equals + 1..]);
    if initial != [] && IsQuote(initial[0]) {
      var parsed := ParseQuoted(lines, index, initial, initial[0]);
      if !parsed.terminated {
        return Problem(DotenvIssue(startLine, UnterminatedQuote, Some(key)), parsed.finalLine + 1);
      }
      var trailing := Trim(parsed.trailing);
      if trailing != [] && trailing[0] != HASH {
        return Problem(DotenvIssue(startLine, TrailingContent, Some(key)), parsed.finalLine + 1);
      }
      return Assign(DotenvEntry(key, parsed.value, startLine), parsed.finalLine + 1);
    }
    var value := UnquotedValue(initial);
    return Assign(DotenvEntry(key, value, startLine), index + 1);
  }

  function Append(a: Parsed, b: Parsed): Parsed { Parsed(a.entries + b.entries, a.issues + b.issues) }

  function Contribution(o: LineOutcome): Parsed {
    match o
    case Skip => Parsed([], [])
    case Problem(issue, _) => Parsed([], [issue])
    case Assign(entry, _) => Parsed([entry], [])
  }

  lemma AppendAppend(a: Parsed, b: Parsed, c: Parsed)
    ensures Append(a, Append(b, c)) == Append(Append(a, b), c)
  {
    assert a.entries + (b.entries + c.entries) == a.entries + b.entries + c.entries;
    assert a.issues + (b.issues + c.issues) == a.issues + b.issues + c.issues;
  }

  ghost function NextLine(o: LineOutcome, i: nat): nat { if o.Skip? then i + 1 else o.next }

  ghost function NextSeen(o: LineOutcome, seen: set<Text>): set<Text> {
    if o.Assign? then seen + {o.entry.key} else seen
  }

  lemma ParseStep(lines: seq<Text>, i: nat, seen: set<Text>, o: LineOutcome)
    requires i < |lines| && o == ReadLine(lines, i, seen)
    ensures i < NextLine(o, i) <= |lines|
    ensures ParseFrom(lines, i, seen) == Append(Contribution(o), ParseFrom(lines, NextLine(o, i), NextSeen(o, seen)))
  {
    var rest := ParseFrom(lines, NextLine(o, i), NextSeen(o, seen));
    assert [] + rest.entries == rest.entries && [] + rest.issues == rest.issues;
  }

  method ParseDotenv(source: Text) returns (entries: seq<DotenvEntry>, issues: seq<DotenvIssue>)
    ensures Parsed(entries, issues) == Parse(source)
  {
    var lines := SplitLines(StripBom(source));
    ghost var whole := ParseFrom(lines, 0, {});
    entries, issues := [], [];
    var seen: set<Text> := {};
    var index := 0;
    while index < |lines|
      invariant Append(Parsed(entries, issues), ParseFrom(lines, index, seen)) == whole
      decreases |lines| - index
    {
      var outcome := ParseLine(lines, index, seen);
      ParseStep(lines, index, seen, outcome);
      ghost var rest := ParseFrom(lines, NextLine(outcome, index), NextSeen(outcome, seen));
      AppendAppend(Parsed(entries, issues), Contribution(outcome), rest);
      match outcome {
        case Skip =>
          index := index + 1;
        case Problem(issue, next) =>
          issues := issues + [issue];
          index := next;
        case Assign(entry, next) =>
          seen := seen + {entry.key};
          entries := entries + [entry];
          index := next;
      }
    }
    assert Append(Parsed(entries, issues), Parsed([], [])) == Parsed(entries, issues);
  }

  /** Whatever the source, parsed keys are well formed and distinct, and line numbers increase. */
  ghost predicate WellFormed(entries: seq<DotenvEntry>, firstLine: nat, lineCount: nat, seen: set<Text>) {
    && (forall i :: 0 <= i < |entries| ==>
          IsDotenvKey(entries[i].key) && entries[i].key !in seen && firstLine <= entries[i].line <= lineCount)
    && (forall i, j :: 0 <= i < j < |entries| ==>
          entries[i].key != entries[j].key && entries[i].line < entries[j].line)
  }

  /** An assignment is read from the line at index i, under a well-formed key that is not taken. */
  lemma OutcomeIsWellFormed(lines: seq<Text>, i: nat, seen: set<Text>, o: LineOutcome)
    requires i < |lines| && o == ReadLine(lines, i, seen)
    ensures o.Assign? ==> IsDotenvKey(o.entry.key) && o.entry.key !in seen && o.entry.line == i + 1
  {
    hide IsDotenvKey;
  }

  lemma PrependWellFormed(o: LineOutcome, rest: seq<DotenvEntry>, i: nat, lineCount: nat, seen: set<Text>)
    requires o.Assign? ==> IsDotenvKey(o.entry.key) && o.entry.key !in seen && o.entry.line == i + 1
    requires i < NextLine(o, i) <= lineCount && WellFormed(rest, NextLine(o, i) + 1, lineCount, NextSeen(o, seen))
    ensures WellFormed(Contribution(o).entries + rest, i + 1, lineCount, seen)
  {
    hide IsDotenvKey;
  }

  lemma {:induction false} ParseFromWellFormed(lines: seq<Text>, i: nat, seen: set<Text>)
    ensures WellFormed(ParseFrom(lines, i, seen).entries, i + 1, |lines|, seen)
    decreases |lines| - i
  {
    hide ParseFrom, ReadLine, IsDotenvKey, WellFormed;
    if i < |lines| {
      var outcome := ReadLine(lines, i, seen);
      ParseStep(lines, i, seen, outcome);
      OutcomeIsWellFormed(lines, i, seen, outcome);
      ParseFromWellFormed(lines, NextLine(outcome, i), NextSeen(outcome, seen));
      var rest := ParseFrom(lines, NextLine(outcome, i), NextSeen(outcome, seen)).entries;
      PrependWellFormed(outcome, rest, i, |lines|, seen);
    } else {
      EndIsWellFormed(lines, i, seen);
    }
  }

  lemma EndIsWellFormed(lines: seq<Text>, i: nat, seen: set<Text>)
    requires i >= |lines|
    ensures WellFormed(ParseFrom(lines, i, seen).entries, i + 1, |lines|, seen)
  {
  }
}
