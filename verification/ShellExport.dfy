/**
  The shell branch of serializeSecretExport against an independent reader of simple commands
  that follows sections 2.2.1 (escape character) and 2.2.2 (single-quotes) of the POSIX.1-2017
  Shell Command Language.
 */
module ShellExport {
  import opened Wrappers
  import opened Strings
  import Dotenv
  import opened LineExport

  /** value.replaceAll("'", "'\\''"). */
  function EscapeQuotes(v: Text): Text {
    if v == [] then []
    else if v[0] == SQUOTE then [SQUOTE, BACKSLASH, SQUOTE, SQUOTE] + EscapeQuotes(v[1..])
    else [v[0]] + EscapeQuotes(v[1..])
  }

  function ShellLine(s: Secret): Text {
    Ascii("export ") + s.key + [EQUALS] + ([SQUOTE] + EscapeQuotes(s.value) + [SQUOTE])
  }

  function SerializeShell(secrets: seq<Secret>): Result<Text, ExportError> { SerializeLines(secrets, ShellLine) }

  // ---- the reader ----

  predicate IsBlank(u: Unit) { u == SPACE || u == TAB }

  /** Characters that would mean something else outside quotes; this reader refuses them there. */
  predicate IsSpecial(u: Unit) {
    u in {0x00, 0x21, 0x22, 0x23, 0x24, 0x25, 0x26, 0x28, 0x29, 0x2A, 0x3B, 0x3C, 0x3E, 0x3F, 0x5B, 0x5D, 0x60, 0x7B,
          0x7C, 0x7D, 0x7E}
  }

  function Cons(u: Unit, r: Option<(Text, Text)>): Option<(Text, Text)> {
    match r
    case None => None
    case Some((word, rest)) => Some(([u] + word, rest))
  }

  /** Reads the rest of a word; returns it and what follows. */
  function ReadWord(t: Text): (r: Option<(Text, Text)>)
    ensures r.Some? ==> |r.value.1| <= |t|
    ensures r.Some? && t != [] && !IsBlank(t[0]) && t[0] != LF ==> |r.value.1| < |t|
    decreases |t|
  {
    if t == [] || IsBlank(t[0]) || t[0] == LF then Some(([], t))
    else if t[0] == SQUOTE then ReadQuoted(t[1..])
    else if t[0] == BACKSLASH then
      if |t| == 1 || t[1] == NUL then None
      else if t[1] == LF then ReadWord(t[2..])
      else Cons(t[1], ReadWord(t[2..]))
    else if IsSpecial(t[0]) then None
    else Cons(t[0], ReadWord(t[1..]))
  }

  /** The same from inside single quotes. */
  function ReadQuoted(t: Text): (r: Option<(Text, Text)>)
    ensures r.Some? ==> |r.value.1| <= |t|
    decreases |t|
  {
    if t == [] || t[0] == NUL then None
    else if t[0] == SQUOTE then ReadWord(t[1..])
    else Cons(t[0], ReadQuoted(t[1..]))
  }

  /** Reads the words of one command line. */
  function ReadCommand(t: Text): (r: Option<(seq<Text>, Text)>)
    ensures r.Some? && t != [] ==> |r.value.1| < |t|
    decreases |t|
  {
    if t == [] then Some(([], []))
    else if t[0] == LF then Some(([], t[1..]))
    else if IsBlank(t[0]) then ReadCommand(t[1..])
    else
      match ReadWord(t)
      case None => None
      case Some((word, rest)) =>
        match ReadCommand(rest)
        case None => None
        case Some((words, after)) => Some(([word] + words, after))
  }

  /** What the export utility does with its operand: NAME=value, split at the first equals sign. */
  function ExportOf(words: seq<Text>): Option<Secret> {
    if |words| != 2 || words[0] != Ascii("export") then None
    else
      var i := IndexOf(words[1], [EQUALS]);
      if i < 0 || !IsExportable(words[1][..i]) then None
      else Some(Secret(words[1][..i], words[1][i + 1..]))
  }

  function ReadExports(t: Text): Option<seq<Secret>>
    decreases |t|
  {
    if t == [] then Some([])
    else
      match ReadCommand(t)
      case None => None
      case Some((words, rest)) =>
        match (ExportOf(words), ReadExports(rest))
        case (Some(s), Some(more)) => Some([s] + more)
        case _ => None
  }

  // ---- the round trip ----

  lemma ReadEscapedQuote(t: Text)
    ensures ReadQuoted([SQUOTE, BACKSLASH, SQUOTE, SQUOTE] + t) == Cons(SQUOTE, ReadQuoted(t))
  {
    var reopened := [SQUOTE] + t;
    assert ReadWord(reopened) == ReadQuoted(t) by { assert reopened[1..] == t; }
    var escaped := [BACKSLASH, SQUOTE] + reopened;
    assert ReadWord(escaped) == Cons(SQUOTE, ReadWord(reopened)) by { assert escaped[2..] == reopened; }
    var whole := [SQUOTE, BACKSLASH, SQUOTE, SQUOTE] + t;
    assert whole[1..] == escaped;
  }

  lemma ReadUnquoted(u: Unit, t: Text)
    requires u != SQUOTE
    ensures ReadQuoted([u] + t) == if u == NUL then None else Cons(u, ReadQuoted(t))
  {
    assert ([u] + t)[1..] == t;
  }

  lemma ReadClosing(rest: Text)
    ensures ReadQuoted([SQUOTE, LF] + rest) == Some(([], [LF] + rest))
  {
    assert ([SQUOTE, LF] + rest)[1..] == [LF] + rest;
  }

  lemma EscapeFirst(v: Text, tail: Text)
    requires v != []
    ensures EscapeQuotes(v) + tail ==
            (if v[0] == SQUOTE then [SQUOTE, BACKSLASH, SQUOTE, SQUOTE] else [v[0]]) + (EscapeQuotes(v[1..]) + tail)
  {
  }

  lemma {:induction false} ReadEscapedQuotes(v: Text, rest: Text)
    ensures ReadQuoted(EscapeQuotes(v) + ([SQUOTE, LF] + rest))
         == if NUL in v then None else Some((v, [LF] + rest))
  {
    hide ReadQuoted;
    var tail := [SQUOTE, LF] + rest;
    if v == [] {
      assert EscapeQuotes(v) + tail == tail;
      ReadClosing(rest);
    } else {
      EscapeFirst(v, tail);
      hide EscapeQuotes;
      ReadEscapedQuotes(v[1..], rest);
      assert v == [v[0]] + v[1..];
      if v[0] == SQUOTE {
        ReadEscapedQuote(EscapeQuotes(v[1..]) + tail);
      } else {
        ReadUnquoted(v[0], EscapeQuotes(v[1..]) + tail);
      }
    }
  }

  lemma {:induction false} ReadPlain(plain: Text, rest: Text)
    requires forall i :: 0 <= i < |plain| ==> Dotenv.IsKeyUnit(plain[i]) || plain[i] == EQUALS
    ensures ReadWord(plain + rest)
         == match ReadWord(rest) case None => None case Some((w, after)) => Some((plain + w, after))
  {
    if plain == [] {
      assert plain + rest == rest;
      assert ReadWord(rest).Some? ==> [] + ReadWord(rest).value.0 == ReadWord(rest).value.0;
    } else {
      ReadPlain(plain[1..], rest);
      assert (plain + rest)[1..] == plain[1..] + rest;
      assert ReadWord(rest).Some? ==> [plain[0]] + (plain[1..] + ReadWord(rest).value.0) == plain + ReadWord(rest).value.0;
    }
  }

  lemma ReadOperand(s: Secret, rest: Text)
    requires IsExportable(s.key)
    ensures ReadWord(s.key + [EQUALS] + ([SQUOTE] + EscapeQuotes(s.value) + [SQUOTE]) + ([LF] + rest))
         == if NUL in s.value then None else Some((s.key + [EQUALS] + s.value, [LF] + rest))
  {
    var plain := s.key + [EQUALS];
    var quoted := [SQUOTE] + (EscapeQuotes(s.value) + ([SQUOTE, LF] + rest));
    ReadEscapedQuotes(s.value, rest);
    assert quoted[1..] == EscapeQuotes(s.value) + ([SQUOTE, LF] + rest);
    ReadPlain(plain, quoted);
    assert plain + ([SQUOTE] + EscapeQuotes(s.value) + [SQUOTE]) + ([LF] + rest) == plain + quoted;
  }

  /** A command line of one word before the line feed. */
  lemma ReadLastWord(t: Text, word: Text, rest: Text)
    requires t != [] && !IsBlank(t[0]) && t[0] != LF
    requires ReadWord(t) == Some((word, [LF] + rest))
    ensures ReadCommand(t) == Some(([word], rest))
  {
    assert ([LF] + rest)[1..] == rest;
    assert ReadCommand([LF] + rest) == Some(([], rest));
    assert [word] + [] == [word];
  }

  lemma ReadNoWord(t: Text)
    requires t != [] && !IsBlank(t[0]) && t[0] != LF && ReadWord(t) == None
    ensures ReadCommand(t) == None
  {
  }

  lemma ReadShellLine(s: Secret, rest: Text)
    requires IsExportable(s.key)
    ensures ReadCommand(ShellLine(s) + ([LF] + rest))
         == if NUL in s.value then None else Some(([Ascii("export"), s.key + [EQUALS] + s.value], rest))
  {
    hide ReadCommand, EscapeQuotes;
    var operand := s.key + [EQUALS] + ([SQUOTE] + EscapeQuotes(s.value) + [SQUOTE]) + ([LF] + rest);
    var word := s.key + [EQUALS] + s.value;
    ReadOperand(s, rest);
    assert operand[0] == s.key[0] && Dotenv.IsKeyUnit(operand[0]);
    if NUL in s.value {
      ReadNoWord(operand);
    } else {
      ReadLastWord(operand, word, rest);
    }
    ReadExportWord(operand, if NUL in s.value then None else Some(([word], rest)));
    assert [Ascii("export")] + [word] == [Ascii("export"), word];
    var line := Ascii("export ");
    assert line == Ascii("export") + [SPACE];
    assert ShellLine(s) + ([LF] + rest) == Ascii("export") + ([SPACE] + operand);
  }

  lemma ReadExportWord(operand: Text, r: Option<(seq<Text>, Text)>)
    requires ReadCommand(operand) == r
    ensures ReadCommand(Ascii("export") + ([SPACE] + operand))
         == match r case None => None case Some((words, rest)) => Some(([Ascii("export")] + words, rest))
  {
    var spaced := [SPACE] + operand;
    assert ReadCommand(spaced) == r by { assert spaced[1..] == operand; }
    var e := Ascii("export");
    forall i | 0 <= i < |e| ensures Dotenv.IsKeyUnit(e[i]) {}
    ReadPlain(e, spaced);
    assert e + [] == e;
    assert (e + spaced)[0] == e[0] == 0x65;
  }

  lemma ExportOfLine(s: Secret)
    requires IsExportable(s.key)
    ensures ExportOf([Ascii("export"), s.key + [EQUALS] + s.value]) == Some(s)
  {
    var word := s.key + [EQUALS] + s.value;
    IndexOfUnit(s.key, EQUALS, s.value);
    assert word[..|s.key|] == s.key && word[|s.key| + 1..] == s.value;
  }

  /** Lines each closed by a line feed: the join with its closing line feed, unfolded. */
  function Document(rows: seq<Text>): Text {
    if rows == [] then [] else rows[0] + ([LF] + Document(rows[1..]))
  }

  lemma {:induction false} JoinIsDocument(rows: seq<Text>)
    ensures Join(rows, [LF]) + (if rows == [] then [] else [LF]) == Document(rows)
  {
    if |rows| > 1 {
      JoinIsDocument(rows[1..]);
    }
  }

  lemma {:induction false} ReadDocument(secrets: seq<Secret>)
    requires forall i :: 0 <= i < |secrets| ==> IsExportable(secrets[i].key)
    ensures ReadExports(Document(SerializeRows(secrets, ShellLine).value))
         == if exists i :: 0 <= i < |secrets| && NUL in secrets[i].value then None else Some(secrets)
  {
    if secrets != [] {
      var rows := SerializeRows(secrets, ShellLine).value;
      var tail := SerializeRows(secrets[1..], ShellLine).value;
      assert rows[1..] == tail;
      ReadDocument(secrets[1..]);
      hide ReadCommand, ShellLine, ExportOf;
      ReadShellLine(secrets[0], Document(tail));
      ExportOfLine(secrets[0]);
      assert secrets == [secrets[0]] + secrets[1..];
      NulFirstOrLater(secrets);
    }
  }

  lemma NulFirstOrLater(secrets: seq<Secret>)
    requires secrets != []
    ensures (exists i :: 0 <= i < |secrets| && NUL in secrets[i].value)
       <==> NUL in secrets[0].value || exists i :: 0 <= i < |secrets[1..]| && NUL in secrets[1..][i].value
  {
    if i :| 0 <= i < |secrets| && NUL in secrets[i].value && i > 0 {
      assert NUL in secrets[1..][i - 1].value;
    }
  }

  /** Sourcing the export sets exactly the secrets, in order, if and only if no value contains NUL. */
  lemma ShellRoundTrip(secrets: seq<Secret>)
    requires forall i :: 0 <= i < |secrets| ==> IsExportable(secrets[i].key)
    ensures SerializeShell(secrets).Ok?
    ensures ReadExports(SerializeShell(secrets).value) == Some(secrets)
       <==> forall i :: 0 <= i < |secrets| ==> NUL !in secrets[i].value
  {
    JoinIsDocument(SerializeRows(secrets, ShellLine).value);
    ReadDocument(secrets);
  }
}
