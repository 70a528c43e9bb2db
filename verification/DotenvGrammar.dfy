/**
  A grammar of dotenv documents: what they are made of and what they mean, without a cursor. parseDotenv reads every
  document as the grammar says, and every text is a document of the grammar.
 */
module DotenvGrammar {
  import opened Wrappers
  import opened Strings
  import opened Dotenv
  import opened InputLaws

  // ---- quoted values ----

  /** A unit that stands for itself, or a backslash with the unit behind it. */
  datatype Piece = Raw(u: Unit) | Escape(next: Unit)

  /** The escapes that double quotes know besides their own quote and the backslash. */
  const CONTROLS: map<Unit, Unit> := map['n' as int := LF, 'r' as int := CR, 't' as int := TAB]

  predicate IsPiece(piece: Piece, quote: Unit) { piece.Raw? ==> piece.u != BACKSLASH && piece.u != quote }

  function ShowPiece(piece: Piece): Text {
    match piece
    case Raw(u) => [u]
    case Escape(next) => [BACKSLASH, next]
  }

  /** An escape that the quotes do not know keeps its backslash. */
  function MeanPiece(piece: Piece, quote: Unit): Text {
    match piece
    case Raw(u) => [u]
    case Escape(next) =>
      if next in {quote, BACKSLASH} then [next]
      else if quote == DQUOTE && next in CONTROLS then [CONTROLS[next]]
      else [BACKSLASH, next]
  }

  function ShowPieces(pieces: seq<Piece>): Text {
    if pieces == [] then [] else ShowPiece(pieces[0]) + ShowPieces(pieces[1..])
  }

  function MeanPieces(pieces: seq<Piece>, quote: Unit): Text {
    if pieces == [] then [] else MeanPiece(pieces[0], quote) + MeanPieces(pieces[1..], quote)
  }

  /** One line of a quoted value; a backslash can end it. */
  datatype BodyLine = BodyLine(pieces: seq<Piece>, slash: bool)

  predicate IsBodyLine(line: BodyLine, quote: Unit) {
    forall i :: 0 <= i < |line.pieces| ==> IsPiece(line.pieces[i], quote)
  }

  function Slash(slash: bool): Text { if slash then [BACKSLASH] else [] }

  function ShowBodyLine(line: BodyLine): Text { ShowPieces(line.pieces) + Slash(line.slash) }

  function MeanBodyLine(line: BodyLine, quote: Unit): Text { MeanPieces(line.pieces, quote) + Slash(line.slash) }

  /** The lines of a value are joined by line feeds, however their ends are written. */
  function MeanBody(body: seq<BodyLine>, quote: Unit): Text
    requires body != []
  {
    if |body| == 1 then MeanBodyLine(body[0], quote)
    else MeanBodyLine(body[0], quote) + [LF] + MeanBody(body[1..], quote)
  }

  /** The lines of a value between what comes before it on its first line and after it on its last. */
  function ShowBody(before: Text, body: seq<BodyLine>, after: Text): seq<Text>
    requires body != []
    decreases |body|
  {
    if |body| == 1 then [before + ShowBodyLine(body[0]) + after]
    else [before + ShowBodyLine(body[0])] + ShowBody([], body[1..], after)
  }

  predicate IsBody(body: seq<BodyLine>, quote: Unit) {
    body != [] && forall i :: 0 <= i < |body| ==> IsBodyLine(body[i], quote)
  }

  // ---- assignments ----

  predicate IsLetter(u: Unit) { 'A' as int <= u <= 'Z' as int || 'a' as int <= u <= 'z' as int }

  /** A letter or underscore, then letters, digits, underscores, dots and hyphens. */
  predicate IsName(name: Text) {
    && name != [] && (IsLetter(name[0]) || name[0] == '_' as int)
    && forall i :: 0 <= i < |name| ==>
         IsLetter(name[i]) || '0' as int <= name[i] <= '9' as int || name[i] in Ascii("_.-")
  }

  predicate StartsWithExport(t: Text) { Ascii("export ") <= t || Ascii("export\t") <= t }

  /** An assignment up to its equals sign; separator is the white space behind the word export, if that is there. */
  datatype Lead = Lead(indent: Text, separator: Option<Text>, name: Text, gap: Text)

  predicate IsLead(lead: Lead) {
    && AllSpace(lead.indent) && AllSpace(lead.gap) && IsTight(lead.name) && EQUALS !in lead.name
    && (lead.name == [] ==> lead.gap == [])
    && (match lead.separator
        case None => (lead.name != [] ==> lead.name[0] != HASH) && !StartsWithExport(lead.name + lead.gap)
        case Some(separator) => AllSpace(separator) && separator != [] && separator[0] in {SPACE, TAB})
  }

  function ShowExport(separator: Option<Text>): Text {
    match separator case None => [] case Some(space) => Ascii("export") + space
  }

  function ShowLead(lead: Lead): Text {
    lead.indent + ShowExport(lead.separator) + (lead.name + lead.gap + [EQUALS])
  }

  function ShowComment(comment: Option<Text>): Text { match comment case None => [] case Some(text) => [HASH] + text }

  datatype Item =
    | Blank(space: Text)
    | Comment(indent: Text, text: Text)
    | Bare(indent: Text, text: Text)
    | Misnamed(lead: Lead, rest: Text)
    | Again(lead: Lead, rest: Text)
    | Plain(lead: Lead, pad: Text, parts: seq<Text>, value: Text, tail: Text, comment: Option<Text>)
    | Quoted(lead: Lead, pad: Text, quote: Unit, body: seq<BodyLine>, tail: Text, comment: Option<Text>)
    | Cluttered(lead: Lead, pad: Text, quote: Unit, body: seq<BodyLine>, tail: Text, rest: Text)
    | Unclosed(lead: Lead, pad: Text, quote: Unit, body: seq<BodyLine>)

  const ESCAPED_HASH: Text := [BACKSLASH, HASH]

  /** The text of an unquoted value: parts without hash signs, joined by escaped ones. */
  function PlainText(parts: seq<Text>): Text { Join(parts, ESCAPED_HASH) }

  predicate AreParts(parts: seq<Text>, comment: Option<Text>) {
    && parts != [] && (forall i :: 0 <= i < |parts| ==> HASH !in parts[i])
    && (comment.Some? && parts[|parts| - 1] != [] ==> parts[|parts| - 1][|parts[|parts| - 1]| - 1] != BACKSLASH)
  }

  /** Names of assignments are keys; seen are those that an earlier line has assigned. */
  predicate IsItem(item: Item, seen: set<Text>) {
    match item
    case Blank(space) => AllSpace(space)
    case Comment(indent, _) => AllSpace(indent)
    case Bare(indent, text) =>
      AllSpace(indent) && text != [] && !IsSpace(text[0]) && text[0] != HASH && EQUALS !in text
    case Misnamed(lead, _) => IsLead(lead) && !IsName(lead.name)
    case Again(lead, _) => IsLead(lead) && IsName(lead.name) && lead.name in seen
    case Plain(lead, pad, parts, value, tail, comment) =>
      && IsLead(lead) && IsName(lead.name) && lead.name !in seen && AllSpace(pad) && AreParts(parts, comment)
      && (PlainText(parts) != [] ==> !IsSpace(PlainText(parts)[0]) && PlainText(parts)[0] !in {DQUOTE, SQUOTE, BACKTICK})
      && Join(parts, [HASH]) == value + tail && AllSpace(tail) && (value != [] ==> !IsSpace(value[|value| - 1]))
    case Quoted(lead, pad, quote, body, tail, _) =>
      && IsLead(lead) && IsName(lead.name) && lead.name !in seen && AllSpace(pad)
      && quote in {DQUOTE, SQUOTE, BACKTICK} && IsBody(body, quote) && !body[|body| - 1].slash && AllSpace(tail)
    case Cluttered(lead, pad, quote, body, tail, rest) =>
      && IsLead(lead) && IsName(lead.name) && lead.name !in seen && AllSpace(pad)
      && quote in {DQUOTE, SQUOTE, BACKTICK} && IsBody(body, quote) && !body[|body| - 1].slash && AllSpace(tail)
      && rest != [] && !IsSpace(rest[0]) && rest[0] != HASH
    case Unclosed(lead, pad, quote, body) =>
      && IsLead(lead) && IsName(lead.name) && lead.name !in seen && AllSpace(pad)
      && quote in {DQUOTE, SQUOTE, BACKTICK} && IsBody(body, quote)
  }

  predicate HasBody(item: Item) { (item.Quoted? || item.Cluttered? || item.Unclosed?) ==> item.body != [] }

  /** The lines that an item takes. */
  function ShowItem(item: Item): seq<Text>
    requires HasBody(item)
  {
    match item
    case Blank(space) => [space]
    case Comment(indent, text) => [indent + [HASH] + text]
    case Bare(indent, text) => [indent + text]
    case Misnamed(lead, rest) => [ShowLead(lead) + rest]
    case Again(lead, rest) => [ShowLead(lead) + rest]
    case Plain(lead, pad, parts, _, _, comment) => [ShowLead(lead) + pad + (PlainText(parts) + ShowComment(comment))]
    case Quoted(lead, pad, quote, body, tail, comment) =>
      ShowBody(ShowLead(lead) + pad + [quote], body, [quote] + tail + ShowComment(comment))
    case Cluttered(lead, pad, quote, body, tail, rest) =>
      ShowBody(ShowLead(lead) + pad + [quote], body, [quote] + tail + rest)
    case Unclosed(lead, pad, quote, body) => ShowBody(ShowLead(lead) + pad + [quote], body, [])
  }

  /** What an item on the given line, counted from 1, contributes. */
  function MeanItem(item: Item, line: nat): Parsed
    requires HasBody(item)
  {
    match item
    case Blank(_) => Parsed([], [])
    case Comment(_, _) => Parsed([], [])
    case Bare(_, _) => Parsed([], [DotenvIssue(line, InvalidAssignment, None)])
    case Misnamed(lead, _) =>
      Parsed([], [DotenvIssue(line, InvalidKey, if lead.name == [] then None else Some(lead.name))])
    case Again(lead, _) => Parsed([], [DotenvIssue(line, DuplicateKey, Some(lead.name))])
    case Plain(lead, _, _, value, _, _) => Parsed([DotenvEntry(lead.name, value, line)], [])
    case Quoted(lead, _, quote, body, _, _) => Parsed([DotenvEntry(lead.name, MeanBody(body, quote), line)], [])
    case Cluttered(lead, _, _, _, _, _) => Parsed([], [DotenvIssue(line, TrailingContent, Some(lead.name))])
    case Unclosed(lead, _, _, _) => Parsed([], [DotenvIssue(line, UnterminatedQuote, Some(lead.name))])
  }

  function Assigned(item: Item): set<Text> { if item.Plain? || item.Quoted? then {item.lead.name} else {} }

  // ---- documents ----

  /** A quote that is never closed reaches to the end. */
  predicate IsDocument(items: seq<Item>, seen: set<Text>) {
    items != [] ==>
      && IsItem(items[0], seen) && (items[0].Unclosed? ==> |items| == 1)
      && IsDocument(items[1..], seen + Assigned(items[0]))
  }

  function Show(items: seq<Item>, seen: set<Text>): seq<Text>
    requires IsDocument(items, seen)
  {
    if items == [] then [] else ShowItem(items[0]) + Show(items[1..], seen + Assigned(items[0]))
  }

  /** Entries and issues in order; line is the number of the first line. */
  function Mean(items: seq<Item>, seen: set<Text>, line: nat): Parsed
    requires IsDocument(items, seen)
  {
    if items == [] then Parsed([], [])
    else
      Append(MeanItem(items[0], line),
             Mean(items[1..], seen + Assigned(items[0]), line + |ShowItem(items[0])|))
  }

  // ---- reading quoted values ----

  lemma {:induction false} ScanPieces(lines: seq<Text>, i: nat, pieces: seq<Piece>, quote: Unit, rest: Text)
    requires i < |lines| && quote != BACKSLASH
    requires forall k :: 0 <= k < |pieces| ==> IsPiece(pieces[k], quote)
    ensures Scan(lines, i, ShowPieces(pieces) + rest, quote)
         == Prepend(MeanPieces(pieces, quote), Scan(lines, i, rest, quote))
  {
    var end := Scan(lines, i, rest, quote);
    if pieces == [] {
      assert [] + rest == rest && [] + end.value == end.value;
    } else {
      ScanPieces(lines, i, pieces[1..], quote, rest);
      var t := ShowPieces(pieces[1..]) + rest;
      assert ShowPieces(pieces) + rest == ShowPiece(pieces[0]) + t;
      ScanPiece(lines, i, pieces[0], quote, t);
      PrependPrepend(MeanPiece(pieces[0], quote), MeanPieces(pieces[1..], quote), end);
    }
  }

  lemma ScanPiece(lines: seq<Text>, i: nat, piece: Piece, quote: Unit, rest: Text)
    requires i < |lines| && quote != BACKSLASH && IsPiece(piece, quote)
    ensures Scan(lines, i, ShowPiece(piece) + rest, quote)
         == Prepend(MeanPiece(piece, quote), Scan(lines, i, rest, quote))
  {
    var t := ShowPiece(piece) + rest;
    match piece
    case Raw(u) => assert t[1..] == rest;
    case Escape(next) =>
      assert t[2..] == rest;
      assert Unescape(next, quote) == MeanPiece(piece, quote);
  }

  /** What follows the text of a body on its first line, when the rest of it is on the lines behind. */
  function FirstLineEnd(body: seq<BodyLine>, after: Text): Text { if |body| == 1 then after else [] }

  predicate Follows(lines: seq<Text>, i: nat, body: seq<BodyLine>, after: Text)
    requires body != []
  {
    && i + |body| <= |lines|
    && forall k :: 1 <= k < |body| ==> lines[i + k] == ShowBodyLine(body[k]) + FirstLineEnd(body[k..], after)
  }

  lemma ScanBodyLine(lines: seq<Text>, i: nat, line: BodyLine, quote: Unit)
    requires i + 1 < |lines| && quote != BACKSLASH && IsBodyLine(line, quote)
    ensures Scan(lines, i, ShowBodyLine(line), quote)
         == Prepend(MeanBodyLine(line, quote) + [LF], Scan(lines, i + 1, lines[i + 1], quote))
  {
    ScanPieces(lines, i, line.pieces, quote, Slash(line.slash));
    var next := Scan(lines, i + 1, lines[i + 1], quote);
    PrependPrepend(Slash(line.slash), [LF], next);
    PrependPrepend(MeanPieces(line.pieces, quote), Slash(line.slash) + [LF], next);
    assert MeanPieces(line.pieces, quote) + (Slash(line.slash) + [LF]) == MeanBodyLine(line, quote) + [LF];
    assert [] + [LF] == [LF];
    if line.slash {
      assert [BACKSLASH][1..] == [];
    }
  }

  /** The last line of a value, up to its closing quote. */
  lemma ScanLastLine(lines: seq<Text>, i: nat, line: BodyLine, quote: Unit, rest: Text)
    requires i < |lines| && quote != BACKSLASH && IsBodyLine(line, quote) && !line.slash
    ensures Scan(lines, i, ShowBodyLine(line) + ([quote] + rest), quote)
         == Scanned(MeanBodyLine(line, quote), i, rest, true)
  {
    hide Scan, MeanPieces, ShowPieces;
    var after := [quote] + rest;
    ScanPieces(lines, i, line.pieces, quote, after);
    assert ShowPieces(line.pieces) + [] == ShowPieces(line.pieces);
    ScanQuote(lines, i, quote, rest);
    assert MeanPieces(line.pieces, quote) + [] == MeanPieces(line.pieces, quote);
  }

  lemma ScanQuote(lines: seq<Text>, i: nat, quote: Unit, rest: Text)
    requires i < |lines| && quote != BACKSLASH
    ensures Scan(lines, i, [quote] + rest, quote) == Scanned([], i, rest, true)
  {
    assert ([quote] + rest)[1..] == rest;
  }

  /** The last line of a document, on which a quote stays open. */
  lemma ScanToEnd(lines: seq<Text>, i: nat, line: BodyLine, quote: Unit)
    requires i + 1 == |lines| && quote != BACKSLASH && IsBodyLine(line, quote)
    ensures Scan(lines, i, ShowBodyLine(line), quote) == Scanned(MeanBodyLine(line, quote), i, [], false)
  {
    ScanPieces(lines, i, line.pieces, quote, Slash(line.slash));
    assert Scan(lines, i, [], quote) == Scanned([], i, [], false);
    if line.slash {
      assert Scan(lines, i, [BACKSLASH], quote) == Scanned([BACKSLASH], i, [], false);
    }
  }

  lemma {:induction false} ScanClosed(lines: seq<Text>, i: nat, body: seq<BodyLine>, quote: Unit, rest: Text)
    requires IsBody(body, quote) && quote != BACKSLASH && !body[|body| - 1].slash
    requires Follows(lines, i, body, [quote] + rest)
    ensures Scan(lines, i, ShowBodyLine(body[0]) + FirstLineEnd(body, [quote] + rest), quote)
         == Scanned(MeanBody(body, quote), i + |body| - 1, rest, true)
    decreases |body|
  {
    assert i + |body| <= |lines|;
    hide Scan, IsBodyLine, ShowBodyLine, MeanBodyLine, Follows;
    if |body| == 1 {
      ScanLastLine(lines, i, body[0], quote, rest);
    } else {
      var tail, after := body[1..], [quote] + rest;
      FollowsOn(lines, i, body, after);
      assert ShowBodyLine(body[0]) + FirstLineEnd(body, after) == ShowBodyLine(body[0]);
      ScanBodyLine(lines, i, body[0], quote);
      ScanClosed(lines, i + 1, tail, quote, rest);
      JoinScanned(MeanBodyLine(body[0], quote), Scan(lines, i + 1, lines[i + 1], quote), body, quote);
    }
  }

  lemma {:induction false} ScanUnclosed(lines: seq<Text>, i: nat, body: seq<BodyLine>, quote: Unit)
    requires IsBody(body, quote) && quote != BACKSLASH && Follows(lines, i, body, []) && i + |body| == |lines|
    ensures Scan(lines, i, ShowBodyLine(body[0]), quote) == Scanned(MeanBody(body, quote), |lines| - 1, [], false)
    decreases |body|
  {
    hide Scan, IsBodyLine, ShowBodyLine, MeanBodyLine;
    if |body| == 1 {
      ScanToEnd(lines, i, body[0], quote);
    } else {
      ScanBodyLine(lines, i, body[0], quote);
      FollowsOn(lines, i, body, []);
      ScanUnclosed(lines, i + 1, body[1..], quote);
      assert lines[i + 1] == ShowBodyLine(body[1]) + FirstLineEnd(body[1..], []);
      assert ShowBodyLine(body[1]) + [] == ShowBodyLine(body[1]);
    }
  }

  lemma JoinScanned(first: Text, rest: Scanned, body: seq<BodyLine>, quote: Unit)
    requires |body| > 1 && first == MeanBodyLine(body[0], quote) && rest.value == MeanBody(body[1..], quote)
    ensures Prepend(first + [LF], rest) == rest.(value := MeanBody(body, quote))
  {
  }

  lemma FollowsOn(lines: seq<Text>, i: nat, body: seq<BodyLine>, after: Text)
    requires |body| > 1 && Follows(lines, i, body, after)
    ensures Follows(lines, i + 1, body[1..], after) && i + 1 < |lines|
    ensures lines[i + 1] == ShowBodyLine(body[1]) + FirstLineEnd(body[1..], after)
  {
    forall k | 1 <= k < |body[1..]|
      ensures lines[i + 1 + k] == ShowBodyLine(body[1..][k]) + FirstLineEnd(body[1..][k..], after)
    {
      assert lines[i + (k + 1)] == ShowBodyLine(body[k + 1]) + FirstLineEnd(body[k + 1..], after);
      assert body[1..][k..] == body[k + 1..];
    }
  }

  /** The lines of a shown body, one by one. */
  lemma {:induction false} ShownBodyLines(lines: seq<Text>, i: nat, before: Text, body: seq<BodyLine>, after: Text)
    requires body != [] && i + |body| <= |lines| && lines[i..i + |body|] == ShowBody(before, body, after)
    ensures lines[i] == before + ShowBodyLine(body[0]) + FirstLineEnd(body, after) && Follows(lines, i, body, after)
    decreases |body|
  {
    ShownBodyLength(before, body, after);
    assert lines[i] == lines[i..i + |body|][0];
    if |body| > 1 {
      ShownBodyLength([], body[1..], after);
      assert lines[i + 1..i + 1 + |body[1..]|] == lines[i..i + |body|][1..];
      ShownBodyLines(lines, i + 1, [], body[1..], after);
      forall k | 1 <= k < |body|
        ensures lines[i + k] == ShowBodyLine(body[k]) + FirstLineEnd(body[k..], after)
      {
        if k > 1 {
          assert lines[i + 1 + (k - 1)] == ShowBodyLine(body[1..][k - 1]) + FirstLineEnd(body[1..][k - 1..], after);
          assert body[1..][k - 1..] == body[k..];
        } else {
          assert [] + ShowBodyLine(body[1]) == ShowBodyLine(body[1]);
        }
      }
    }
  }

  lemma {:induction false} ShownBodyLength(before: Text, body: seq<BodyLine>, after: Text)
    requires body != []
    ensures |ShowBody(before, body, after)| == |body|
    decreases |body|
  {
    if |body| > 1 {
      ShownBodyLength([], body[1..], after);
    }
  }

  // ---- reading unquoted values ----

  lemma UnquotedEnd(comment: Option<Text>)
    ensures Unquoted([] + ShowComment(comment)) == []
  {
  }

  lemma UnquotedHash(rest: Text)
    ensures Unquoted(ESCAPED_HASH + rest) == [HASH] + Unquoted(rest)
  {
    var t := ESCAPED_HASH + rest;
    assert t[2..] == rest;
  }

  lemma UnquotedUnit(u: Unit, rest: Text)
    requires u != HASH && !(u == BACKSLASH && rest != [] && rest[0] == HASH)
    ensures Unquoted([u] + rest) == [u] + Unquoted(rest)
  {
    var t := [u] + rest;
    assert t[1..] == rest;
    assert |t| >= 2 ==> t[1] == rest[0];
  }

  /** Parts and escaped hashes mean parts and hashes, up to the comment. */
  lemma {:induction false} UnquotedParts(parts: seq<Text>, comment: Option<Text>)
    requires AreParts(parts, comment)
    ensures Unquoted(PlainText(parts) + ShowComment(comment)) == Join(parts, [HASH])
    decreases |parts|, |parts[0]|
  {
    assert parts != [];
    hide *;
    if parts[0] == [] {
      if |parts| == 1 {
        UnquotedNothing(parts, comment);
      } else {
        PartsTail(parts, comment);
        UnquotedParts(parts[1..], comment);
        UnquotedEscape(parts, comment);
      }
    } else {
      var less := [parts[0][1..]] + parts[1..];
      PartsShorter(parts, comment, less);
      UnquotedParts(less, comment);
      UnquotedFirst(parts, comment, less);
    }
  }

  lemma UnquotedNothing(parts: seq<Text>, comment: Option<Text>)
    requires |parts| == 1 && parts[0] == []
    ensures Unquoted(PlainText(parts) + ShowComment(comment)) == Join(parts, [HASH])
  {
    hide Unquoted, Join, ShowComment;
    JoinOfEmpty(parts, ESCAPED_HASH);
    JoinOfEmpty(parts, [HASH]);
    UnquotedEnd(comment);
  }

  lemma UnquotedEscape(parts: seq<Text>, comment: Option<Text>)
    requires |parts| > 1 && parts[0] == []
    requires Unquoted(PlainText(parts[1..]) + ShowComment(comment)) == Join(parts[1..], [HASH])
    ensures Unquoted(PlainText(parts) + ShowComment(comment)) == Join(parts, [HASH])
  {
    hide Unquoted, Join, ShowComment;
    JoinOfEmpty(parts, ESCAPED_HASH);
    JoinOfEmpty(parts, [HASH]);
    UnquotedHash(PlainText(parts[1..]) + ShowComment(comment));
    assert ESCAPED_HASH + PlainText(parts[1..]) + ShowComment(comment)
        == ESCAPED_HASH + (PlainText(parts[1..]) + ShowComment(comment));
  }

  lemma Regroup(a: Text, b: Text, c: Text)
    ensures a + b + c == a + (b + c)
  {
  }

  lemma ShownAsJoined(parts: seq<Text>)
    ensures PlainText(parts) == Join(parts, ESCAPED_HASH)
  {
  }

  lemma UnquotedFirst(parts: seq<Text>, comment: Option<Text>, less: seq<Text>)
    requires AreParts(parts, comment) && parts[0] != [] && less == [parts[0][1..]] + parts[1..]
    requires Unquoted(PlainText(less) + ShowComment(comment)) == Join(less, [HASH])
    ensures Unquoted(PlainText(parts) + ShowComment(comment)) == Join(parts, [HASH])
  {
    assert parts != [];
    hide *;
    JoinsLess(parts, less, ESCAPED_HASH);
    JoinsLess(parts, less, [HASH]);
    NoHashNext(parts, comment, less);
    UnquotedUnit(parts[0][0], PlainText(less) + ShowComment(comment));
    ShownAsJoined(parts);
    ShownAsJoined(less);
    Regroup([parts[0][0]], PlainText(less), ShowComment(comment));
  }

  lemma PartsTail(parts: seq<Text>, comment: Option<Text>)
    requires AreParts(parts, comment) && |parts| > 1
    ensures AreParts(parts[1..], comment)
  {
    forall i | 0 <= i < |parts[1..]| ensures HASH !in parts[1..][i] { assert HASH !in parts[i + 1]; }
  }

  lemma PartsShorter(parts: seq<Text>, comment: Option<Text>, less: seq<Text>)
    requires AreParts(parts, comment) && parts[0] != [] && less == [parts[0][1..]] + parts[1..]
    ensures AreParts(less, comment) && |less| == |parts| && |less[0]| < |parts[0]|
  {
    forall i | 0 <= i < |less| ensures HASH !in less[i] {
      assert HASH !in parts[i];
    }
  }

  lemma JoinOfEmpty(parts: seq<Text>, d: Text)
    requires parts != [] && parts[0] == []
    ensures Join(parts, d) == if |parts| == 1 then [] else d + Join(parts[1..], d)
  {
  }

  lemma JoinsLess(parts: seq<Text>, less: seq<Text>, d: Text)
    requires parts != [] && parts[0] != [] && less == [parts[0][1..]] + parts[1..]
    ensures Join(parts, d) == [parts[0][0]] + Join(less, d)
  {
    assert parts[0] == [parts[0][0]] + less[0];
    assert less[1..] == parts[1..];
  }

  /** A unit of a part is no backslash in front of a hash sign. */
  lemma NoHashNext(parts: seq<Text>, comment: Option<Text>, less: seq<Text>)
    requires AreParts(parts, comment) && parts[0] != [] && less == [parts[0][1..]] + parts[1..]
    ensures var next := PlainText(less) + ShowComment(comment);
            parts[0][0] != HASH && !(parts[0][0] == BACKSLASH && next != [] && next[0] == HASH)
  {
    var next := PlainText(less) + ShowComment(comment);
    assert HASH !in parts[0] && parts[0][0] in parts[0];
    if less[0] != [] {
      assert less[0][0] == parts[0][1];
      assert next[0] == less[0][0];
    } else if |less| > 1 {
      assert next[0] == BACKSLASH;
    } else {
      assert parts[0] == [parts[0][0]] && |parts| == 1;
    }
  }

  // ---- reading the beginning of an assignment ----

  lemma NamesAreKeys(name: Text)
    ensures IsName(name) <==> IsDotenvKey(name)
  {
    assert Ascii("_.-") == ['_' as int, '.' as int, '-' as int];
    forall u: Unit
      ensures IsKeyUnit(u) <==> IsLetter(u) || '0' as int <= u <= '9' as int || u in Ascii("_.-")
    {
    }
  }

  /** A line that begins with a lead and goes on with rest, as the parser takes it apart. */
  lemma LeadReads(lead: Lead, rest: Text)
    requires IsLead(lead)
    ensures var line := ShowLead(lead) + rest;
            && TrimStart(line) != [] && TrimStart(line)[0] != HASH
            && Assignment(line) == lead.name + lead.gap + [EQUALS] + rest
            && IndexOf(Assignment(line), [EQUALS]) == |lead.name + lead.gap|
            && Trim(Assignment(line)[..|lead.name + lead.gap|]) == lead.name
            && Assignment(line)[|lead.name + lead.gap| + 1..] == rest
  {
    if lead.separator == None {
      LeadStarts(lead, rest);
    } else {
      ExportedLeadStarts(lead, rest);
    }
    hide Assignment, TrimStart, ShowLead;
    LeadSplits(lead, rest);
  }

  lemma LeadStarts(lead: Lead, rest: Text)
    requires IsLead(lead) && lead.separator == None
    ensures var line := ShowLead(lead) + rest;
            && TrimStart(line) != [] && TrimStart(line)[0] != HASH
            && Assignment(line) == lead.name + lead.gap + [EQUALS] + rest
  {
    var head := lead.name + lead.gap;
    var body := head + [EQUALS] + rest;
    assert ShowLead(lead) + rest == lead.indent + body;
    HeadStarts(lead, rest);
    NoExport(head, rest);
    hide IsLead;
    TrimStartOfPadded(lead.indent, body);
    hide TrimStart;
  }

  lemma ExportedLeadStarts(lead: Lead, rest: Text)
    requires IsLead(lead) && lead.separator.Some?
    ensures var line := ShowLead(lead) + rest;
            && TrimStart(line) != [] && TrimStart(line)[0] != HASH
            && Assignment(line) == lead.name + lead.gap + [EQUALS] + rest
  {
    var separator, body := lead.separator.value, lead.name + lead.gap + [EQUALS] + rest;
    var exported := Ascii("export") + separator + body;
    assert ShowLead(lead) + rest == lead.indent + exported;
    HeadStarts(lead, rest);
    ExportIsDropped(separator, body);
    hide IsLead;
    TrimStartOfPadded(lead.indent, exported);
    hide TrimStart;
  }

  lemma LeadSplits(lead: Lead, rest: Text)
    requires IsLead(lead)
    ensures var head := lead.name + lead.gap;
            var body := head + [EQUALS] + rest;
            && IndexOf(body, [EQUALS]) == |head| && Trim(body[..|head|]) == lead.name && body[|head| + 1..] == rest
  {
    var head := lead.name + lead.gap;
    var body := head + [EQUALS] + rest;
    assert EQUALS !in head by {
      forall i | 0 <= i < |lead.gap| ensures lead.gap[i] != EQUALS { assert IsSpace(lead.gap[i]); }
    }
    IndexOfUnit(head, EQUALS, rest);
    assert body[..|head|] == head && body[|head| + 1..] == rest;
    assert [] + lead.name + lead.gap == head;
    TrimOfPadded([], lead.name, lead.gap);
  }

  lemma HeadStarts(lead: Lead, rest: Text)
    requires IsLead(lead)
    ensures var body := lead.name + lead.gap + [EQUALS] + rest;
            !IsSpace(body[0]) && (lead.separator == None ==> body[0] != HASH)
  {
  }

  lemma NoExport(head: Text, rest: Text)
    requires !StartsWithExport(head)
    ensures !StartsWithExport(head + [EQUALS] + rest)
  {
    var t, n := head + [EQUALS] + rest, |head|;
    assert t[n] == EQUALS;
    assert n >= 7 ==> t[..7] == head[..7];
    assert EQUALS !in Ascii("export ") && EQUALS !in Ascii("export\t");
    assert n < 7 ==> t[n] != Ascii("export ")[n] && t[n] != Ascii("export\t")[n];
  }

  lemma ExportIsDropped(separator: Text, body: Text)
    requires AllSpace(separator) && separator != [] && separator[0] in {SPACE, TAB}
    requires body != [] && !IsSpace(body[0])
    ensures var t := Ascii("export") + separator + body;
            t[0] == 'e' as int && !IsSpace(t[0]) && StartsWithExport(t) && TrimStart(t[6..]) == body
  {
    var t := Ascii("export") + separator + body;
    assert t[6..] == separator + body;
    assert t[..7] == Ascii("export") + [separator[0]];
    assert Ascii("export ") == Ascii("export") + [SPACE] && Ascii("export\t") == Ascii("export") + [TAB];
    TrimStartOfPadded(separator, body);
  }

  // ---- reading items ----

  /** The parser's outcome is the item's meaning, and it goes on behind the item. */
  ghost predicate Reads(lines: seq<Text>, i: nat, seen: set<Text>, item: Item)
    requires i < |lines| && HasBody(item)
  {
    IsOutcome(ReadLine(lines, i, seen), i, seen, item)
  }

  ghost predicate IsOutcome(o: LineOutcome, i: nat, seen: set<Text>, item: Item)
    requires HasBody(item)
  {
    && Contribution(o) == MeanItem(item, i + 1) && NextLine(o, i) == i + |ShowItem(item)|
    && NextSeen(o, seen) == seen + Assigned(item)
  }

  predicate IsAt(lines: seq<Text>, i: nat, item: Item, seen: set<Text>)
    requires IsItem(item, seen)
  {
    && i + |ShowItem(item)| <= |lines| && lines[i..i + |ShowItem(item)|] == ShowItem(item)
    && (item.Unclosed? ==> i + |ShowItem(item)| == |lines|)
  }

  lemma {:induction false} TrimStartDrops(t: Text, u: Unit)
    requires u !in t
    ensures u !in TrimStart(t)
  {
    if t != [] && IsSpace(t[0]) {
      TrimStartDrops(t[1..], u);
    }
  }

  lemma LooseLineReads(lines: seq<Text>, i: nat, seen: set<Text>, item: Item)
    requires i < |lines| && IsItem(item, seen) && IsAt(lines, i, item, seen)
    requires item.Blank? || item.Comment? || item.Bare?
    ensures Reads(lines, i, seen, item)
  {
    var line := lines[i];
    assert line == lines[i..i + 1][0] == ShowItem(item)[0];
    match item {
      case Blank(space) =>
        assert space + [] == space;
        TrimStartOfPadded(space, []);
      case Comment(indent, text) =>
        assert indent + [HASH] + text == indent + ([HASH] + text);
        TrimStartOfPadded(indent, [HASH] + text);
      case Bare(indent, text) =>
        TrimStartOfPadded(indent, text);
        if StartsWithExport(text) {
          TrimStartDrops(text[6..], EQUALS);
        }
        hide TrimStart;
        IndexOfAbsentUnit(Assignment(line), EQUALS);
    }
  }

  lemma RefusedLineReads(lines: seq<Text>, i: nat, seen: set<Text>, item: Item)
    requires i < |lines| && IsItem(item, seen) && IsAt(lines, i, item, seen) && (item.Misnamed? || item.Again?)
    ensures Reads(lines, i, seen, item)
  {
    hide IsLead, IsName, IsDotenvKey, Assignment, TrimStart, TrimEnd, Trim, IndexOf, ShowLead, Scan, Unquoted, MeanBody,
         ShowBody, IsBody, AreParts, PlainText, Join;
    assert lines[i] == lines[i..i + 1][0] == ShowLead(item.lead) + item.rest;
    LeadReads(item.lead, item.rest);
    NamesAreKeys(item.lead.name);
  }

  lemma PlainStarts(item: Item, seen: set<Text>)
    requires IsItem(item, seen) && item.Plain?
    ensures var text := PlainText(item.parts) + ShowComment(item.comment);
            && TrimStart(item.pad + text) == text && (text != [] ==> !IsQuote(text[0]))
            && TrimEnd(Unquoted(text)) == item.value
  {
    var text := PlainText(item.parts) + ShowComment(item.comment);
    hide IsLead, IsName, TrimStart, TrimEnd;
    assert text != [] ==> text[0] == HASH || text[0] == PlainText(item.parts)[0];
    TrimStartOfPadded(item.pad, text);
    UnquotedParts(item.parts, item.comment);
    TrimEndOfPadded(item.value, item.tail);
  }

  lemma PlainReads(lines: seq<Text>, i: nat, seen: set<Text>, item: Item)
    requires i < |lines| && IsItem(item, seen) && IsAt(lines, i, item, seen) && item.Plain?
    ensures Reads(lines, i, seen, item)
  {
    hide IsLead, IsName, IsDotenvKey, Assignment, TrimStart, Trim, TrimEnd, IndexOf, ShowLead, Unquoted, PlainText, Join,
         AreParts, ShowComment, IsQuote, Scan, MeanBody, ShowBody, IsBody;
    var text := PlainText(item.parts) + ShowComment(item.comment);
    assert lines[i] == lines[i..i + 1][0] == ShowLead(item.lead) + item.pad + text == ShowLead(item.lead) + (item.pad + text);
    LeadReads(item.lead, item.pad + text);
    NamesAreKeys(item.lead.name);
    PlainStarts(item, seen);
  }

  /** The trailing text of a quoted value is blank or a comment, or it is neither. */
  lemma TrimOfTail(tail: Text, rest: Text)
    requires AllSpace(tail) && (rest != [] ==> !IsSpace(rest[0]))
    ensures (Trim(tail + rest) == [] <==> rest == []) && (rest != [] ==> Trim(tail + rest)[0] == rest[0])
  {
    TrimStartOfPadded(tail, rest);
    if rest != [] {
      TrimEndHead(rest);
    }
  }

  lemma {:induction false} TrimEndHead(t: Text)
    requires t != [] && !IsSpace(t[0])
    ensures TrimEnd(t) != [] && TrimEnd(t)[0] == t[0]
  {
    if IsSpace(t[|t| - 1]) {
      TrimEndHead(t[..|t| - 1]);
    }
  }

  /** What the parser finds behind the equals sign of a quoted value. */
  lemma QuoteStarts(lines: seq<Text>, i: nat, lead: Lead, pad: Text, quote: Unit, body: seq<BodyLine>, after: Text)
    requires i + |body| <= |lines| && IsBody(body, quote) && IsLead(lead) && AllSpace(pad)
    requires quote in {DQUOTE, SQUOTE, BACKTICK}
    requires lines[i..i + |body|] == ShowBody(ShowLead(lead) + pad + [quote], body, after)
    ensures var open := [quote] + (ShowBodyLine(body[0]) + FirstLineEnd(body, after));
            && lines[i] == ShowLead(lead) + (pad + open) && TrimStart(pad + open) == open && IsQuote(open[0])
            && open[1..] == ShowBodyLine(body[0]) + FirstLineEnd(body, after) && Follows(lines, i, body, after)
  {
    hide ShowBodyLine, FirstLineEnd, Follows, ShowLead, IsLead, TrimStart, ShowBody, IsBodyLine;
    var open := [quote] + (ShowBodyLine(body[0]) + FirstLineEnd(body, after));
    ShownBodyLines(lines, i, ShowLead(lead) + pad + [quote], body, after);
    assert ShowLead(lead) + pad + [quote] + ShowBodyLine(body[0]) + FirstLineEnd(body, after)
        == ShowLead(lead) + (pad + open);
    assert !IsSpace(open[0]);
    TrimStartOfPadded(pad, open);
  }

  /** A line whose key is new and whose value begins with a quote. */
  lemma QuotedLine(lines: seq<Text>, i: nat, seen: set<Text>, lead: Lead, pad: Text, open: Text)
    requires i < |lines| && IsLead(lead) && IsName(lead.name) && lead.name !in seen
    requires lines[i] == ShowLead(lead) + (pad + open) && TrimStart(pad + open) == open && open != [] && IsQuote(open[0])
    ensures var s := Scan(lines, i, open[1..], open[0]);
            var trailing := Trim(s.trailing);
            ReadLine(lines, i, seen) ==
            if !s.terminated then Problem(DotenvIssue(i + 1, UnterminatedQuote, Some(lead.name)), s.finalLine + 1)
            else if trailing != [] && trailing[0] != HASH then
              Problem(DotenvIssue(i + 1, TrailingContent, Some(lead.name)), s.finalLine + 1)
            else Assign(DotenvEntry(lead.name, s.value, i + 1), s.finalLine + 1)
  {
    hide IsLead, IsName, IsDotenvKey, Assignment, TrimStart, TrimEnd, Trim, IndexOf, ShowLead, Scan, Unquoted;
    LeadReads(lead, pad + open);
    NamesAreKeys(lead.name);
  }

  /** A closed value, with a blank or commented rest of its last line or with something else there. */
  lemma ClosedLine(lines: seq<Text>, i: nat, seen: set<Text>, lead: Lead, pad: Text, quote: Unit, body: seq<BodyLine>,
                   tail: Text, rest: Text)
    requires IsLead(lead) && IsName(lead.name) && lead.name !in seen && AllSpace(pad) && AllSpace(tail)
    requires quote in {DQUOTE, SQUOTE, BACKTICK} && IsBody(body, quote) && !body[|body| - 1].slash
    requires rest != [] ==> !IsSpace(rest[0])
    requires i + |body| <= |lines|
    requires lines[i..i + |body|] == ShowBody(ShowLead(lead) + pad + [quote], body, [quote] + (tail + rest))
    ensures ReadLine(lines, i, seen) ==
            if rest != [] && rest[0] != HASH then
              Problem(DotenvIssue(i + 1, TrailingContent, Some(lead.name)), i + |body|)
            else Assign(DotenvEntry(lead.name, MeanBody(body, quote), i + 1), i + |body|)
  {
    hide ReadLine, Scan, Trim, TrimStart, ShowLead, IsLead, IsName, Follows, MeanBody, ShowBody, ShowBodyLine, IsBodyLine,
      FirstLineEnd, IsSpace;
    var after := [quote] + (tail + rest);
    QuoteStarts(lines, i, lead, pad, quote, body, after);
    var open := [quote] + (ShowBodyLine(body[0]) + FirstLineEnd(body, after));
    QuotedLine(lines, i, seen, lead, pad, open);
    ScanClosed(lines, i, body, quote, tail + rest);
    TrimOfTail(tail, rest);
  }

  lemma ClosedReads(lines: seq<Text>, i: nat, seen: set<Text>, item: Item)
    requires i < |lines| && IsItem(item, seen) && IsAt(lines, i, item, seen) && (item.Quoted? || item.Cluttered?)
    ensures Reads(lines, i, seen, item)
  {
    hide ReadLine, ShowLead, IsLead, IsName, MeanBody, ShowBody, IsBodyLine;
    var rest := if item.Quoted? then ShowComment(item.comment) else item.rest;
    assert rest != [] ==> !IsSpace(rest[0]);
    assert [item.quote] + item.tail + rest == [item.quote] + (item.tail + rest);
    ShownBodyLength(ShowLead(item.lead) + item.pad + [item.quote], item.body, [item.quote] + (item.tail + rest));
    ClosedLine(lines, i, seen, item.lead, item.pad, item.quote, item.body, item.tail, rest);
  }

  lemma UnclosedReads(lines: seq<Text>, i: nat, seen: set<Text>, item: Item)
    requires i < |lines| && IsItem(item, seen) && IsAt(lines, i, item, seen) && item.Unclosed?
    ensures Reads(lines, i, seen, item)
  {
    hide ReadLine, Scan, Trim, TrimStart, ShowLead, IsLead, IsName, Follows, MeanBody, ShowBody, ShowBodyLine, IsBodyLine;
    var before := ShowLead(item.lead) + item.pad + [item.quote];
    ShownBodyLength(before, item.body, []);
    QuoteStarts(lines, i, item.lead, item.pad, item.quote, item.body, []);
    var open := [item.quote] + (ShowBodyLine(item.body[0]) + FirstLineEnd(item.body, []));
    QuotedLine(lines, i, seen, item.lead, item.pad, open);
    assert open[1..] == ShowBodyLine(item.body[0]);
    ScanUnclosed(lines, i, item.body, item.quote);
  }

  lemma ItemReads(lines: seq<Text>, i: nat, seen: set<Text>, item: Item)
    requires i < |lines| && IsItem(item, seen) && IsAt(lines, i, item, seen)
    ensures Reads(lines, i, seen, item)
  {
    hide *;
    match item
    case Blank(_) => LooseLineReads(lines, i, seen, item);
    case Comment(_, _) => LooseLineReads(lines, i, seen, item);
    case Bare(_, _) => LooseLineReads(lines, i, seen, item);
    case Misnamed(_, _) => RefusedLineReads(lines, i, seen, item);
    case Again(_, _) => RefusedLineReads(lines, i, seen, item);
    case Plain(_, _, _, _, _, _) => PlainReads(lines, i, seen, item);
    case Quoted(_, _, _, _, _, _) => ClosedReads(lines, i, seen, item);
    case Cluttered(_, _, _, _, _, _) => ClosedReads(lines, i, seen, item);
    case Unclosed(_, _, _, _) => UnclosedReads(lines, i, seen, item);
  }

  // ---- reading documents ----

  lemma {:induction false} ItemsRead(lines: seq<Text>, i: nat, items: seq<Item>, seen: set<Text>)
    requires IsDocument(items, seen) && i <= |lines| && lines[i..] == Show(items, seen)
    ensures ParseFrom(lines, i, seen) == Mean(items, seen, i + 1)
    decreases |items|
  {
    hide ParseFrom, ReadLine, IsItem, ShowItem, MeanItem, Assigned, IsDocument, Show, Mean, IsAt, Append, HasBody,
         Contribution, NextLine, NextSeen;
    if items == [] {
      NothingRead(lines, i, seen);
    } else {
      FirstOfDocument(items, seen, i + 1);
      var item, n := items[0], |ShowItem(items[0])|;
      ItemHasLines(item, seen);
      ShownFirst(lines, i, items, seen);
      ItemReads(lines, i, seen, item);
      ParseStep(lines, i, seen, ReadLine(lines, i, seen));
      ItemsRead(lines, i + n, items[1..], seen + Assigned(item));
    }
  }

  lemma NothingRead(lines: seq<Text>, i: nat, seen: set<Text>)
    requires i <= |lines|
    ensures IsDocument([], seen) && (lines[i..] == Show([], seen) ==> ParseFrom(lines, i, seen) == Mean([], seen, i + 1))
  {
  }

  lemma FirstOfDocument(items: seq<Item>, seen: set<Text>, line: nat)
    requires items != [] && IsDocument(items, seen)
    ensures IsItem(items[0], seen) && HasBody(items[0]) && IsDocument(items[1..], seen + Assigned(items[0]))
    ensures Mean(items, seen, line)
         == Append(MeanItem(items[0], line),
                   Mean(items[1..], seen + Assigned(items[0]), line + |ShowItem(items[0])|))
  {
    ItemHasBody(items[0], seen);
    hide IsItem, HasBody, ShowItem, MeanItem, Assigned;
  }

  lemma ItemHasBody(item: Item, seen: set<Text>)
    requires IsItem(item, seen)
    ensures HasBody(item)
  {
    hide IsLead, IsName, AreParts, PlainText, Join, IsBodyLine;
  }

  lemma ItemHasLines(item: Item, seen: set<Text>)
    requires IsItem(item, seen)
    ensures |ShowItem(item)| >= 1
  {
    hide IsLead, IsName, ShowLead;
  }

  lemma ShownFirst(lines: seq<Text>, i: nat, items: seq<Item>, seen: set<Text>)
    requires items != [] && IsDocument(items, seen) && i <= |lines| && lines[i..] == Show(items, seen)
    ensures IsAt(lines, i, items[0], seen) && i + |ShowItem(items[0])| <= |lines|
    ensures lines[i + |ShowItem(items[0])|..] == Show(items[1..], seen + Assigned(items[0]))
  {
    hide ShowItem, Assigned, IsLead, IsName, IsBodyLine, AreParts;
    var first, rest := ShowItem(items[0]), Show(items[1..], seen + Assigned(items[0]));
    assert lines[i..] == first + rest;
    assert lines[i..i + |first|] == lines[i..][..|first|] == first;
    assert lines[i + |first|..] == lines[i..][|first|..] == rest;
  }

  // ---- sources ----

  /** Lines end with a line feed, or a carriage return and a line feed; the last one has no end. */
  function WithReturn(lines: seq<Text>, returns_: seq<bool>): seq<Text> {
    seq(|lines|, i requires 0 <= i < |lines| =>
      lines[i] + if i < |returns_| && returns_[i] then [CR] else [])
  }

  predicate EndsWithReturn(line: Text) { line != [] && line[|line| - 1] == CR }

  /** A byte order mark may come first. */
  function Source(mark: bool, lines: seq<Text>, returns_: seq<bool>): Text {
    (if mark then [0xFEFF] else []) + Join(WithReturn(lines, returns_), [LF])
  }

  predicate IsSource(mark: bool, lines: seq<Text>, returns_: seq<bool>) {
    && |lines| == |returns_| + 1 && (forall i :: 0 <= i < |lines| ==> LF !in lines[i])
    && (forall i :: 0 <= i < |returns_| && !returns_[i] ==> !EndsWithReturn(lines[i]))
    && (!mark ==> Source(false, lines, returns_) != [] ==> Source(false, lines, returns_)[0] != 0xFEFF)
  }

  lemma MarkIsStripped(mark: bool, text: Text)
    requires !mark ==> text != [] ==> text[0] != 0xFEFF
    ensures StripBom((if mark then [0xFEFF] else []) + text) == text
  {
    assert [] + text == text && ([0xFEFF] + text)[1..] == text;
  }

  lemma ReturnIsStripped(line: Text, return_: bool)
    requires !return_ ==> !EndsWithReturn(line)
    ensures StripCr(line + if return_ then [CR] else []) == line
  {
    assert line + [] == line && (line + [CR])[..|line|] == line;
  }

  lemma LinesOfParts(text: Text, parts: seq<Text>, lines: seq<Text>)
    requires Split(text, [LF]) == parts && |lines| == |parts|
    requires forall i :: 0 <= i < |lines| ==> lines[i] == if i + 1 < |lines| then StripCr(parts[i]) else parts[i]
    ensures SplitLines(text) == lines
  {
    hide Split, StripCr;
  }

  lemma ReturnsAreStripped(lines: seq<Text>, returns_: seq<bool>, i: nat)
    requires |lines| == |returns_| + 1 && i < |lines|
    requires forall k :: 0 <= k < |returns_| && !returns_[k] ==> !EndsWithReturn(lines[k])
    ensures var part := WithReturn(lines, returns_)[i]; lines[i] == if i + 1 < |lines| then StripCr(part) else part
  {
    hide StripCr, EndsWithReturn;
    if i < |returns_| {
      ReturnIsStripped(lines[i], returns_[i]);
    } else {
      assert lines[i] + [] == lines[i];
    }
  }

  lemma SourceSplits(mark: bool, lines: seq<Text>, returns_: seq<bool>)
    requires IsSource(mark, lines, returns_)
    ensures SplitLines(StripBom(Source(mark, lines, returns_))) == lines
  {
    hide Join, Split, StripBom, StripCr, SplitLines, EndsWithReturn;
    var parts := WithReturn(lines, returns_);
    forall i | 0 <= i < |parts| ensures LF !in parts[i] { assert LF !in lines[i]; }
    forall i | 0 <= i < |lines|
      ensures lines[i] == if i + 1 < |lines| then StripCr(parts[i]) else parts[i]
    {
      ReturnsAreStripped(lines, returns_, i);
    }
    hide WithReturn;
    var text := Join(parts, [LF]);
    assert [] + text == text;
    MarkIsStripped(mark, text);
    SplitOfJoin(parts, LF);
    LinesOfParts(text, parts, lines);
  }

  /** parseDotenv gives exactly the meaning of a document, in whatever way its lines end. */
  lemma ParsedAsMeant(mark: bool, items: seq<Item>, returns_: seq<bool>)
    requires IsDocument(items, {}) && IsSource(mark, Show(items, {}), returns_)
    ensures Parse(Source(mark, Show(items, {}), returns_)) == Mean(items, {}, 1)
  {
    hide IsDocument, IsSource, Source, ParseFrom, Mean, SplitLines, StripBom, Show;
    SourceSplits(mark, Show(items, {}), returns_);
    var lines := Show(items, {});
    assert lines[0..] == lines;
    ItemsRead(lines, 0, items, {});
  }

  // ---- every text is a document ----

  lemma {:induction false} LeadingSpace(t: Text) returns (space: Text, rest: Text)
    ensures t == space + rest && AllSpace(space) && (rest != [] ==> !IsSpace(rest[0]))
  {
    if t != [] && IsSpace(t[0]) {
      space, rest := LeadingSpace(t[1..]);
      space := [t[0]] + space;
      assert t == [t[0]] + t[1..];
    } else {
      space, rest := [], t;
    }
  }

  lemma {:induction false} TrailingSpace(t: Text) returns (rest: Text, space: Text)
    ensures t == rest + space && AllSpace(space) && (rest != [] ==> !IsSpace(rest[|rest| - 1]))
  {
    if t != [] && IsSpace(t[|t| - 1]) {
      rest, space := TrailingSpace(t[..|t| - 1]);
      space := space + [t[|t| - 1]];
      assert t == t[..|t| - 1] + [t[|t| - 1]];
    } else {
      rest, space := t, [];
    }
  }

  /** The pieces of a line up to a closing quote or to its end. */
  lemma {:induction false} PiecesOf(t: Text, quote: Unit) returns (line: BodyLine, after: Option<Text>)
    requires quote != BACKSLASH
    ensures IsBodyLine(line, quote)
    ensures after == None ==> t == ShowBodyLine(line)
    ensures after.Some? ==> !line.slash && t == ShowBodyLine(line) + ([quote] + after.value)
    decreases |t|
  {
    if t == [] {
      line, after := BodyLine([], false), None;
    } else if t[0] == quote {
      line, after := BodyLine([], false), Some(t[1..]);
      assert t == [quote] + t[1..];
    } else if t == [BACKSLASH] {
      line, after := BodyLine([], true), None;
    } else {
      var piece := if t[0] == BACKSLASH then Escape(t[1]) else Raw(t[0]);
      var n := |ShowPiece(piece)|;
      var more;
      more, after := PiecesOf(t[n..], quote);
      line := BodyLine([piece] + more.pieces, more.slash);
      assert t == ShowPiece(piece) + t[n..];
      OnePieceMore(piece, more, quote);
      hide ShowBodyLine, IsBodyLine;
    }
  }

  lemma OnePieceMore(piece: Piece, more: BodyLine, quote: Unit)
    requires IsPiece(piece, quote) && IsBodyLine(more, quote)
    ensures var line := BodyLine([piece] + more.pieces, more.slash);
            IsBodyLine(line, quote) && ShowBodyLine(line) == ShowPiece(piece) + ShowBodyLine(more)
  {
    var pieces := [piece] + more.pieces;
    assert pieces[1..] == more.pieces;
    forall i | 0 <= i < |pieces| ensures IsPiece(pieces[i], quote) {
      if i > 0 { assert IsPiece(more.pieces[i - 1], quote); }
    }
  }

  /** The lines of a value whose first line goes on with t, as far as its closing quote or to the end. */
  lemma {:induction false} BodyOf(before: Text, t: Text, lines: seq<Text>, quote: Unit)
    returns (body: seq<BodyLine>, after: Option<Text>)
    requires quote != BACKSLASH
    ensures IsBody(body, quote) && |body| <= |lines| + 1
    ensures after == None ==> |body| == |lines| + 1 && [before + t] + lines == ShowBody(before, body, [])
    ensures after.Some? ==>
              !body[|body| - 1].slash
              && [before + t] + lines == ShowBody(before, body, [quote] + after.value) + lines[|body| - 1..]
    decreases |lines|
  {
    var line, end := PiecesOf(t, quote);
    if end.Some? || lines == [] {
      body, after := [line], end;
      var closing := if end == None then [] else [quote] + end.value;
      assert before + t == before + ShowBodyLine(line) + closing;
    } else {
      var more;
      more, after := BodyOf([], lines[0], lines[1..], quote);
      body := [line] + more;
      assert [] + lines[0] == lines[0];
      assert lines == [lines[0]] + lines[1..];
      assert body[1..] == more;
      assert before + t == before + ShowBodyLine(line) + [];
      BodyGrows(before, line, more, lines, quote, after);
    }
  }

  lemma BodyGrows(before: Text, line: BodyLine, more: seq<BodyLine>, lines: seq<Text>, quote: Unit, after: Option<Text>)
    requires IsBodyLine(line, quote) && IsBody(more, quote) && lines != [] && |more| <= |lines|
    requires after == None ==> |more| == |lines| && lines == ShowBody([], more, [])
    requires after.Some? ==> lines == ShowBody([], more, [quote] + after.value) + lines[1..][|more| - 1..]
    ensures var body := [line] + more;
            && IsBody(body, quote)
            && (after == None ==> [before + ShowBodyLine(line)] + lines == ShowBody(before, body, []))
            && (after.Some? ==>
                  [before + ShowBodyLine(line)] + lines
                  == ShowBody(before, body, [quote] + after.value) + lines[|body| - 1..])
  {
    hide IsBodyLine, ShowBodyLine;
    var body := [line] + more;
    assert body[1..] == more && body[0] == line;
    if after.Some? {
      assert lines[1..][|more| - 1..] == lines[|body| - 1..];
    }
  }

  /** Parts between escaped hashes, and the comment behind the first hash that is not escaped. */
  lemma {:induction false} PartsOf(t: Text) returns (parts: seq<Text>, comment: Option<Text>)
    ensures AreParts(parts, comment) && t == PlainText(parts) + ShowComment(comment)
    decreases |t|
  {
    if t == [] {
      parts, comment := [[]], None;
    } else if t[0] == HASH {
      parts, comment := [[]], Some(t[1..]);
      assert t == [HASH] + t[1..];
    } else if IsEscapedHash(t) {
      var more;
      more, comment := PartsOf(t[2..]);
      parts := [[]] + more;
      assert t == ESCAPED_HASH + t[2..];
      PartsWithHash(more, comment, parts);
    } else {
      var more;
      more, comment := PartsOf(t[1..]);
      parts := [[t[0]] + more[0]] + more[1..];
      assert t == [t[0]] + t[1..];
      PartsLonger(t[0], more, comment, parts);
    }
  }

  lemma PartsWithHash(more: seq<Text>, comment: Option<Text>, parts: seq<Text>)
    requires AreParts(more, comment) && parts == [[]] + more
    ensures AreParts(parts, comment)
    ensures PlainText(parts) + ShowComment(comment) == ESCAPED_HASH + (PlainText(more) + ShowComment(comment))
  {
    LastPart(parts, more);
    assert parts[1..] == more;
    assert PlainText(parts) == [] + ESCAPED_HASH + PlainText(more);
  }

  lemma LastPart(parts: seq<Text>, more: seq<Text>)
    requires more != [] && parts == [[]] + more
    ensures parts[|parts| - 1] == more[|more| - 1] && forall i :: 0 < i < |parts| ==> parts[i] == more[i - 1]
  {
  }

  lemma PartsLonger(u: Unit, more: seq<Text>, comment: Option<Text>, parts: seq<Text>)
    requires AreParts(more, comment) && parts == [[u] + more[0]] + more[1..] && u != HASH
    requires !IsEscapedHash([u] + (PlainText(more) + ShowComment(comment)))
    ensures AreParts(parts, comment)
    ensures PlainText(parts) + ShowComment(comment) == [u] + (PlainText(more) + ShowComment(comment))
  {
    assert parts[0][0] == u && [parts[0][1..]] + parts[1..] == more;
    JoinsLess(parts, more, ESCAPED_HASH);
    forall i | 0 <= i < |parts| ensures HASH !in parts[i] { assert HASH !in more[i]; }
    if comment.Some? && |more| == 1 && more[0] == [] {
      assert ([u] + (PlainText(more) + ShowComment(comment)))[1] == HASH;
    }
  }

  /** The lead of a line that has an equals sign and is no comment. */
  lemma LeadOf(indent: Text, text: Text) returns (lead: Lead, rest: Text)
    requires AllSpace(indent) && text != [] && !IsSpace(text[0]) && text[0] != HASH && EQUALS in text
    ensures IsLead(lead) && indent + text == ShowLead(lead) + rest
  {
    hide AllSpace, IsSpace, IsTight;
    if StartsWithExport(text) {
      var separator, body := LeadingSpace(text[6..]);
      ExportOf(text, separator, body);
      hide StartsWithExport;
      var name, gap;
      name, gap, rest := NameAndRest(body, false);
      lead := Lead(indent, Some(separator), name, gap);
      hide IsLead;
      assert indent + (Ascii("export") + separator + (name + gap + [EQUALS] + rest)) == ShowLead(lead) + rest;
    } else {
      hide StartsWithExport;
      var name, gap;
      name, gap, rest := NameAndRest(text, true);
      lead := Lead(indent, None, name, gap);
      hide IsLead;
      assert indent + (name + gap + [EQUALS] + rest) == ShowLead(lead) + rest;
    }
  }

  lemma NameAndRest(body: Text, bare: bool) returns (name: Text, gap: Text, rest: Text)
    requires body != [] && !IsSpace(body[0]) && EQUALS in body && (bare ==> !StartsWithExport(body))
    ensures body == name + gap + [EQUALS] + rest && AllSpace(gap)
    ensures IsTight(name) && EQUALS !in name && (name == [] ==> gap == []) && (name != [] ==> name[0] == body[0])
    ensures bare ==> !StartsWithExport(name + gap)
  {
    var i := FirstOf(body, EQUALS);
    name, gap := TrailingSpace(body[..i]);
    rest := body[i + 1..];
    assert body == body[..i] + [body[i]] + body[i + 1..];
    NameOf(body, i, name, gap);
    assert name != [] ==> body[..i][0] == body[0];
    if bare {
      NoExportBefore(body, i);
    }
  }

  lemma NameOf(body: Text, i: nat, name: Text, gap: Text)
    requires i < |body| && !IsSpace(body[0]) && body[..i] == name + gap && AllSpace(gap) && EQUALS !in body[..i]
    requires name != [] ==> !IsSpace(name[|name| - 1])
    ensures IsTight(name) && EQUALS !in name && (name == [] ==> gap == [])
  {
    assert forall k :: 0 <= k < |name| ==> name[k] == body[..i][k];
    assert i > 0 ==> body[..i][0] == body[0];
    assert name == [] ==> body[..i] == gap;
  }

  lemma NoExportBefore(body: Text, i: nat)
    requires i < |body| && !StartsWithExport(body)
    ensures !StartsWithExport(body[..i])
  {
    if i >= 7 {
      assert body[..i][..7] == body[..7];
    }
  }

  lemma ExportOf(text: Text, space: Text, body: Text)
    requires StartsWithExport(text) && text[6..] == space + body && AllSpace(space) && (body != [] ==> !IsSpace(body[0]))
    requires EQUALS in text
    ensures text == Ascii("export") + space + body && EQUALS in body && !IsSpace(body[0])
    ensures space != [] && space[0] in {SPACE, TAB}
  {
    assert text[..6] == Ascii("export");
    assert text[6] == text[6..][0];
    assert text[6] in {SPACE, TAB};
    assert EQUALS !in Ascii("export") && EQUALS !in space;
    assert text == text[..6] + text[6..];
  }

  /** The item that the first of these lines begins. */
  lemma FirstItem(lines: seq<Text>, seen: set<Text>) returns (item: Item)
    requires lines != []
    ensures IsItem(item, seen) && 1 <= |ShowItem(item)| <= |lines|
    ensures lines == ShowItem(item) + lines[|ShowItem(item)|..] && (item.Unclosed? ==> |ShowItem(item)| == |lines|)
  {
    var indent, text := LeadingSpace(lines[0]);
    assert lines == [lines[0]] + lines[1..];
    if text == [] {
      item := Blank(indent);
      assert indent + [] == indent;
    } else if text[0] == HASH {
      item := Comment(indent, text[1..]);
      assert text == [HASH] + text[1..];
      assert lines[0] == indent + [HASH] + text[1..];
    } else if EQUALS !in text {
      item := Bare(indent, text);
    } else {
      var lead, rest := LeadOf(indent, text);
      hide IsLead, ShowLead, IsName;
      if !IsName(lead.name) {
        item := Misnamed(lead, rest);
      } else if lead.name in seen {
        item := Again(lead, rest);
      } else {
        item := FirstAssignment(lines, seen, lead, rest);
      }
    }
  }

  lemma FirstAssignment(lines: seq<Text>, seen: set<Text>, lead: Lead, rest: Text) returns (item: Item)
    requires lines != [] && IsLead(lead) && IsName(lead.name) && lead.name !in seen && lines[0] == ShowLead(lead) + rest
    ensures IsItem(item, seen) && 1 <= |ShowItem(item)| <= |lines|
    ensures lines == ShowItem(item) + lines[|ShowItem(item)|..] && (item.Unclosed? ==> |ShowItem(item)| == |lines|)
  {
    hide IsLead, ShowLead, IsName;
    var pad, text := LeadingSpace(rest);
    assert lines == [lines[0]] + lines[1..];
    if text != [] && text[0] in {DQUOTE, SQUOTE, BACKTICK} {
      item := QuotedItem(lines, seen, lead, pad, text);
    } else {
      var parts, comment := PartsOf(text);
      var value, tail := TrailingSpace(Join(parts, [HASH]));
      item := Plain(lead, pad, parts, value, tail, comment);
      hide PlainText, AreParts;
      assert PlainText(parts) != [] ==> PlainText(parts)[0] == text[0];
      assert ShowLead(lead) + (pad + text) == ShowLead(lead) + pad + (PlainText(parts) + ShowComment(comment));
    }
  }

  lemma QuotedItem(lines: seq<Text>, seen: set<Text>, lead: Lead, pad: Text, text: Text) returns (item: Item)
    requires lines != [] && IsLead(lead) && IsName(lead.name) && lead.name !in seen && AllSpace(pad)
    requires text != [] && text[0] in {DQUOTE, SQUOTE, BACKTICK} && lines[0] == ShowLead(lead) + (pad + text)
    ensures IsItem(item, seen) && 1 <= |ShowItem(item)| <= |lines|
    ensures lines == ShowItem(item) + lines[|ShowItem(item)|..] && (item.Unclosed? ==> |ShowItem(item)| == |lines|)
  {
    hide IsLead, ShowLead, IsName, ShowBody, IsBodyLine;
    var quote, before := text[0], ShowLead(lead) + pad + [text[0]];
    var body, after := BodyOf(before, text[1..], lines[1..], quote);
    assert text == [quote] + text[1..];
    assert lines[0] == before + text[1..];
    assert lines == [lines[0]] + lines[1..];
    if after == None {
      ShownBodyLength(before, body, []);
      item := Unclosed(lead, pad, quote, body);
    } else {
      ShownBodyLength(before, body, [quote] + after.value);
      var tail, rest := LeadingSpace(after.value);
      assert lines[1..][|body| - 1..] == lines[|body|..];
      assert [quote] + tail + rest == [quote] + after.value;
      if rest == [] {
        item := Quoted(lead, pad, quote, body, tail, None);
      } else if rest[0] == HASH {
        item := Quoted(lead, pad, quote, body, tail, Some(rest[1..]));
        assert rest == [HASH] + rest[1..];
      } else {
        item := Cluttered(lead, pad, quote, body, tail, rest);
      }
    }
  }

  lemma {:induction false} LinesAreItems(lines: seq<Text>, seen: set<Text>) returns (items: seq<Item>)
    ensures IsDocument(items, seen) && Show(items, seen) == lines
    decreases |lines|
  {
    if lines == [] {
      items := [];
    } else {
      var item := FirstItem(lines, seen);
      var n := |ShowItem(item)|;
      hide IsItem, ShowItem, Assigned;
      var more := LinesAreItems(lines[n..], seen + Assigned(item));
      items := [item] + more;
      assert items[1..] == more && items[0] == item;
    }
  }

  lemma {:induction false} SplitHasNoSeparator(t: Text, u: Unit)
    ensures forall i :: 0 <= i < |Split(t, [u])| ==> u !in Split(t, [u])[i]
    decreases |t|
  {
    var i := IndexOf(t, [u]);
    if i < 0 {
      AbsentIfNotFound(t, u);
    } else {
      SplitHasNoSeparator(t[i + 1..], u);
      FoundIsFirst(t, u);
    }
  }

  lemma {:induction false} AbsentIfNotFound(t: Text, u: Unit)
    requires IndexOf(t, [u]) < 0
    ensures u !in t
  {
    if t != [] {
      assert t[..1] == [t[0]] && t == [t[0]] + t[1..];
      AbsentIfNotFound(t[1..], u);
    }
  }

  lemma {:induction false} FoundIsFirst(t: Text, u: Unit)
    requires IndexOf(t, [u]) >= 0
    ensures u !in t[..IndexOf(t, [u])]
  {
    assert t[..1] == [t[0]];
    if t[0] != u {
      FoundIsFirst(t[1..], u);
      var i := IndexOf(t, [u]);
      assert t[..i] == [t[0]] + t[1..][..i - 1];
    }
  }

  lemma LinesOf(parts: seq<Text>) returns (lines: seq<Text>, returns_: seq<bool>)
    requires parts != [] && forall i :: 0 <= i < |parts| ==> LF !in parts[i]
    ensures |lines| == |parts| == |returns_| + 1 && WithReturn(lines, returns_) == parts
    ensures forall i :: 0 <= i < |lines| ==> LF !in lines[i]
    ensures forall i :: 0 <= i < |returns_| && !returns_[i] ==> !EndsWithReturn(lines[i])
  {
    returns_ := seq(|parts| - 1, i requires 0 <= i < |parts| - 1 => EndsWithReturn(parts[i]));
    lines := seq(|parts|, i requires 0 <= i < |parts| => if i + 1 < |parts| then StripCr(parts[i]) else parts[i]);
    forall i | 0 <= i < |parts|
      ensures WithReturn(lines, returns_)[i] == parts[i] && LF !in lines[i]
    {
      assert LF !in parts[i];
      LineOf(parts[i], i + 1 < |parts|);
    }
  }

  lemma LineOf(part: Text, ended: bool)
    requires LF !in part
    ensures var line := if ended then StripCr(part) else part;
            && line + (if ended && EndsWithReturn(part) then [CR] else []) == part
            && LF !in line
            && (ended && !EndsWithReturn(part) ==> !EndsWithReturn(line))
  {
  }

  /** Every text is the source of a document, so the laws of the grammar speak of every input. */
  lemma EveryTextIsADocument(source: Text) returns (mark: bool, items: seq<Item>, returns_: seq<bool>)
    ensures IsDocument(items, {}) && IsSource(mark, Show(items, {}), returns_)
    ensures source == Source(mark, Show(items, {}), returns_)
    ensures Parse(source) == Mean(items, {}, 1)
  {
    mark := source != [] && source[0] == 0xFEFF;
    var text := if mark then source[1..] else source;
    assert source == (if mark then [0xFEFF] else []) + text;
    var parts := Split(text, [LF]);
    JoinOfSplit(text, [LF]);
    SplitHasNoSeparator(text, LF);
    hide Split, Join;
    var lines;
    lines, returns_ := LinesOf(parts);
    items := LinesAreItems(lines, {});
    hide IsDocument, Show, Mean, WithReturn, EndsWithReturn;
    assert [] + text == text;
    assert IsSource(mark, lines, returns_);
    ParsedAsMeant(mark, items, returns_);
  }

  /** The simplest document: key=value, where the value is tight, without a hash sign or a leading quote. */
  lemma PlainAssignment(key: Text, value: Text)
    requires IsName(key) && IsTight(value) && HASH !in value && LF !in value
    requires value != [] ==> value[0] !in {DQUOTE, SQUOTE, BACKTICK}
    ensures Parse(key + [EQUALS] + value) == Parsed([DotenvEntry(key, value, 1)], [])
  {
    var lead := Lead([], None, key, []);
    var item := Plain(lead, [], [value], value, [], None);
    KeyLead(key, lead);
    assert value + [] == value && value + [] + [] == value;
    assert IsItem(item, {});
    var line := key + [EQUALS] + value;
    assert ShowItem(item) == [line] by {
      assert ShowLead(lead) + [] + (value + []) == line;
    }
    assert MeanItem(item, 1) == Parsed([DotenvEntry(key, value, 1)], []);
    hide IsDocument, Show, Mean, IsItem, ShowItem, MeanItem;
    OneItem(item);
    KeyLine(key, value, line);
    ParsedAsMeant(false, [item], []);
  }

  lemma OneItem(item: Item)
    requires IsItem(item, {}) && HasBody(item)
    ensures IsDocument([item], {}) && Show([item], {}) == ShowItem(item) && Mean([item], {}, 1) == MeanItem(item, 1)
  {
    hide IsItem, ShowItem, MeanItem, HasBody;
    var items := [item];
    assert items[0] == item && items[1..] == [];
    assert Append(MeanItem(item, 1), Parsed([], [])) == MeanItem(item, 1);
  }

  lemma KeyLead(key: Text, lead: Lead)
    requires IsName(key) && lead == Lead([], None, key, [])
    ensures IsLead(lead)
  {
    NamesAreKeys(key);
    assert forall i :: 0 <= i < |key| ==> IsKeyUnit(key[i]);
    assert key + [] == key;
    SpaceEndsExport(key);
  }

  lemma SpaceEndsExport(t: Text)
    ensures StartsWithExport(t) ==> |t| > 6 && t[6] in {SPACE, TAB}
  {
    assert Ascii("export ")[6] == SPACE && Ascii("export\t")[6] == TAB;
  }

  lemma KeyLine(key: Text, value: Text, line: Text)
    requires IsName(key) && LF !in value && line == key + [EQUALS] + value
    ensures IsSource(false, [line], []) && Source(false, [line], []) == line
  {
    NamesAreKeys(key);
    assert forall i :: 0 <= i < |key| ==> IsKeyUnit(key[i]);
    assert WithReturn([line], []) == [line] by { assert line + [] == line; }
    assert [] + line == line && line[0] == key[0];
  }
}
