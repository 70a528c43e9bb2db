/** The strings that bind ciphertexts to where they are stored, and the names of cached keys. */
module AuthenticatedData {
  import opened Wrappers
  import opened Strings
  import opened Decimal
  import opened JsonString

  const MAX_SAFE_INTEGER := 9007199254740991

  const COLON: Unit := 0x3A
  const CLOSE: Unit := 0x5D

  datatype Context =
    Context(orgId: Text, projectId: Text, environmentId: Text, secretId: Text, recordVersion: int)

  predicate IsComplete(c: Context) {
    && c.orgId != [] && c.projectId != [] && c.environmentId != [] && c.secretId != []
    && 1 <= c.recordVersion <= MAX_SAFE_INTEGER
  }

  /** The rest of a JSON array after its tag: quoted strings and a final number, without white space. */
  function ListOf(parts: seq<Text>, version: nat): Text {
    if parts == [] then Digits(version) + [CLOSE] else Quote(parts[0]) + [COMMA] + ListOf(parts[1..], version)
  }

  function Ids(c: Context): seq<Text> { [c.orgId, c.projectId, c.environmentId, c.secretId] }

  const SECRET_TAG := "[\"himitsu-secret\",1,"

  const DEK_TAG := "[\"himitsu-dek\",1,"

  /** The JSON array that authenticates a value; incomplete contexts are refused. */
  function SecretAad(c: Context): Option<Text> {
    if IsComplete(c) then Some(Ascii(SECRET_TAG) + ListOf(Ids(c), c.recordVersion)) else None
  }

  /** The JSON array that authenticates a wrapped data key. */
  function DataKeyAad(orgId: Text, version: nat): Text { Ascii(DEK_TAG) + ListOf([orgId], version) }

  /** The name of a cached key. */
  function CacheKey(orgId: Text, version: nat): Text { orgId + [COLON] + Digits(version) }

  /** One quoted string and its comma are read back whatever follows. */
  lemma QuotedFirst(v: Text, w: Text, x: Text, y: Text)
    requires Quote(v) + [COMMA] + x == Quote(w) + [COMMA] + y
    ensures v == w && x == y
  {
    hide *;
    assert Quote(v) + [COMMA] + x == Quote(v) + ([COMMA] + x);
    assert Quote(w) + [COMMA] + y == Quote(w) + ([COMMA] + y);
    QuotePrefixFree(v, w, [COMMA] + x, [COMMA] + y);
    assert ([COMMA] + x)[1..] == x && ([COMMA] + y)[1..] == y;
  }

  lemma NumberLast(m: nat, n: nat)
    requires Digits(m) + [CLOSE] == Digits(n) + [CLOSE]
    ensures m == n
  {
    hide Digits;
    assert Digits(m) + [CLOSE] + [] == Digits(m) + [CLOSE] && Digits(n) + [CLOSE] + [] == Digits(n) + [CLOSE];
    DigitsPrefixFree(m, n, CLOSE, [], []);
  }

  lemma {:induction false} ListIsInjective(parts: seq<Text>, others: seq<Text>, m: nat, n: nat)
    requires |parts| == |others| && ListOf(parts, m) == ListOf(others, n)
    ensures parts == others && m == n
  {
    hide Quote, Digits;
    if parts == [] {
      NumberLast(m, n);
    } else {
      QuotedFirst(parts[0], others[0], ListOf(parts[1..], m), ListOf(others[1..], n));
      ListIsInjective(parts[1..], others[1..], m, n);
      hide ListOf;
      assert parts == [parts[0]] + parts[1..] && others == [others[0]] + others[1..];
    }
  }

  /** Equal arrays with the same tag hold the same list. */
  lemma SameTag(tag: Text, x: Text, y: Text)
    requires tag + x == tag + y
    ensures x == y
  {
    assert (tag + x)[|tag|..] == x && (tag + y)[|tag|..] == y;
  }

  /** A reader of these lists: strings, each with its comma, then a number and the bracket. */
  function ReadList(t: Text): Option<(seq<Text>, nat)>
    decreases |t|
  {
    if t != [] && t[0] == DQUOTE then
      var first := ReadString(t);
      if first == None then None
      else
        var tail := first.value.1;
        if tail == [] || tail[0] != COMMA || |tail| >= |t| then None
        else
          var others := ReadList(tail[1..]);
          if others == None then None else Some(([first.value.0] + others.value.0, others.value.1))
    else if |t| >= 2 && t[|t| - 1] == CLOSE && forall i :: 0 <= i < |t| - 1 ==> IsDigit(t[i]) then
      Some(([], ValueOf(t[..|t| - 1])))
    else None
  }

  lemma {:induction false} ListReadsBack(parts: seq<Text>, version: nat)
    ensures ReadList(ListOf(parts, version)) == Some((parts, version))
  {
    var t := ListOf(parts, version);
    if parts == [] {
      hide Digits, ReadString;
      assert t[..|t| - 1] == Digits(version) && IsDigit(t[0]);
      ValueOfDigits(version);
    } else {
      hide Digits, ReadString, QuoteBody;
      var tail := [COMMA] + ListOf(parts[1..], version);
      assert t == Quote(parts[0]) + tail && tail[1..] == ListOf(parts[1..], version);
      assert t[0] == DQUOTE;
      ReadOfQuote(parts[0], tail);
      ListReadsBack(parts[1..], version);
      assert parts == [parts[0]] + parts[1..];
    }
  }

  /** What is authenticated is the context, field by field, behind the tag of a value; incomplete ones have nothing. */
  lemma SecretAadReadsBack(c: Context)
    ensures SecretAad(c).Some? <==>
              [] !in [c.orgId, c.projectId, c.environmentId, c.secretId] && 1 <= c.recordVersion < 0x20_0000_0000_0000
    ensures SecretAad(c).Some? ==>
              var tag := "[\"himitsu-secret\",1,";
              && |SecretAad(c).value| >= |tag| && SecretAad(c).value[..|tag|] == Ascii(tag)
              && ReadList(SecretAad(c).value[|tag|..])
                 == Some(([c.orgId, c.projectId, c.environmentId, c.secretId], c.recordVersion))
  {
    hide ListOf, ReadList;
    if SecretAad(c).Some? {
      var t := ListOf(Ids(c), c.recordVersion);
      assert (Ascii(SECRET_TAG) + t)[|SECRET_TAG|..] == t;
      ListReadsBack(Ids(c), c.recordVersion);
    }
  }

  /** A wrapped key is bound to its organization and version, behind a tag of its own. */
  lemma DataKeyAadReadsBack(orgId: Text, version: nat)
    ensures var tag := "[\"himitsu-dek\",1,";
            && |DataKeyAad(orgId, version)| >= |tag| && DataKeyAad(orgId, version)[..|tag|] == Ascii(tag)
            && ReadList(DataKeyAad(orgId, version)[|tag|..]) == Some(([orgId], version))
  {
    hide ListOf, ReadList;
    var t := ListOf([orgId], version);
    assert (Ascii(DEK_TAG) + t)[|DEK_TAG|..] == t;
    ListReadsBack([orgId], version);
  }

  /** Two complete contexts share their authenticated data only if they are the same context. */
  lemma SecretAadIsInjective(c: Context, d: Context)
    requires IsComplete(c) && IsComplete(d) && SecretAad(c) == SecretAad(d)
    ensures c == d
  {
    hide ListOf;
    SameTag(Ascii(SECRET_TAG), ListOf(Ids(c), c.recordVersion), ListOf(Ids(d), d.recordVersion));
    ListIsInjective(Ids(c), Ids(d), c.recordVersion, d.recordVersion);
    assert Ids(c)[0] == Ids(d)[0] && Ids(c)[1] == Ids(d)[1] && Ids(c)[2] == Ids(d)[2] && Ids(c)[3] == Ids(d)[3];
  }

  lemma DataKeyAadIsInjective(orgId: Text, version: nat, orgId': Text, version': nat)
    requires DataKeyAad(orgId, version) == DataKeyAad(orgId', version')
    ensures orgId == orgId' && version == version'
  {
    hide ListOf;
    SameTag(Ascii(DEK_TAG), ListOf([orgId], version), ListOf([orgId'], version'));
    ListIsInjective([orgId], [orgId'], version, version');
    assert [orgId][0] == [orgId'][0];
  }

  /** A value never authenticates as a wrapped key, nor a wrapped key as a value. */
  lemma PurposesAreSeparate(c: Context, orgId: Text, version: nat)
    requires IsComplete(c)
    ensures SecretAad(c) != Some(DataKeyAad(orgId, version))
  {
    hide ListOf;
    assert SecretAad(c).value[10] == Ascii(SECRET_TAG)[10] == 's' as int;
    assert DataKeyAad(orgId, version)[10] == Ascii(DEK_TAG)[10] == 'd' as int;
  }

  /** Only the last colon separates, so organization ids may hold colons and digits. */
  lemma CacheKeyIsInjective(orgId: Text, version: nat, orgId': Text, version': nat)
    requires CacheKey(orgId, version) == CacheKey(orgId', version')
    ensures orgId == orgId' && version == version'
  {
    hide Digits;
    LastColon(orgId, orgId', Digits(version), Digits(version'));
    assert Digits(version) + [CLOSE] == Digits(version') + [CLOSE];
    NumberLast(version, version');
  }

  lemma LastColon(head: Text, head': Text, a: Text, b: Text)
    requires head + [COLON] + a == head' + [COLON] + b
    requires (forall i :: 0 <= i < |a| ==> IsDigit(a[i])) && (forall i :: 0 <= i < |b| ==> IsDigit(b[i]))
    ensures head == head' && a == b
  {
    var t := head + [COLON] + a;
    assert t[|head|] == COLON && t[|head'|] == COLON;
    assert forall i :: |head| < i < |t| ==> t[i] == a[i - |head| - 1];
    assert forall i :: |head'| < i < |t| ==> t[i] == b[i - |head'| - 1];
    assert |head| == |head'|;
    assert head == t[..|head|] && head' == t[..|head|];
    assert a == t[|head| + 1..] && b == t[|head| + 1..];
  }
}
