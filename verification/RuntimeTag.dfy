/**
  The entity tag of the runtime endpoint: printed by the clients, read by the API (sections 8.8.3 and 13.1.2 of
  RFC 9110).
 */
module RuntimeTag {
  import opened Wrappers
  import opened Strings
  import opened Decimal

  const MAX_SAFE_INTEGER := 9007199254740991

  const PREFIX := "\"himi-config-"

  function ETag(version: nat): Text { Ascii(PREFIX) + Digits(version) + [DQUOTE] }

  predicate AreDigits(t: Text) { forall i :: 0 <= i < |t| ==> IsDigit(t[i]) }

  /** The version a tag names; a weakness prefix is ignored and a number no safe integer holds is not a version. */
  function VersionOfTag(tag: Text): Option<nat> {
    var t := if |tag| >= 2 && tag[..2] == Ascii("W/") then tag[2..] else tag;
    var n := |Ascii(PREFIX)|;
    if |t| < n + 2 || t[..n] != Ascii(PREFIX) || t[|t| - 1] != DQUOTE || !AreDigits(t[n..|t| - 1]) then None
    else if ValueOf(t[n..|t| - 1]) <= MAX_SAFE_INTEGER then Some(ValueOf(t[n..|t| - 1]))
    else None
  }

  datatype Known = Any | Versions(versions: seq<nat>)

  function VersionsOf(tags: seq<Text>): seq<nat> {
    if tags == [] then []
    else
      var version := VersionOfTag(Trim(tags[0]));
      (if version == None then [] else [version.value]) + VersionsOf(tags[1..])
  }

  /** The If-None-Match header as the API reads it. */
  function ParseHeader(header: Option<Text>): Known {
    if header == None then Versions([])
    else
      var tags := Split(header.value, [COMMA]);
      if exists i :: 0 <= i < |tags| && Trim(tags[i]) == Ascii("*") then Any else Versions(VersionsOf(tags))
  }

  /** The header the client sends when it knows a version; 0 asks for a full fetch. */
  function HeaderFor(known: nat): Option<Text> { if known > 0 then Some(ETag(known)) else None }

  /** Whether the API answers 304 instead of the secrets. */
  predicate AnswersNotModified(header: Option<Text>, current: nat) {
    var known := ParseHeader(header);
    known.Any? || current in known.versions
  }

  lemma TagReadsBack(version: nat)
    requires version <= MAX_SAFE_INTEGER
    ensures VersionOfTag(ETag(version)) == Some(version)
    ensures VersionOfTag(Ascii("W/") + ETag(version)) == Some(version)
  {
    hide Digits;
    var t, n, weak := ETag(version), |Ascii(PREFIX)|, Ascii("W/") + ETag(version);
    assert t[..n] == Ascii(PREFIX) && t[n..|t| - 1] == Digits(version);
    assert t[0] == DQUOTE && Ascii("W/")[0] == 'W' as int;
    assert t[..2] != Ascii("W/") by { assert t[..2][0] == DQUOTE; }
    assert weak[..2] == Ascii("W/") && weak[2..] == t;
    ValueOfDigits(version);
  }

  lemma TagIsPlain(version: nat)
    ensures Trim(ETag(version)) == ETag(version) && COMMA !in ETag(version) && ETag(version) != Ascii("*")
  {
    hide Digits;
    forall i | 0 <= i < |ETag(version)|
      ensures !IsSpace(ETag(version)[i]) && ETag(version)[i] != COMMA
    {
      if i < |Ascii(PREFIX)| { assert ETag(version)[i] == PREFIX[i] as int; }
    }
    TrimOfDense(ETag(version));
    assert |Ascii("*")| == 1;
  }

  lemma {:induction false} ListReadsBack(parts: seq<Text>, versions: seq<nat>)
    requires |parts| == |versions|
    requires forall i :: 0 <= i < |parts| ==> versions[i] <= MAX_SAFE_INTEGER && Trim(parts[i]) == ETag(versions[i])
    ensures VersionsOf(parts) == versions
  {
    hide ETag, VersionOfTag, Trim;
    if parts != [] {
      TagReadsBack(versions[0]);
      ListReadsBack(parts[1..], versions[1..]);
      assert versions == [versions[0]] + versions[1..];
    }
  }

  /** A list of tags, padded in any way that trimming undoes, is read as exactly its versions. */
  lemma HeaderReadsBack(parts: seq<Text>, versions: seq<nat>)
    requires parts != [] && |parts| == |versions|
    requires forall i :: 0 <= i < |parts| ==>
               versions[i] <= MAX_SAFE_INTEGER && Trim(parts[i]) == ETag(versions[i]) && COMMA !in parts[i]
    ensures ParseHeader(Some(Join(parts, [COMMA]))) == Versions(versions)
  {
    hide ETag, VersionOfTag, Trim, Join, Split, VersionsOf;
    SplitOfJoin(parts, COMMA);
    ListReadsBack(parts, versions);
    forall i | 0 <= i < |parts|
      ensures Trim(parts[i]) != Ascii("*")
    {
      TagIsPlain(versions[i]);
    }
  }

  /** A poll gets 304 exactly when it names the current version. */
  lemma NotModifiedIffCurrent(known: nat, current: nat)
    requires known <= MAX_SAFE_INTEGER && current <= MAX_SAFE_INTEGER
    ensures AnswersNotModified(HeaderFor(known), current) <==> known > 0 && known == current
  {
    hide ETag, Trim, Split, VersionsOf;
    if known > 0 {
      TagIsPlain(known);
      HeaderReadsBack([ETag(known)], [known]);
    }
  }

  // ---- every header ----

  /** One or more digits in the quoted form, weak or not. */
  predicate IsTagOf(tag: Text, digits: Text) {
    && digits != [] && AreDigits(digits)
    && (tag == Ascii("\"himi-config-") + digits + Ascii("\"") || tag == Ascii("W/\"himi-config-") + digits + Ascii("\""))
  }

  /** A tag names a version by any decimal writing of it, within the safe integers. */
  ghost predicate Names(tag: Text, version: nat) {
    version <= MAX_SAFE_INTEGER && exists digits :: IsTagOf(tag, digits) && ValueOf(digits) == version
  }

  lemma Quoted(digits: Text)
    ensures Ascii("\"himi-config-") + digits + Ascii("\"") == Ascii(PREFIX) + digits + [DQUOTE]
    ensures Ascii("W/\"himi-config-") + digits + Ascii("\"") == Ascii("W/") + (Ascii(PREFIX) + digits + [DQUOTE])
  {
    assert Ascii("\"") == [DQUOTE] && Ascii("W/\"himi-config-") == Ascii("W/") + Ascii(PREFIX);
  }

  lemma StrongTag(tag: Text, digits: Text)
    requires digits != [] && AreDigits(digits) && tag == Ascii("\"himi-config-") + digits + Ascii("\"")
    ensures VersionOfTag(tag) == if ValueOf(digits) <= MAX_SAFE_INTEGER then Some(ValueOf(digits)) else None
  {
    var n := |Ascii(PREFIX)|;
    assert tag[..n] == Ascii(PREFIX) && tag[n..|tag| - 1] == digits;
    assert tag[0] == DQUOTE && tag[..2] != Ascii("W/") by { assert tag[..2][0] == DQUOTE; }
  }

  lemma WeakTag(tag: Text, digits: Text)
    requires digits != [] && AreDigits(digits) && tag == Ascii("W/\"himi-config-") + digits + Ascii("\"")
    ensures VersionOfTag(tag) == if ValueOf(digits) <= MAX_SAFE_INTEGER then Some(ValueOf(digits)) else None
  {
    var t, n := Ascii(PREFIX) + digits + [DQUOTE], |Ascii(PREFIX)|;
    Quoted(digits);
    assert tag[..2] == Ascii("W/") && tag[2..] == t;
    assert t[..n] == Ascii(PREFIX) && t[n..|t| - 1] == digits;
  }

  /** What is read as a version has the form of a tag. */
  lemma ReadIsTag(tag: Text) returns (digits: Text)
    requires VersionOfTag(tag).Some?
    ensures IsTagOf(tag, digits) && ValueOf(digits) == VersionOfTag(tag).value <= MAX_SAFE_INTEGER
  {
    var weak := |tag| >= 2 && tag[..2] == Ascii("W/");
    var t, n := if weak then tag[2..] else tag, |Ascii(PREFIX)|;
    digits := t[n..|t| - 1];
    hide ValueOf, Ascii;
    assert t == Ascii(PREFIX) + digits + [DQUOTE];
    assert weak ==> tag == Ascii("W/") + t;
    Quoted(digits);
  }

  /** A tag is read as the version it names, and every other text as none. */
  lemma VersionIffNamed(tag: Text, version: nat)
    ensures VersionOfTag(tag) == Some(version) <==> Names(tag, version)
  {
    hide VersionOfTag, ValueOf, Ascii;
    if VersionOfTag(tag) == Some(version) {
      var digits := ReadIsTag(tag);
      assert ValueOf(digits) == version;
    }
    if Names(tag, version) {
      var digits :| IsTagOf(tag, digits) && ValueOf(digits) == version;
      if tag == Ascii("\"himi-config-") + digits + Ascii("\"") {
        StrongTag(tag, digits);
      } else {
        WeakTag(tag, digits);
      }
    }
  }

  lemma {:induction false} VersionsAreNamed(tags: seq<Text>, version: nat)
    ensures version in VersionsOf(tags) <==> exists i :: 0 <= i < |tags| && Names(Trim(tags[i]), version)
  {
    hide Names, VersionOfTag, Trim;
    if tags != [] {
      VersionsAreNamed(tags[1..], version);
      VersionIffNamed(Trim(tags[0]), version);
      if i :| 0 <= i < |tags| && Names(Trim(tags[i]), version) && i > 0 {
        assert tags[i] == tags[1..][i - 1];
      }
      if i :| 0 <= i < |tags[1..]| && Names(Trim(tags[1..][i]), version) {
        assert tags[i + 1] == tags[1..][i];
      }
    }
  }

  /**
    Whatever the header: 304 exactly if one of its members, without the white space around it, is an asterisk or names
    the current version; members that are neither change nothing. Without a header the answer is never 304.
   */
  lemma NotModifiedIffMember(members: seq<Text>, current: nat)
    requires members != [] && forall i :: 0 <= i < |members| ==> COMMA !in members[i]
    ensures AnswersNotModified(Some(Join(members, [COMMA])), current) <==>
              exists i :: 0 <= i < |members| && (Trim(members[i]) == Ascii("*") || Names(Trim(members[i]), current))
    ensures !AnswersNotModified(None, current)
  {
    hide Names, Trim, Split, Join, VersionsOf;
    SplitOfJoin(members, COMMA);
    VersionsAreNamed(members, current);
  }
}
