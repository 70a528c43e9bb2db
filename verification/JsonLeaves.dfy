/** What a JSON import makes of any document: one entry or one issue for each end of a path through its objects. */
module JsonLeaves {
  import opened Wrappers
  import opened Strings
  import JsonString
  import Dotenv
  import opened InputLaws
  import opened JsonImport

  /** Where a path ends: at a string, number or boolean with its text, or at something that cannot be imported. */
  datatype End = Value(text: Text) | NullEnd | ArrayEnd | TooDeep | BadName

  datatype Leaf = Leaf(segments: seq<Text>, end: End)

  predicate IsPlainName(name: Text) { name != [] && forall i :: 0 <= i < |name| ==> IsPlainUnit(name[i]) }

  /** The ends of all paths that go on from segments, in the order of the document; names that are not plain end one. */
  function Leaves(d: Json, segments: seq<Text>): seq<Leaf>
    decreases d, if d.Object? then |d.fields| + 1 else 0
  {
    if |segments| > 20 then [Leaf(segments, TooDeep)]
    else
      match d
      case Str(text) => [Leaf(segments, Value(text))]
      case Scalar(text) => [Leaf(segments, Value(text))]
      case Null => [Leaf(segments, NullEnd)]
      case Array => [Leaf(segments, ArrayEnd)]
      case Object(fields) => LeavesOfFields(d, |fields|, segments)
  }

  function LeavesOfFields(d: Json, n: nat, segments: seq<Text>): seq<Leaf>
    requires d.Object? && n <= |d.fields|
    decreases d, n
  {
    if n == 0 then []
    else
      var field := d.fields[n - 1];
      LeavesOfFields(d, n - 1, segments)
      + if IsPlainName(field.name) then Leaves(field.child, segments + [field.name])
        else [Leaf(segments + [field.name], BadName)]
  }

  // ---- what becomes of each leaf ----

  /** Segments are written behind dots; those that are no identifiers as bracketed JSON strings. */
  function PathOf(segments: seq<Text>): Text {
    if segments == [] then Ascii("$")
    else ChildPath(PathOf(segments[..|segments| - 1]), segments[|segments| - 1])
  }

  function KeyOf(leaf: Leaf, delimiter: Text): Text { Join(leaf.segments, delimiter) }

  /** The keys of the values among these leaves. */
  function Keys(leaves: seq<Leaf>, delimiter: Text): set<Text> {
    set i | 0 <= i < |leaves| && leaves[i].end.Value? :: KeyOf(leaves[i], delimiter)
  }

  /** Why the last of these leaves gets an issue and no entry, if it does. */
  function Cause(leaves: seq<Leaf>, delimiter: Text): Option<IssueCode>
    requires leaves != []
  {
    var before, leaf := leaves[..|leaves| - 1], leaves[|leaves| - 1];
    match leaf.end
    case NullEnd => Some(UnsupportedType)
    case ArrayEnd => Some(ArrayNotSupported)
    case TooDeep => Some(LimitExceeded)
    case BadName => Some(InvalidKey)
    case Value(_) =>
      if KeyOf(leaf, delimiter) in Keys(before, delimiter) then Some(KeyCollision)
      else if |Keys(before, delimiter)| >= 100 then Some(LimitExceeded)
      else None
  }

  function EntryOf(leaf: Leaf, delimiter: Text): Entry
    requires leaf.end.Value?
  {
    Entry(KeyOf(leaf, delimiter), leaf.end.text, PathOf(leaf.segments))
  }

  function Entries(leaves: seq<Leaf>, delimiter: Text): seq<Entry> {
    if leaves == [] then []
    else
      Entries(leaves[..|leaves| - 1], delimiter)
      + if Cause(leaves, delimiter) == None then [EntryOf(leaves[|leaves| - 1], delimiter)] else []
  }

  function Issues(leaves: seq<Leaf>, delimiter: Text): seq<Issue> {
    if leaves == [] then []
    else
      Issues(leaves[..|leaves| - 1], delimiter)
      + if Cause(leaves, delimiter) == None then []
        else [Issue(PathOf(leaves[|leaves| - 1].segments), Cause(leaves, delimiter).value)]
  }

  function StateOf(leaves: seq<Leaf>, delimiter: Text): State {
    State(Entries(leaves, delimiter), Issues(leaves, delimiter), Keys(leaves, delimiter))
  }

  // ---- the walk ----

  lemma KeysSnoc(leaves: seq<Leaf>, leaf: Leaf, delimiter: Text)
    ensures Keys(leaves + [leaf], delimiter)
         == Keys(leaves, delimiter) + if leaf.end.Value? then {KeyOf(leaf, delimiter)} else {}
  {
    var all := leaves + [leaf];
    forall key | key in Keys(leaves, delimiter) ensures key in Keys(all, delimiter) {
      var i :| 0 <= i < |leaves| && leaves[i].end.Value? && KeyOf(leaves[i], delimiter) == key;
      assert all[i] == leaves[i];
    }
    if leaf.end.Value? {
      assert all[|leaves|] == leaf;
    }
  }

  lemma OneKeyMore(keys: set<Text>, key: Text)
    ensures |keys + {key}| == |keys| + if key in keys then 0 else 1
  {
    if key in keys {
      assert keys + {key} == keys;
    }
  }

  lemma LastEntry(leaves: seq<Leaf>, delimiter: Text)
    requires leaves != []
    ensures var before, leaf := leaves[..|leaves| - 1], leaves[|leaves| - 1];
            |Entries(leaves, delimiter)|
            == |Entries(before, delimiter)|
               + if leaf.end.Value? && KeyOf(leaf, delimiter) !in Keys(before, delimiter)
                    && |Keys(before, delimiter)| < 100 then 1 else 0
  {
    hide Keys, KeyOf, EntryOf;
  }

  /** Entries stop at 100, keys do not. */
  lemma {:induction false} CountEntries(leaves: seq<Leaf>, delimiter: Text)
    ensures |Entries(leaves, delimiter)|
         == if |Keys(leaves, delimiter)| < 100 then |Keys(leaves, delimiter)| else 100
  {
    if leaves == [] {
      assert Keys(leaves, delimiter) == {};
    } else {
      hide *;
      var before, leaf := leaves[..|leaves| - 1], leaves[|leaves| - 1];
      CountEntries(before, delimiter);
      assert leaves == before + [leaf];
      KeysSnoc(before, leaf, delimiter);
      LastEntry(leaves, delimiter);
      OneKeyMore(Keys(before, delimiter), KeyOf(leaf, delimiter));
      assert Keys(before, delimiter) + {} == Keys(before, delimiter);
    }
  }

  lemma StateSnoc(leaves: seq<Leaf>, leaf: Leaf, delimiter: Text)
    ensures StateOf(leaves + [leaf], delimiter) ==
            match leaf.end
            case Value(text) => VisitLeaf(StateOf(leaves, delimiter), text, leaf.segments, PathOf(leaf.segments), delimiter)
            case NullEnd => WithIssue(StateOf(leaves, delimiter), PathOf(leaf.segments), UnsupportedType)
            case ArrayEnd => WithIssue(StateOf(leaves, delimiter), PathOf(leaf.segments), ArrayNotSupported)
            case TooDeep => WithIssue(StateOf(leaves, delimiter), PathOf(leaf.segments), LimitExceeded)
            case BadName => WithIssue(StateOf(leaves, delimiter), PathOf(leaf.segments), InvalidKey)
  {
    var all := leaves + [leaf];
    assert all[..|all| - 1] == leaves && all[|all| - 1] == leaf;
    KeysSnoc(leaves, leaf, delimiter);
    CountEntries(leaves, delimiter);
    hide Keys, PathOf;
    if leaf.end.Value? && KeyOf(leaf, delimiter) in Keys(leaves, delimiter) {
      assert Keys(leaves, delimiter) + {KeyOf(leaf, delimiter)} == Keys(leaves, delimiter);
    }
  }

  /** Walking a part of a document adds its leaves to those passed before. */
  lemma {:induction false} VisitAddsLeaves(before: seq<Leaf>, d: Json, segments: seq<Text>, delimiter: Text)
    ensures Visit(StateOf(before, delimiter), d, segments, PathOf(segments), delimiter)
         == StateOf(before + Leaves(d, segments), delimiter)
    decreases d, if d.Object? then |d.fields| + 1 else 0
  {
    if |segments| > 20 {
      StateSnoc(before, Leaf(segments, TooDeep), delimiter);
    } else {
      match d
      case Str(text) => StateSnoc(before, Leaf(segments, Value(text)), delimiter);
      case Scalar(text) => StateSnoc(before, Leaf(segments, Value(text)), delimiter);
      case Null => StateSnoc(before, Leaf(segments, NullEnd), delimiter);
      case Array => StateSnoc(before, Leaf(segments, ArrayEnd), delimiter);
      case Object(fields) => FieldsAddLeaves(before, d, |fields|, segments, delimiter);
    }
  }

  lemma {:induction false} FieldsAddLeaves(before: seq<Leaf>, d: Json, n: nat, segments: seq<Text>, delimiter: Text)
    requires d.Object? && n <= |d.fields|
    ensures VisitFields(StateOf(before, delimiter), d, n, segments, PathOf(segments), delimiter)
         == StateOf(before + LeavesOfFields(d, n, segments), delimiter)
    decreases d, n
  {
    hide *;
    if n == 0 {
      NoFieldAdds(before, d, segments, delimiter);
    } else {
      var field := d.fields[n - 1];
      var passed, path := before + LeavesOfFields(d, n - 1, segments), segments + [field.name];
      FieldsAddLeaves(before, d, n - 1, segments, delimiter);
      if IsPlainName(field.name) {
        VisitAddsLeaves(passed, field.child, path, delimiter);
      }
      FieldAddsLeaves(before, d, n, segments, delimiter, passed, path);
    }
  }

  lemma NoFieldAdds(before: seq<Leaf>, d: Json, segments: seq<Text>, delimiter: Text)
    requires d.Object?
    ensures VisitFields(StateOf(before, delimiter), d, 0, segments, PathOf(segments), delimiter)
         == StateOf(before + LeavesOfFields(d, 0, segments), delimiter)
  {
    hide StateOf, PathOf;
    assert before + [] == before;
  }

  /** The last field, when the fields before it and its child add theirs. */
  lemma FieldAddsLeaves(before: seq<Leaf>, d: Json, n: nat, segments: seq<Text>, delimiter: Text, passed: seq<Leaf>,
                        path: seq<Text>)
    requires d.Object? && 0 < n <= |d.fields| && path == segments + [d.fields[n - 1].name]
    requires passed == before + LeavesOfFields(d, n - 1, segments)
    requires VisitFields(StateOf(before, delimiter), d, n - 1, segments, PathOf(segments), delimiter)
          == StateOf(passed, delimiter)
    requires IsPlainName(d.fields[n - 1].name) ==>
               Visit(StateOf(passed, delimiter), d.fields[n - 1].child, path, PathOf(path), delimiter)
               == StateOf(passed + Leaves(d.fields[n - 1].child, path), delimiter)
    ensures VisitFields(StateOf(before, delimiter), d, n, segments, PathOf(segments), delimiter)
         == StateOf(before + LeavesOfFields(d, n, segments), delimiter)
  {
    hide *;
    OneFieldVisited(StateOf(before, delimiter), d, n, segments, delimiter);
    OneFieldListed(d, n, segments);
    if IsPlainName(d.fields[n - 1].name) {
      Regroup(before, LeavesOfFields(d, n - 1, segments), Leaves(d.fields[n - 1].child, path));
    } else {
      BadNameAdds(passed, path, delimiter);
      Regroup(before, LeavesOfFields(d, n - 1, segments), [Leaf(path, BadName)]);
    }
  }

  lemma Regroup(a: seq<Leaf>, b: seq<Leaf>, c: seq<Leaf>)
    ensures a + b + c == a + (b + c)
  {
  }

  lemma BadNameAdds(passed: seq<Leaf>, path: seq<Text>, delimiter: Text)
    ensures WithIssue(StateOf(passed, delimiter), PathOf(path), InvalidKey)
         == StateOf(passed + [Leaf(path, BadName)], delimiter)
  {
    hide *;
    StateSnoc(passed, Leaf(path, BadName), delimiter);
  }

  lemma OneFieldVisited(st: State, d: Json, n: nat, segments: seq<Text>, delimiter: Text)
    requires d.Object? && 0 < n <= |d.fields|
    ensures var field, before := d.fields[n - 1], VisitFields(st, d, n - 1, segments, PathOf(segments), delimiter);
            var path := segments + [field.name];
            VisitFields(st, d, n, segments, PathOf(segments), delimiter)
            == if IsPlainName(field.name) then Visit(before, field.child, path, PathOf(path), delimiter)
               else WithIssue(before, PathOf(path), InvalidKey)
  {
    hide Visit;
    var name := d.fields[n - 1].name;
    var path := segments + [name];
    assert path[..|path| - 1] == segments;
    assert PathOf(path) == ChildPath(PathOf(segments), name);
    assert SegmentOk(name) <==> IsPlainName(name);
    hide ChildPath, SegmentOk, IsPlainName, PathOf;
  }

  lemma OneFieldListed(d: Json, n: nat, segments: seq<Text>)
    requires d.Object? && 0 < n <= |d.fields|
    ensures var name, path := d.fields[n - 1].name, segments + [d.fields[n - 1].name];
            LeavesOfFields(d, n, segments)
            == LeavesOfFields(d, n - 1, segments)
               + if IsPlainName(name) then Leaves(d.fields[n - 1].child, path) else [Leaf(path, BadName)]
  {
    hide Leaves, IsPlainName;
  }

  // ---- the import ----

  /** A delimiter of 1 to 10 plain units. */
  predicate IsDelimiter(delimiter: Text) {
    1 <= |delimiter| <= 10 && forall i :: 0 <= i < |delimiter| ==> IsPlainUnit(delimiter[i])
  }

  /** Every import, whatever the document: one issue for a bad request, else entries and issues leaf by leaf. */
  lemma ImportedAsLeaves(document: Option<Json>, delimiter: Text)
    ensures var r := Import(document, delimiter);
            && (!IsDelimiter(delimiter) ==> r.entries == [] && r.issues == [Issue(Ascii("$"), InvalidDelimiter)])
            && (IsDelimiter(delimiter) && document == None ==>
                  r.entries == [] && r.issues == [Issue(Ascii("$"), InvalidJson)])
            && (IsDelimiter(delimiter) && document.Some? && !document.value.Object? ==>
                  r.entries == [] && r.issues == [Issue(Ascii("$"), RootNotObject)])
            && (IsDelimiter(delimiter) && document.Some? && document.value.Object? ==>
                  && r.entries == Entries(Leaves(document.value, []), delimiter)
                  && r.issues == Issues(Leaves(document.value, []), delimiter))
  {
    assert DelimiterOk(delimiter) <==> IsDelimiter(delimiter);
    assert Ascii("$") == [0x24];
    hide DelimiterOk, IsDelimiter;
    if document.Some? && document.value.Object? {
      assert StateOf([], delimiter) == State([], [], {});
      VisitAddsLeaves([], document.value, [], delimiter);
      hide Visit, Leaves;
      assert [] + Leaves(document.value, []) == Leaves(document.value, []);
    }
  }

  // ---- what that means leaf by leaf ----

  /** The leaf at i got its entry, or the issue of its cause. */
  predicate IsAccountedFor(leaves: seq<Leaf>, i: nat, delimiter: Text, entries: seq<Entry>, issues: seq<Issue>)
    requires i < |leaves|
  {
    match Cause(leaves[..i + 1], delimiter)
    case None => leaves[i].end.Value? && EntryOf(leaves[i], delimiter) in entries
    case Some(code) => Issue(PathOf(leaves[i].segments), code) in issues
  }

  /** No leaf is lost: entries and issues together are as many as the leaves, and each leaf has its own. */
  lemma {:induction false} EveryLeafIsAccountedFor(leaves: seq<Leaf>, delimiter: Text)
    ensures |Entries(leaves, delimiter)| + |Issues(leaves, delimiter)| == |leaves|
    ensures forall i :: 0 <= i < |leaves| ==>
              IsAccountedFor(leaves, i, delimiter, Entries(leaves, delimiter), Issues(leaves, delimiter))
  {
    hide Cause, EntryOf, PathOf, IsAccountedFor;
    if leaves != [] {
      var n := |leaves| - 1;
      EveryLeafIsAccountedFor(leaves[..n], delimiter);
      forall i | 0 <= i < |leaves|
        ensures IsAccountedFor(leaves, i, delimiter, Entries(leaves, delimiter), Issues(leaves, delimiter))
      {
        if i < n {
          StaysAccountedFor(leaves, i, delimiter);
        } else {
          LastIsAccountedFor(leaves, delimiter);
        }
      }
    }
  }

  lemma StaysAccountedFor(leaves: seq<Leaf>, i: nat, delimiter: Text)
    requires i + 1 < |leaves|
    requires var before := leaves[..|leaves| - 1];
             IsAccountedFor(before, i, delimiter, Entries(before, delimiter), Issues(before, delimiter))
    ensures IsAccountedFor(leaves, i, delimiter, Entries(leaves, delimiter), Issues(leaves, delimiter))
  {
    hide Cause, EntryOf, PathOf;
    assert leaves[..|leaves| - 1][..i + 1] == leaves[..i + 1];
  }

  lemma LastIsAccountedFor(leaves: seq<Leaf>, delimiter: Text)
    requires leaves != []
    ensures IsAccountedFor(leaves, |leaves| - 1, delimiter, Entries(leaves, delimiter), Issues(leaves, delimiter))
  {
    hide Keys, PathOf, KeyOf;
    assert leaves[..|leaves| - 1 + 1] == leaves;
  }

  /** All leaves are values, at most 100, and no two have the same key. */
  predicate AreImportable(leaves: seq<Leaf>, delimiter: Text) {
    && |leaves| <= 100 && (forall i :: 0 <= i < |leaves| ==> leaves[i].end.Value?)
    && forall i, j :: 0 <= i < j < |leaves| ==> KeyOf(leaves[i], delimiter) != KeyOf(leaves[j], delimiter)
  }

  predicate AreEntriesOf(entries: seq<Entry>, leaves: seq<Leaf>, delimiter: Text) {
    && |entries| == |leaves|
    && forall i :: 0 <= i < |leaves| ==> leaves[i].end.Value? && entries[i] == EntryOf(leaves[i], delimiter)
  }

  lemma EntriesSnoc(entries: seq<Entry>, leaves: seq<Leaf>, delimiter: Text)
    requires leaves != []
    ensures var n := |leaves| - 1;
            AreEntriesOf(entries, leaves[..n], delimiter) && leaves[n].end.Value? ==>
              AreEntriesOf(entries + [EntryOf(leaves[n], delimiter)], leaves, delimiter)
  {
    hide EntryOf;
  }

  /** There is no issue exactly for importable leaves, and then exactly one entry for each, in order. */
  lemma {:induction false} NoIssueIff(leaves: seq<Leaf>, delimiter: Text)
    ensures Issues(leaves, delimiter) == [] <==> AreImportable(leaves, delimiter)
    ensures AreImportable(leaves, delimiter) ==>
              AreEntriesOf(Entries(leaves, delimiter), leaves, delimiter) && |Keys(leaves, delimiter)| == |leaves|
  {
    if leaves == [] {
      assert Keys(leaves, delimiter) == {};
    } else {
      hide *;
      var n := |leaves| - 1;
      NoIssueIff(leaves[..n], delimiter);
      if Cause(leaves, delimiter) == None { CauseOfValue(leaves, delimiter); }
      LastIsImportable(leaves, delimiter);
      LastOutcome(leaves, delimiter);
      EntriesSnoc(Entries(leaves[..n], delimiter), leaves, delimiter);
      LastKey(leaves, delimiter);
    }
  }

  lemma LastKey(leaves: seq<Leaf>, delimiter: Text)
    requires leaves != []
    ensures var n := |leaves| - 1;
            leaves[n].end.Value? && KeyOf(leaves[n], delimiter) !in Keys(leaves[..n], delimiter) ==>
              |Keys(leaves, delimiter)| == |Keys(leaves[..n], delimiter)| + 1
  {
    hide *;
    var n := |leaves| - 1;
    assert leaves == leaves[..n] + [leaves[n]];
    KeysSnoc(leaves[..n], leaves[n], delimiter);
    OneKeyMore(Keys(leaves[..n], delimiter), KeyOf(leaves[n], delimiter));
  }

  lemma CauseOfValue(leaves: seq<Leaf>, delimiter: Text)
    requires leaves != [] && Cause(leaves, delimiter) == None
    ensures leaves[|leaves| - 1].end.Value?
    ensures KeyOf(leaves[|leaves| - 1], delimiter) !in Keys(leaves[..|leaves| - 1], delimiter)
  {
    hide Keys, KeyOf;
  }

  lemma LastOutcome(leaves: seq<Leaf>, delimiter: Text)
    requires leaves != []
    ensures var n := |leaves| - 1;
            if Cause(leaves, delimiter) == None then
              && leaves[n].end.Value? && Issues(leaves, delimiter) == Issues(leaves[..n], delimiter)
              && Entries(leaves, delimiter) == Entries(leaves[..n], delimiter) + [EntryOf(leaves[n], delimiter)]
            else |Issues(leaves, delimiter)| == |Issues(leaves[..n], delimiter)| + 1
  {
    hide Keys, KeyOf, EntryOf, PathOf;
    assert Issues(leaves[..|leaves| - 1], delimiter) + [] == Issues(leaves[..|leaves| - 1], delimiter);
  }

  lemma LastIsImportable(leaves: seq<Leaf>, delimiter: Text)
    requires leaves != []
    requires AreImportable(leaves[..|leaves| - 1], delimiter) ==>
               |Keys(leaves[..|leaves| - 1], delimiter)| == |leaves| - 1
    ensures AreImportable(leaves, delimiter) <==>
              AreImportable(leaves[..|leaves| - 1], delimiter) && Cause(leaves, delimiter) == None
  {
    var n := |leaves| - 1;
    var before, key := leaves[..n], KeyOf(leaves[n], delimiter);
    assert forall i :: 0 <= i < n ==> before[i] == leaves[i];
    if key in Keys(before, delimiter) {
      var i :| 0 <= i < n && before[i].end.Value? && KeyOf(before[i], delimiter) == key;
    } else {
      forall i | 0 <= i < n && leaves[i].end.Value? ensures KeyOf(leaves[i], delimiter) != key {
        assert KeyOf(before[i], delimiter) in Keys(before, delimiter);
      }
    }
  }

  // ---- paths ----

  predicate IsIdentifier(name: Text) {
    && name != [] && (Dotenv.IsKeyStart(name[0]) || name[0] == '$' as int)
    && forall i :: 0 <= i < |name| ==> Dotenv.IsKeyStart(name[i]) || IsDigit(name[i]) || name[i] == '$' as int
  }

  /** What a path shows for a name: an identifier as it is, anything else quoted in brackets. */
  lemma NameIsShown(path: Text, name: Text)
    ensures IsIdentifier(name) ==> ChildPath(path, name) == path + Ascii(".") + name
    ensures !IsIdentifier(name) ==> ChildPath(path, name) == path + Ascii(".[") + JsonString.Quote(name) + Ascii("]")
  {
    assert Ascii(".") == [0x2E] && Ascii(".[") == [0x2E] + [0x5B] && Ascii("]") == [0x5D];
    hide JsonString.Quote;
    assert path + [0x2E] + ([0x5B] + JsonString.Quote(name) + [0x5D])
        == path + ([0x2E] + [0x5B]) + JsonString.Quote(name) + [0x5D];
  }
}
