/** The JSON reader of packages/imports: flattening a parsed document into key/value entries. */
module JsonImport {
  import opened Wrappers
  import opened Strings
  import JsonString
  import Dotenv
  import LineExport

  /** A parsed JSON document. A scalar is a number or a boolean, given by its String() text. */
  datatype Json = Str(value: Text) | Scalar(printed: Text) | Null | Array | Object(fields: seq<Field>)

  datatype Field = Field(name: Text, child: Json)

  datatype IssueCode =
    | InvalidJson | RootNotObject | ArrayNotSupported | UnsupportedType | InvalidKey | KeyCollision | InvalidDelimiter
    | LimitExceeded

  datatype Issue = Issue(path: Text, code: IssueCode)

  datatype Entry = Entry(key: Text, value: Text, path: Text)

  datatype State = State(entries: seq<Entry>, issues: seq<Issue>, keys: set<Text>)

  const MAX_DEPTH: nat := 20
  const MAX_ENTRIES: nat := 100

  predicate DelimiterOk(delimiter: Text) { 1 <= |delimiter| <= 10 && NoForbidden(delimiter) }

  predicate SegmentOk(segment: Text) { segment != [] && NoForbidden(segment) }

  function PathSegment(segment: Text): Text {
    if segment != [] && (Dotenv.IsKeyStart(segment[0]) || segment[0] == 0x24)
       && forall i :: 0 <= i < |segment| ==> Dotenv.IsKeyStart(segment[i]) || IsDigit(segment[i]) || segment[i] == 0x24
    then segment
    else [0x5B] + JsonString.Quote(segment) + [0x5D]
  }

  function ChildPath(path: Text, segment: Text): Text { path + [0x2E] + PathSegment(segment) }

  function WithIssue(st: State, path: Text, code: IssueCode): State { st.(issues := st.issues + [Issue(path, code)]) }

  ghost function VisitLeaf(st: State, value: Text, segments: seq<Text>, path: Text, delimiter: Text): State {
    var key := Join(segments, delimiter);
    if key in st.keys then WithIssue(st, path, KeyCollision)
    else if |st.entries| >= MAX_ENTRIES then WithIssue(st, path, LimitExceeded).(keys := st.keys + {key})
    else st.(entries := st.entries + [Entry(key, value, path)], keys := st.keys + {key})
  }

  ghost function Visit(st: State, value: Json, segments: seq<Text>, path: Text, delimiter: Text): State
    decreases value, if value.Object? then |value.fields| + 1 else 0
  {
    if |segments| > MAX_DEPTH then WithIssue(st, path, LimitExceeded)
    else
      match value
      case Array => WithIssue(st, path, ArrayNotSupported)
      case Object(fields) => VisitFields(st, value, |fields|, segments, path, delimiter)
      case Null => WithIssue(st, path, UnsupportedType)
      case Str(v) => VisitLeaf(st, v, segments, path, delimiter)
      case Scalar(v) => VisitLeaf(st, v, segments, path, delimiter)
  }

  /** The state after the first n fields. */
  ghost function VisitFields(st: State, value: Json, n: nat, segments: seq<Text>, path: Text, delimiter: Text): State
    requires value.Object? && n <= |value.fields|
    decreases value, n
  {
    if n == 0 then st
    else
      var before := VisitFields(st, value, n - 1, segments, path, delimiter);
      var f := value.fields[n - 1];
      var childPath := ChildPath(path, f.name);
      if !SegmentOk(f.name) then WithIssue(before, childPath, InvalidKey)
      else Visit(before, f.child, segments + [f.name], childPath, delimiter)
  }

  /** The document as JSON.parse gives it, or None if it refuses the source. */
  ghost function Import(document: Option<Json>, delimiter: Text): State {
    if !DelimiterOk(delimiter) then State([], [Issue([0x24], InvalidDelimiter)], {})
    else if document == None then State([], [Issue([0x24], InvalidJson)], {})
    else if !document.value.Object? then State([], [Issue([0x24], RootNotObject)], {})
    else Visit(State([], [], {}), document.value, [], [0x24], delimiter)
  }

  /** The closure's captured variables. */
  class Flattener {
    var entries: seq<Entry>
    var issues: seq<Issue>
    var keys: set<Text>
    const delimiter: Text

    constructor (delimiter: Text)
      ensures this.delimiter == delimiter && Contents() == State([], [], {})
    {
      this.delimiter := delimiter;
      entries, issues, keys := [], [], {};
    }

    ghost function Contents(): State
      reads this
    {
      State(entries, issues, keys)
    }

    method Report(path: Text, code: IssueCode)
      modifies this
      ensures Contents() == WithIssue(old(Contents()), path, code)
    {
      issues := issues + [Issue(path, code)];
    }

    method Add(value: Text, segments: seq<Text>, path: Text)
      modifies this
      ensures Contents() == VisitLeaf(old(Contents()), value, segments, path, delimiter)
    {
      var key := Join(segments, delimiter);
      if key in keys {
        Report(path, KeyCollision);
        return;
      }
      keys := keys + {key};
      ghost var before := entries;
      entries := entries + [Entry(key, value, path)];
      if |entries| > MAX_ENTRIES {
        entries := entries[..|entries| - 1];
        assert entries == before;
        Report(path, LimitExceeded);
      }
    }

    method Walk(value: Json, segments: seq<Text>, path: Text)
      modifies this
      ensures Contents() == Visit(old(Contents()), value, segments, path, delimiter)
      decreases value
    {
      if |segments| > MAX_DEPTH {
        Report(path, LimitExceeded);
        return;
      }
      match value {
        case Array => Report(path, ArrayNotSupported);
        case Null => Report(path, UnsupportedType);
        case Str(v) => Add(v, segments, path);
        case Scalar(v) => Add(v, segments, path);
        case Object(fields) =>
          for i := 0 to |fields|
            invariant Contents() == VisitFields(old(Contents()), value, i, segments, path, delimiter)
          {
            var name := fields[i].name;
            var childPath := ChildPath(path, name);
            if SegmentOk(name) {
              Walk(fields[i].child, segments + [name], childPath);
            } else {
              Report(childPath, InvalidKey);
            }
          }
      }
    }
  }

  /** parseJsonSecrets, given what JSON.parse makes of the source. */
  method ParseJsonSecrets(document: Option<Json>, delimiter: Text) returns (entries: seq<Entry>, issues: seq<Issue>)
    ensures entries == Import(document, delimiter).entries && issues == Import(document, delimiter).issues
  {
    if !DelimiterOk(delimiter) {
      return [], [Issue([0x24], InvalidDelimiter)];
    }
    if document == None {
      return [], [Issue([0x24], InvalidJson)];
    }
    if !document.value.Object? {
      return [], [Issue([0x24], RootNotObject)];
    }
    var flattener := new Flattener(delimiter);
    flattener.Walk(document.value, [], [0x24]);
    return flattener.entries, flattener.issues;
  }
}
