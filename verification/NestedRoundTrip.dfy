/** Flattening what the nested export wrote: when it succeeds without issues, and what it gives back. */
module NestedRoundTrip {
  import opened Wrappers
  import opened Strings
  import opened LineExport
  import opened NestedExport
  import opened JsonImport

  predicate DistinctNames(fields: seq<Field>) {
    forall i, j :: 0 <= i < j < |fields| ==> fields[i].name != fields[j].name
  }

  /** The document printed from the heap tree at node: same names in some order, same strings. */
  ghost predicate Shows(node: Node, d: Json, repr: set<Node>)
    requires node in repr
    reads repr
    decreases d
  {
    && d.Object? && DistinctNames(d.fields)
    && (set i | 0 <= i < |d.fields| :: d.fields[i].name) == node.fields.Keys
    && forall i :: 0 <= i < |d.fields| ==>
         match node.fields[d.fields[i].name]
         case Leaf(v) => d.fields[i].child == Str(v)
         case Child(n) => n in repr && Shows(n, d.fields[i].child, repr)
  }

  /** d is the subtree at path p of the document with exactly these leaves. */
  ghost predicate IsTree(d: Json, p: Path, leaves: map<Path, Text>)
    decreases d
  {
    match d
    case Str(v) => p in leaves && leaves[p] == v
    case Object(fields) =>
      && p !in leaves && (p == [] || fields != []) && DistinctNames(fields)
      && (forall i :: 0 <= i < |fields| ==> IsTree(fields[i].child, p + [fields[i].name], leaves))
      && (forall l :: l in leaves && p < l ==> exists i :: 0 <= i < |fields| && fields[i].name == l[|p|])
    case _ => false
  }

  lemma {:induction false} ShownIsTree(nodes: map<Path, Node>, leaves: map<Path, Text>, p: Path, d: Json)
    requires Indexed(nodes, leaves) && p in nodes && Shows(nodes[p], d, nodes.Values)
    ensures IsTree(d, p, leaves)
    decreases d
  {
    var shape := ShapeOf(nodes);
    forall i | 0 <= i < |d.fields| ensures IsTree(d.fields[i].child, p + [d.fields[i].name], leaves) {
      var name := d.fields[i].name;
      InitLast(p, name);
      assert name in nodes[p].fields;
      assert SlotAt(shape, p + [name]) == Expected(nodes, leaves, p + [name]);
      if nodes[p].fields[name].Child? {
        ShownIsTree(nodes, leaves, p + [name], d.fields[i].child);
      }
    }
    forall l | (l in leaves || l in nodes) && p < l
      ensures exists i :: 0 <= i < |d.fields| && d.fields[i].name == l[|p|]
    {
      assert l[|p|] in nodes[p].fields by { NextSegment(nodes, shape, leaves, p, l); }
    }
    if p != [] {
      var l :| l in leaves && p < l;
    }
  }

  lemma NextSegment(nodes: map<Path, Node>, shape: Shape, leaves: map<Path, Text>, p: Path, l: Path)
    requires Linked(nodes, shape, leaves) && p in nodes && (l in leaves || l in nodes) && p < l
    ensures l[|p|] in shape[p]
  {
    var q := l[..|p| + 1];
    assert q == p + [l[|p|]] && p == l[..|p|];
    InitLast(p, l[|p|]);
    if |q| < |l| {
      PrefixIsNode(nodes, shape, leaves, l, |q|);
    } else {
      assert q == l;
    }
    assert SlotAt(shape, q) == Expected(nodes, leaves, q);
  }

  function Under(leaves: map<Path, Text>, p: Path): set<Path> {
    set l | l in leaves && p <= l
  }

  predicate InSomeField(l: Path, p: Path, fields: seq<Field>, n: nat)
    requires n <= |fields|
  {
    exists i :: 0 <= i < n && p + [fields[i].name] <= l
  }

  /** The leaves under the first n fields. */
  function UnderFields(leaves: map<Path, Text>, p: Path, fields: seq<Field>, n: nat): set<Path>
    requires n <= |fields|
  {
    set l | l in leaves && InSomeField(l, p, fields, n)
  }

  ghost predicate PrefixFree(leaves: map<Path, Text>) {
    forall l, m :: l in leaves && m in leaves ==> !(l < m)
  }

  ghost predicate UniqueJoins(leaves: map<Path, Text>, delimiter: Text) {
    forall l, m :: l in leaves && m in leaves && Join(l, delimiter) == Join(m, delimiter) ==> l == m
  }

  /** Paths the walk accepts from depth k on. */
  predicate Fits(paths: set<Path>, k: nat) {
    forall l :: l in paths ==> |l| <= MAX_DEPTH && forall j :: k <= j < |l| ==> SegmentOk(l[j])
  }

  ghost predicate Fresh(st: State, paths: set<Path>, delimiter: Text) {
    |st.entries| <= MAX_ENTRIES && forall l :: l in paths ==> Join(l, delimiter) !in st.keys
  }

  predicate EntryOf(e: Entry, l: Path, leaves: map<Path, Text>, delimiter: Text) {
    l in leaves && e.key == Join(l, delimiter) && e.value == leaves[l]
  }

  ghost predicate Listed(entries: seq<Entry>, from: nat, l: Path, leaves: map<Path, Text>, delimiter: Text) {
    exists i :: from <= i < |entries| && EntryOf(entries[i], l, leaves, delimiter)
  }

  /** From index from on, exactly one entry for each of the paths. */
  ghost predicate Lists(entries: seq<Entry>, from: nat, paths: set<Path>, leaves: map<Path, Text>, delimiter: Text) {
    |entries| == from + |paths| && forall l :: l in paths ==> Listed(entries, from, l, leaves, delimiter)
  }

  /** What a stretch of the walk over these leaf paths does to the state. */
  ghost predicate Covers(a: State, b: State, paths: set<Path>, k: nat, leaves: map<Path, Text>, delimiter: Text) {
    && a.issues <= b.issues && |b.entries| <= MAX_ENTRIES
    && (forall key :: key in b.keys ==> key in a.keys || exists l :: l in paths && key == Join(l, delimiter))
    && (a.issues == b.issues <==> Fits(paths, k) && |a.entries| + |paths| <= MAX_ENTRIES)
    && (a.issues == b.issues ==> a.entries <= b.entries && Lists(b.entries, |a.entries|, paths, leaves, delimiter))
  }

  lemma CoversNothing(a: State, k: nat, leaves: map<Path, Text>, delimiter: Text)
    requires |a.entries| <= MAX_ENTRIES
    ensures Covers(a, a, {}, k, leaves, delimiter)
  {
  }

  lemma CoversBoth(
    a: State, b: State, c: State, s: set<Path>, t: set<Path>, k: nat, leaves: map<Path, Text>, delimiter: Text)
    requires Covers(a, b, s, k, leaves, delimiter) && Covers(b, c, t, k, leaves, delimiter) && s !! t
    ensures Covers(a, c, s + t, k, leaves, delimiter)
  {
    assert |s + t| == |s| + |t|;
    assert Fits(s + t, k) <==> Fits(s, k) && Fits(t, k);
    if a.issues == c.issues {
      assert |a.issues| == |b.issues| == |c.issues|;
      assert a.issues == b.issues && b.issues == c.issues;
      ListsBoth(a.entries, b.entries, c.entries, s, t, leaves, delimiter);
    }
  }

  lemma ListsBoth(
    a: seq<Entry>, b: seq<Entry>, c: seq<Entry>, s: set<Path>, t: set<Path>, leaves: map<Path, Text>, delimiter: Text)
    requires a <= b <= c && s !! t
    requires Lists(b, |a|, s, leaves, delimiter) && Lists(c, |b|, t, leaves, delimiter)
    ensures Lists(c, |a|, s + t, leaves, delimiter)
  {
    assert |s + t| == |s| + |t|;
    forall l | l in s + t ensures Listed(c, |a|, l, leaves, delimiter) {
      if l in s {
        assert Listed(b, |a|, l, leaves, delimiter);
        var i :| |a| <= i < |b| && EntryOf(b[i], l, leaves, delimiter);
        assert c[i] == b[i];
      } else {
        assert Listed(c, |b|, l, leaves, delimiter);
      }
    }
  }

  lemma CoversIssue(a: State, b: State, paths: set<Path>, k: nat, leaves: map<Path, Text>, delimiter: Text,
                    path: Text, code: IssueCode)
    requires |a.entries| <= MAX_ENTRIES && b == WithIssue(a, path, code) && !Fits(paths, k)
    ensures Covers(a, b, paths, k, leaves, delimiter)
  {
  }

  lemma CoversShallower(a: State, b: State, paths: set<Path>, p: Path, name: Text, leaves: map<Path, Text>,
                        delimiter: Text)
    requires SegmentOk(name) && paths == Under(leaves, p + [name])
    requires Covers(a, b, paths, |p| + 1, leaves, delimiter)
    ensures Covers(a, b, paths, |p|, leaves, delimiter)
  {
    forall l | l in paths ensures |l| > |p| && l[|p|] == name {
      assert l[|p|] == (p + [name])[|p|];
    }
    assert Fits(paths, |p| + 1) ==> Fits(paths, |p|);
  }

  lemma CoversLeaf(a: State, p: Path, path: Text, leaves: map<Path, Text>, delimiter: Text)
    requires p in leaves && |p| <= MAX_DEPTH && Fresh(a, {p}, delimiter)
    ensures Covers(a, VisitLeaf(a, leaves[p], p, path, delimiter), {p}, |p|, leaves, delimiter)
  {
    var b := VisitLeaf(a, leaves[p], p, path, delimiter);
    if |a.entries| < MAX_ENTRIES {
      assert EntryOf(b.entries[|a.entries|], p, leaves, delimiter);
    }
  }

  lemma {:induction false} TreeHasLeaf(d: Json, p: Path, leaves: map<Path, Text>) returns (l: Path)
    requires IsTree(d, p, leaves) && p != []
    ensures l in leaves && p <= l && (d.Object? ==> p < l)
    decreases d
  {
    l := p;
    if d.Object? {
      l := TreeHasLeaf(d.fields[0].child, p + [d.fields[0].name], leaves);
    }
  }

  lemma ObjectFacts(d: Json, p: Path, leaves: map<Path, Text>)
    requires IsTree(d, p, leaves) && d.Object?
    ensures p !in leaves && DistinctNames(d.fields)
    ensures forall l :: l in leaves && p < l ==> exists i :: 0 <= i < |d.fields| && d.fields[i].name == l[|p|]
    ensures forall i :: 0 <= i < |d.fields| ==> IsTree(d.fields[i].child, p + [d.fields[i].name], leaves)
  {
  }

  lemma UnderObject(d: Json, p: Path, leaves: map<Path, Text>)
    requires IsTree(d, p, leaves) && d.Object?
    ensures Under(leaves, p) == UnderFields(leaves, p, d.fields, |d.fields|)
  {
    ObjectFacts(d, p, leaves);
    hide IsTree, DistinctNames;
    forall l | l in Under(leaves, p) ensures l in UnderFields(leaves, p, d.fields, |d.fields|) {
      assert l != p && p < l;
      var i :| 0 <= i < |d.fields| && d.fields[i].name == l[|p|];
      assert p + [d.fields[i].name] <= l;
    }
    forall l | l in UnderFields(leaves, p, d.fields, |d.fields|) ensures l in Under(leaves, p) {
      var i :| 0 <= i < |d.fields| && p + [d.fields[i].name] <= l;
      assert p == l[..|p|];
    }
  }

  lemma UnderNextField(fields: seq<Field>, p: Path, leaves: map<Path, Text>, n: nat)
    requires DistinctNames(fields) && 0 < n <= |fields|
    ensures UnderFields(leaves, p, fields, n)
         == UnderFields(leaves, p, fields, n - 1) + Under(leaves, p + [fields[n - 1].name])
    ensures UnderFields(leaves, p, fields, n - 1) !! Under(leaves, p + [fields[n - 1].name])
    ensures UnderFields(leaves, p, fields, n) <= Under(leaves, p)
  {
    forall l | l in leaves && InSomeField(l, p, fields, n) ensures p <= l {
      var i :| 0 <= i < n && p + [fields[i].name] <= l;
      assert p == l[..|p|];
    }
    var earlier := UnderFields(leaves, p, fields, n - 1);
    forall l | l in earlier ensures l !in Under(leaves, p + [fields[n - 1].name]) {
      var i :| 0 <= i < n - 1 && p + [fields[i].name] <= l;
      assert l[|p|] == fields[i].name != fields[n - 1].name;
    }
  }

  lemma {:induction false} VisitCovers(st: State, d: Json, p: Path, path: Text, leaves: map<Path, Text>, delimiter: Text)
    requires IsTree(d, p, leaves) && PrefixFree(leaves) && UniqueJoins(leaves, delimiter)
    requires Fresh(st, Under(leaves, p), delimiter)
    ensures Covers(st, Visit(st, d, p, path, delimiter), Under(leaves, p), |p|, leaves, delimiter)
    decreases d, if d.Object? then |d.fields| + 1 else 0
  {
    if |p| > MAX_DEPTH {
      var l := TreeHasLeaf(d, p, leaves);
      assert l in Under(leaves, p);
    } else if d.Object? {
      UnderObject(d, p, leaves);
      FieldsCover(st, d, |d.fields|, p, path, leaves, delimiter);
    } else {
      assert Under(leaves, p) == {p} by {
        assert forall l :: l in leaves && p <= l ==> l == p;
      }
      CoversLeaf(st, p, path, leaves, delimiter);
    }
  }

  /** The leaves of a field are still fresh after the fields before it. */
  lemma StillFresh(
    a: State, b: State, done: set<Path>, here: set<Path>, all: set<Path>, k: nat, leaves: map<Path, Text>,
    delimiter: Text)
    requires Fresh(a, all, delimiter) && here <= all && all <= leaves.Keys && done !! here && done <= all
    requires UniqueJoins(leaves, delimiter) && Covers(a, b, done, k, leaves, delimiter)
    ensures Fresh(b, here, delimiter)
  {
  }

  lemma FieldCovers(a: State, b: State, f: Field, p: Path, childPath: Text, leaves: map<Path, Text>, delimiter: Text)
    requires IsTree(f.child, p + [f.name], leaves)
    requires if SegmentOk(f.name) then Covers(a, b, Under(leaves, p + [f.name]), |p| + 1, leaves, delimiter)
             else |a.entries| <= MAX_ENTRIES && b == WithIssue(a, childPath, InvalidKey)
    ensures Covers(a, b, Under(leaves, p + [f.name]), |p|, leaves, delimiter)
  {
    var q := p + [f.name];
    if SegmentOk(f.name) {
      CoversShallower(a, b, Under(leaves, q), p, f.name, leaves, delimiter);
    } else {
      var l := TreeHasLeaf(f.child, q, leaves);
      assert l in Under(leaves, q) && l[|p|] == q[|p|] == f.name;
      CoversIssue(a, b, Under(leaves, q), |p|, leaves, delimiter, childPath, InvalidKey);
    }
  }

  lemma FreshHasRoom(st: State, paths: set<Path>, delimiter: Text)
    requires Fresh(st, paths, delimiter)
    ensures |st.entries| <= MAX_ENTRIES
  {
  }

  lemma {:induction false} FieldsCover(
    st: State, d: Json, n: nat, p: Path, path: Text, leaves: map<Path, Text>, delimiter: Text)
    requires IsTree(d, p, leaves) && PrefixFree(leaves) && UniqueJoins(leaves, delimiter)
    requires d.Object? && n <= |d.fields| && Fresh(st, Under(leaves, p), delimiter)
    ensures Covers(st, VisitFields(st, d, n, p, path, delimiter), UnderFields(leaves, p, d.fields, n), |p|, leaves,
                   delimiter)
    decreases d, n
  {
    hide Covers, PrefixFree, UniqueJoins, Fresh, Visit, SegmentOk, ChildPath;
    if n == 0 {
      assert |st.entries| <= MAX_ENTRIES by { FreshHasRoom(st, Under(leaves, p), delimiter); }
      CoversNothing(st, |p|, leaves, delimiter);
      assert UnderFields(leaves, p, d.fields, 0) == {};
    } else {
      ObjectFacts(d, p, leaves);
      VisitNextField(st, d, n, p, path, delimiter);
      UnderNextField(d.fields, p, leaves, n);
      UnderIsPart(leaves, p);
      hide IsTree, VisitFields, UnderFields, Under, DistinctNames;
      var before, after := VisitFields(st, d, n - 1, p, path, delimiter), VisitFields(st, d, n, p, path, delimiter);
      var f := d.fields[n - 1];
      var q := p + [f.name];
      FieldsCover(st, d, n - 1, p, path, leaves, delimiter);
      var done, here := UnderFields(leaves, p, d.fields, n - 1), Under(leaves, q);
      StillFresh(st, before, done, here, Under(leaves, p), |p|, leaves, delimiter);
      if SegmentOk(f.name) {
        VisitCovers(before, f.child, q, ChildPath(path, f.name), leaves, delimiter);
      } else {
        FreshHasRoom(before, here, delimiter);
      }
      FieldCovers(before, after, f, p, ChildPath(path, f.name), leaves, delimiter);
      CoversBoth(st, before, after, done, here, |p|, leaves, delimiter);
    }
  }

  lemma UnderIsPart(leaves: map<Path, Text>, p: Path)
    ensures Under(leaves, p) <= leaves.Keys
  {
  }

  lemma VisitNextField(st: State, d: Json, n: nat, p: Path, path: Text, delimiter: Text)
    requires d.Object? && 0 < n <= |d.fields|
    ensures var before, f := VisitFields(st, d, n - 1, p, path, delimiter), d.fields[n - 1];
            VisitFields(st, d, n, p, path, delimiter) ==
            if !SegmentOk(f.name) then WithIssue(before, ChildPath(path, f.name), InvalidKey)
            else Visit(before, f.child, p + [f.name], ChildPath(path, f.name), delimiter)
  {
    hide Visit;
  }

  lemma {:induction false} ForbiddenInJoin(parts: seq<Text>, delimiter: Text)
    requires NoForbidden(delimiter)
    ensures NoForbidden(Join(parts, delimiter)) <==> forall j :: 0 <= j < |parts| ==> NoForbidden(parts[j])
  {
    if |parts| > 1 {
      var rest := Join(parts[1..], delimiter);
      ForbiddenInJoin(parts[1..], delimiter);
      ForbiddenInConcat(parts[0], delimiter);
      ForbiddenInConcat(parts[0] + delimiter, rest);
      assert (forall j :: 0 <= j < |parts| ==> NoForbidden(parts[j]))
        <==> NoForbidden(parts[0]) && forall j :: 0 <= j < |parts[1..]| ==> NoForbidden(parts[1..][j]);
    }
  }

  lemma ForbiddenInConcat(a: Text, b: Text)
    ensures NoForbidden(a + b) <==> NoForbidden(a) && NoForbidden(b)
  {
    if NoForbidden(a + b) {
      forall i | 0 <= i < |a| ensures !IsForbidden(a[i]) { assert (a + b)[i] == a[i]; }
      forall i | 0 <= i < |b| ensures !IsForbidden(b[i]) { assert (a + b)[|a| + i] == b[i]; }
    }
  }

  /** What the import demands of the exported keys beyond being storable. */
  ghost predicate Importable(secrets: seq<Secret>, delimiter: Text) {
    && DelimiterOk(delimiter) && |secrets| <= MAX_ENTRIES
    && forall i :: 0 <= i < |secrets| ==> |Split(secrets[i].key, delimiter)| <= MAX_DEPTH && NoForbidden(secrets[i].key)
  }

  lemma {:induction false} LeafCount(secrets: seq<Secret>, delimiter: Text)
    requires delimiter != [] && DistinctKeys(secrets)
    ensures |LeavesOf(secrets, delimiter)| == |secrets|
  {
    if secrets != [] {
      var n := |secrets| - 1;
      LeafCount(secrets[..n], delimiter);
      var path := Split(secrets[n].key, delimiter);
      if path in LeavesOf(secrets[..n], delimiter) {
        var i := SecretOfLeaf(secrets[..n], delimiter, path);
        SplitInjective(secrets[i].key, secrets[n].key, delimiter);
      }
    }
  }

  lemma FitsMeansImportable(secrets: seq<Secret>, delimiter: Text)
    requires DelimiterOk(delimiter) && DistinctKeys(secrets) && Storable(secrets, delimiter)
    ensures var paths := LeavesOf(secrets, delimiter).Keys;
            Fits(paths, 0) && |paths| <= MAX_ENTRIES <==> Importable(secrets, delimiter)
  {
    var leaves := LeavesOf(secrets, delimiter);
    LeafCount(secrets, delimiter);
    assert |leaves.Keys| == |leaves|;
    forall i | 0 <= i < |secrets|
      ensures Split(secrets[i].key, delimiter) in leaves
      ensures var segments := Split(secrets[i].key, delimiter);
              NoForbidden(secrets[i].key) <==> forall j :: 0 <= j < |segments| ==> SegmentOk(segments[j])
    {
      LeafOfSecret(secrets, delimiter, i);
      JoinOfSplit(secrets[i].key, delimiter);
      ForbiddenInJoin(Split(secrets[i].key, delimiter), delimiter);
    }
    forall l | l in leaves ensures exists i :: 0 <= i < |secrets| && l == Split(secrets[i].key, delimiter) {
      var i := SecretOfLeaf(secrets, delimiter, l);
    }
  }

  ghost predicate Contains(entries: seq<Entry>, secret: Secret) {
    exists j :: 0 <= j < |entries| && entries[j].key == secret.key && entries[j].value == secret.value
  }

  /**
    The nested round trip: flattening the printed tree raises no issue exactly when the keys are importable,
    and then yields one entry for each secret, with its key and its value.
   */
  lemma NestedRoundTrip(secrets: seq<Secret>, delimiter: Text, nodes: map<Path, Node>, document: Json)
    requires DistinctKeys(secrets) && delimiter != [] && Storable(secrets, delimiter)
    requires Indexed(nodes, LeavesOf(secrets, delimiter)) && [] in nodes
    requires Shows(nodes[[]], document, nodes.Values)
    ensures Import(Some(document), delimiter).issues == [] <==> Importable(secrets, delimiter)
    ensures Import(Some(document), delimiter).issues == [] ==>
              |Import(Some(document), delimiter).entries| == |secrets|
              && forall i :: 0 <= i < |secrets| ==> Contains(Import(Some(document), delimiter).entries, secrets[i])
  {
    hide IsTree, UniqueJoins, Import, Covers, Fits, Lists, Importable, Storable, Contains, DistinctKeys, Linked, LeavesOf;
    if DelimiterOk(delimiter) {
      var leaves := LeavesOf(secrets, delimiter);
      ShownIsTree(nodes, leaves, [], document);
      LeavesArePrefixFree(nodes, leaves);
      JoinsAreUnique(secrets, delimiter);
      ImportCovers(document, leaves, delimiter);
      FitsMeansImportable(secrets, delimiter);
      LeafCount(secrets, delimiter);
      CoveredImport(Import(Some(document), delimiter), leaves, delimiter);
      if Import(Some(document), delimiter).issues == [] {
        SecretsAreContained(Import(Some(document), delimiter), secrets, delimiter);
      }
    } else {
      BadDelimiterIsIssue(document, secrets, delimiter);
    }
  }

  lemma BadDelimiterIsIssue(document: Json, secrets: seq<Secret>, delimiter: Text)
    requires !DelimiterOk(delimiter) && delimiter != []
    ensures Import(Some(document), delimiter).issues != [] && !Importable(secrets, delimiter)
  {
  }

  /** The walk from the empty state covers all leaves. */
  lemma ImportCovers(document: Json, leaves: map<Path, Text>, delimiter: Text)
    requires DelimiterOk(delimiter) && IsTree(document, [], leaves) && PrefixFree(leaves)
    requires UniqueJoins(leaves, delimiter)
    requires document.Object?
    ensures Covers(State([], [], {}), Import(Some(document), delimiter), leaves.Keys, 0, leaves, delimiter)
  {
    hide IsTree, PrefixFree, UniqueJoins, Visit, Covers;
    assert Under(leaves, []) == leaves.Keys;
    VisitCovers(State([], [], {}), document, [], [0x24], leaves, delimiter);
  }

  lemma CoveredImport(after: State, leaves: map<Path, Text>, delimiter: Text)
    requires Covers(State([], [], {}), after, leaves.Keys, 0, leaves, delimiter)
    ensures after.issues == [] <==> Fits(leaves.Keys, 0) && |leaves.Keys| <= MAX_ENTRIES
    ensures after.issues == [] ==> Lists(after.entries, 0, leaves.Keys, leaves, delimiter) && |after.entries| == |leaves|
  {
    hide Fits, Listed;
    assert |leaves.Keys| == |leaves|;
  }

  lemma SecretsAreContained(after: State, secrets: seq<Secret>, delimiter: Text)
    requires delimiter != [] && DistinctKeys(secrets)
    requires Lists(after.entries, 0, LeavesOf(secrets, delimiter).Keys, LeavesOf(secrets, delimiter), delimiter)
    ensures forall i :: 0 <= i < |secrets| ==> Contains(after.entries, secrets[i])
  {
    hide DistinctKeys, LeavesOf, Split, Join;
    forall i | 0 <= i < |secrets| ensures Contains(after.entries, secrets[i]) {
      LeafOfSecret(secrets, delimiter, i);
      JoinOfSplit(secrets[i].key, delimiter);
      assert Listed(after.entries, 0, Split(secrets[i].key, delimiter), LeavesOf(secrets, delimiter), delimiter);
    }
  }

  lemma JoinsAreUnique(secrets: seq<Secret>, delimiter: Text)
    requires delimiter != []
    ensures UniqueJoins(LeavesOf(secrets, delimiter), delimiter)
  {
    var leaves := LeavesOf(secrets, delimiter);
    forall l | l in leaves ensures Split(Join(l, delimiter), delimiter) == l {
      var i := SecretOfLeaf(secrets, delimiter, l);
      JoinOfSplit(secrets[i].key, delimiter);
    }
  }
}
