/** The nested JSON branch of serializeSecretExport: a tree on the heap, filled through a cursor. */
module NestedExport {
  import opened Wrappers
  import opened Strings
  import opened LineExport

  type Path = seq<Text>

  datatype Slot = Leaf(value: Text) | Child(node: Node)

  class Node {
    var fields: map<Text, Slot>

    constructor ()
      ensures fields == map[]
    {
      fields := map[];
    }
  }

  datatype NestedError = BadDelimiter | EmptySegment(key: Text) | PathConflict(key: Text)

  function Init(q: Path): Path
    requires q != []
  {
    q[..|q| - 1]
  }

  function Last(q: Path): Text
    requires q != []
  {
    q[|q| - 1]
  }

  /** What the indexed nodes hold. */
  type Shape = map<Path, map<Text, Slot>>

  ghost function ShapeOf(nodes: map<Path, Node>): (shape: Shape)
    reads nodes.Values
    ensures shape.Keys == nodes.Keys
  {
    map p | p in nodes :: nodes[p].fields
  }

  function SlotAt(shape: Shape, q: Path): Option<Slot> {
    if q != [] && Init(q) in shape && Last(q) in shape[Init(q)] then Some(shape[Init(q)][Last(q)]) else None
  }

  function Expected(nodes: map<Path, Node>, leaves: map<Path, Text>, q: Path): Option<Slot> {
    if q != [] && q in nodes then Some(Child(nodes[q]))
    else if q in leaves then Some(Leaf(leaves[q]))
    else None
  }

  /** The nodes, indexed by their paths, link up to a tree whose leaves are exactly the given ones. */
  ghost predicate Linked(nodes: map<Path, Node>, shape: Shape, leaves: map<Path, Text>) {
    && nodes.Keys == shape.Keys && [] in nodes && nodes.Keys !! leaves.Keys
    && (forall p, q :: p in nodes && q in nodes && nodes[p] == nodes[q] ==> p == q)
    && (forall q :: SlotAt(shape, q) == Expected(nodes, leaves, q))
  }

  /** Every inner node lies on the way to a leaf. */
  ghost predicate Grounded(paths: set<Path>, leaves: set<Path>) {
    forall q :: q in paths && q != [] ==> exists l :: l in leaves && q < l
  }

  ghost predicate Indexed(nodes: map<Path, Node>, leaves: map<Path, Text>)
    reads nodes.Values
  {
    Linked(nodes, ShapeOf(nodes), leaves) && Grounded(nodes.Keys, leaves.Keys)
  }

  lemma InitLast(here: Path, s: Text)
    ensures Init(here + [s]) == here && Last(here + [s]) == s
    ensures forall q: Path :: q != [] && Init(q) == here && Last(q) == s ==> q == here + [s]
  {
    forall q: Path | q != [] && Init(q) == here && Last(q) == s ensures q == here + [s] {
      assert q == Init(q) + [Last(q)];
    }
  }

  lemma LinkChild(nodes: map<Path, Node>, shape: Shape, leaves: map<Path, Text>, here: Path, s: Text, child: Node)
    requires Linked(nodes, shape, leaves)
    requires here in nodes && s !in shape[here] && child !in nodes.Values
    ensures Linked(nodes[here + [s] := child],
                   shape[here := shape[here][s := Child(child)]][here + [s] := map[]], leaves)
  {
    InitLast(here, s);
    var next := here + [s];
    var nodes', shape' := nodes[next := child], shape[here := shape[here][s := Child(child)]][next := map[]];
    assert SlotAt(shape, next) == None;
    forall q ensures SlotAt(shape', q) == Expected(nodes', leaves, q) {
      assert SlotAt(shape, q) == Expected(nodes, leaves, q);
    }
  }

  lemma LinkLeaf(nodes: map<Path, Node>, shape: Shape, leaves: map<Path, Text>, here: Path, s: Text, value: Text)
    requires Linked(nodes, shape, leaves)
    requires here in nodes && s !in shape[here]
    ensures Linked(nodes, shape[here := shape[here][s := Leaf(value)]], leaves[here + [s] := value])
  {
    InitLast(here, s);
    var next := here + [s];
    var shape', leaves' := shape[here := shape[here][s := Leaf(value)]], leaves[next := value];
    assert SlotAt(shape, next) == None;
    forall q ensures SlotAt(shape', q) == Expected(nodes, leaves', q) {
      assert SlotAt(shape, q) == Expected(nodes, leaves, q);
    }
  }

  /** What the slot of a segment says about the path it ends. */
  lemma SlotTells(nodes: map<Path, Node>, shape: Shape, leaves: map<Path, Text>, here: Path, s: Text)
    requires Linked(nodes, shape, leaves) && here in nodes
    ensures s !in shape[here] ==> here + [s] !in nodes && here + [s] !in leaves
    ensures s in shape[here] && shape[here][s].Child? ==>
              here + [s] in nodes && nodes[here + [s]] == shape[here][s].node && here + [s] !in leaves
    ensures nodes.Keys == shape.Keys && forall q :: q in nodes && nodes[q] == nodes[here] ==> q == here
    ensures s in shape[here] && shape[here][s].Leaf? ==> here + [s] !in nodes && here + [s] in leaves
  {
    InitLast(here, s);
    assert SlotAt(shape, here + [s]) == Expected(nodes, leaves, here + [s]);
  }

  /** One step of the cursor: into the child of that name, made on demand; a string in the way stops it. */
  method Descend(cursor: Node, segment: Text, ghost here: Path, ghost nodes: map<Path, Node>,
                 ghost leaves: map<Path, Text>)
    returns (child: Option<Node>, ghost nodes': map<Path, Node>)
    requires Linked(nodes, ShapeOf(nodes), leaves) && here in nodes && nodes[here] == cursor
    modifies cursor
    ensures child == None <==> here + [segment] in leaves
    ensures Linked(nodes', ShapeOf(nodes'), leaves)
    ensures child == None ==> nodes' == nodes
    ensures child.Some? ==> nodes' == nodes[here + [segment] := child.value]
    ensures child.Some? && here + [segment] in nodes ==> nodes[here + [segment]] == child.value
    ensures child.Some? && here + [segment] !in nodes ==> fresh(child.value)
  {
    ghost var shape, next := ShapeOf(nodes), here + [segment];
    SlotTells(nodes, shape, leaves, here, segment);
    if segment !in cursor.fields {
      var node := new Node();
      LinkChild(nodes, shape, leaves, here, segment, node);
      cursor.fields := cursor.fields[segment := Child(node)];
      nodes' := nodes[next := node];
      assert ShapeOf(nodes') == shape[here := shape[here][segment := Child(node)]][next := map[]];
      return Some(node), nodes';
    } else if cursor.fields[segment].Child? {
      assert nodes[next := cursor.fields[segment].node] == nodes;
      return Some(cursor.fields[segment].node), nodes;
    } else {
      return None, nodes;
    }
  }

  /** The cursor's way down to the parent of the last segment. */
  method Walk(root: Node, path: Path, ghost nodes: map<Path, Node>, ghost leaves: map<Path, Text>)
    returns (cursor: Option<Node>, ghost nodes': map<Path, Node>)
    requires path != [] && Linked(nodes, ShapeOf(nodes), leaves) && [] in nodes && nodes[[]] == root
    modifies nodes.Values
    ensures Linked(nodes', ShapeOf(nodes'), leaves) && [] in nodes' && nodes'[[]] == root
    ensures forall q :: q in nodes' ==> q in nodes || q < path
    ensures path in nodes ==> path in nodes'
    ensures fresh(nodes'.Values - nodes.Values)
    ensures cursor == None ==> exists k :: 0 < k < |path| && path[..k] in leaves
    ensures cursor.Some? ==> Init(path) in nodes' && nodes'[Init(path)] == cursor.value
    ensures cursor.Some? ==> forall k :: 0 < k < |path| ==> path[..k] !in leaves
  {
    hide Linked, ShapeOf;
    var at := root;
    nodes' := nodes;
    var index := 0;
    assert path[..0] == [];
    while index < |path| - 1
      invariant 0 <= index < |path|
      invariant Linked(nodes', ShapeOf(nodes'), leaves) && [] in nodes' && nodes'[[]] == root
      invariant forall q :: q in nodes' ==> q in nodes || q < path
      invariant path in nodes ==> path in nodes'
      invariant path[..index] in nodes' && at == nodes'[path[..index]]
      invariant forall k :: 0 < k <= index ==> path[..k] !in leaves
      invariant fresh(nodes'.Values - nodes.Values)
    {
      ghost var here, next := path[..index], path[..index + 1];
      assert next == here + [path[index]] && next < path;
      var child;
      child, nodes' := Descend(at, path[index], here, nodes', leaves);
      if child == None {
        return None, nodes';
      }
      at := child.value;
      index := index + 1;
    }
    return Some(at), nodes';
  }

  lemma GroundLeaf(paths: set<Path>, paths': set<Path>, leaves: set<Path>, path: Path)
    requires Grounded(paths, leaves) && forall q :: q in paths' ==> q in paths || q < path
    ensures Grounded(paths', leaves + {path})
  {
  }

  /** One secret: walk the cursor down, then set the last segment. */
  method Insert(root: Node, path: Path, value: Text, ghost nodes: map<Path, Node>, ghost leaves: map<Path, Text>)
    returns (ok: bool, ghost nodes': map<Path, Node>)
    requires path != [] && Indexed(nodes, leaves) && [] in nodes && nodes[[]] == root
    modifies nodes.Values
    ensures ok <==> path !in leaves && path !in nodes && forall k :: 0 < k < |path| ==> path[..k] !in leaves
    ensures ok ==> Indexed(nodes', leaves[path := value]) && [] in nodes' && nodes'[[]] == root
    ensures fresh(nodes'.Values - nodes.Values)
  {
    hide Linked, Grounded;
    var cursor;
    cursor, nodes' := Walk(root, path, nodes, leaves);
    if cursor == None {
      return false, nodes';
    }
    var segment := Last(path);
    ghost var shape := ShapeOf(nodes');
    assert path == Init(path) + [segment];
    SlotTells(nodes', shape, leaves, Init(path), segment);
    if segment in cursor.value.fields {
      return false, nodes';
    }
    LinkLeaf(nodes', shape, leaves, Init(path), segment, value);
    cursor.value.fields := cursor.value.fields[segment := Leaf(value)];
    assert ShapeOf(nodes') == shape[Init(path) := shape[Init(path)][segment := Leaf(value)]];
    GroundLeaf(nodes.Keys, nodes'.Keys, leaves.Keys, path);
    assert leaves[path := value].Keys == leaves.Keys + {path};
    return true, nodes';
  }

  /** The leaf each secret asks for. */
  function LeavesOf(secrets: seq<Secret>, delimiter: Text): map<Path, Text>
    requires delimiter != []
  {
    if secrets == [] then map[]
    else
      var last := secrets[|secrets| - 1];
      LeavesOf(secrets[..|secrets| - 1], delimiter)[Split(last.key, delimiter) := last.value]
  }

  predicate HasEmptySegment(path: Path) { [] in path }

  /** The exact condition for the export to succeed; it does not mention the order of the secrets. */
  ghost predicate Storable(secrets: seq<Secret>, delimiter: Text)
    requires delimiter != []
  {
    && (forall i :: 0 <= i < |secrets| ==> !HasEmptySegment(Split(secrets[i].key, delimiter)))
    && (forall i, j :: 0 <= i < |secrets| && 0 <= j < |secrets| ==>
          !(Split(secrets[i].key, delimiter) < Split(secrets[j].key, delimiter)))
  }

  lemma {:induction false} LeafOfSecret(secrets: seq<Secret>, delimiter: Text, i: nat)
    requires delimiter != [] && DistinctKeys(secrets) && i < |secrets|
    ensures Split(secrets[i].key, delimiter) in LeavesOf(secrets, delimiter)
    ensures LeavesOf(secrets, delimiter)[Split(secrets[i].key, delimiter)] == secrets[i].value
  {
    var n := |secrets| - 1;
    if i < n {
      LeafOfSecret(secrets[..n], delimiter, i);
      SplitInjective(secrets[i].key, secrets[n].key, delimiter);
    }
  }

  lemma {:induction false} SecretOfLeaf(secrets: seq<Secret>, delimiter: Text, l: Path) returns (i: nat)
    requires delimiter != [] && l in LeavesOf(secrets, delimiter)
    ensures i < |secrets| && l == Split(secrets[i].key, delimiter)
  {
    i := |secrets| - 1;
    if l != Split(secrets[i].key, delimiter) {
      i := SecretOfLeaf(secrets[..i], delimiter, l);
    }
  }

  lemma SplitInjective(a: Text, b: Text, delimiter: Text)
    requires delimiter != [] && a != b
    ensures Split(a, delimiter) != Split(b, delimiter)
  {
    JoinOfSplit(a, delimiter);
    JoinOfSplit(b, delimiter);
  }

  lemma {:induction false} PrefixIsNode(nodes: map<Path, Node>, shape: Shape, leaves: map<Path, Text>, q: Path, k: nat)
    requires Linked(nodes, shape, leaves) && k < |q| && (q in leaves || q in nodes)
    ensures q[..k] in nodes
    decreases |q|
  {
    assert SlotAt(shape, q) == Expected(nodes, leaves, q);
    if k < |q| - 1 {
      PrefixIsNode(nodes, shape, leaves, Init(q), k);
      assert Init(q)[..k] == q[..k];
    }
  }

  lemma LeavesArePrefixFree(nodes: map<Path, Node>, leaves: map<Path, Text>)
    requires Indexed(nodes, leaves)
    ensures forall l, m :: l in leaves && m in leaves ==> !(l < m)
  {
    forall l, m | l in leaves && m in leaves ensures !(l < m) {
      if l < m {
        assert m[..|l|] == l;
        PrefixIsNode(nodes, ShapeOf(nodes), leaves, m, |l|);
      }
    }
  }

  ghost predicate Conflicts(secrets: seq<Secret>, delimiter: Text, key: Text)
    requires delimiter != []
  {
    exists i :: 0 <= i < |secrets|
             && var other := Split(secrets[i].key, delimiter);
                other < Split(key, delimiter) || Split(key, delimiter) < other
  }

  /** A failed insertion has found a secret whose path is a proper prefix of this one, or the reverse. */
  lemma FailureIsConflict(
    secrets: seq<Secret>, delimiter: Text, key: Text, nodes: map<Path, Node>, leaves: map<Path, Text>)
    requires delimiter != [] && leaves == LeavesOf(secrets, delimiter) && Indexed(nodes, leaves)
    requires forall i :: 0 <= i < |secrets| ==> secrets[i].key != key
    requires var path := Split(key, delimiter);
             path in leaves || path in nodes || exists k :: 0 < k < |path| && path[..k] in leaves
    ensures Conflicts(secrets, delimiter, key)
  {
    var path := Split(key, delimiter);
    var l: Path;
    if path in leaves {
      var i := SecretOfLeaf(secrets, delimiter, path);
      SplitInjective(secrets[i].key, key, delimiter);
      l := path;
    } else if path in nodes {
      l :| l in leaves && path < l;
    } else {
      var k :| 0 < k < |path| && path[..k] in leaves;
      l := path[..k];
    }
    var i := SecretOfLeaf(secrets, delimiter, l);
  }

  lemma TreeIsStorable(secrets: seq<Secret>, delimiter: Text, nodes: map<Path, Node>)
    requires delimiter != [] && DistinctKeys(secrets) && Indexed(nodes, LeavesOf(secrets, delimiter))
    requires forall i :: 0 <= i < |secrets| ==> !HasEmptySegment(Split(secrets[i].key, delimiter))
    ensures Storable(secrets, delimiter)
  {
    LeavesArePrefixFree(nodes, LeavesOf(secrets, delimiter));
    forall i | 0 <= i < |secrets| ensures Split(secrets[i].key, delimiter) in LeavesOf(secrets, delimiter) {
      LeafOfSecret(secrets, delimiter, i);
    }
  }

  ghost predicate Explains(error: NestedError, secrets: seq<Secret>, delimiter: Text)
    requires delimiter != []
  {
    match error
    case BadDelimiter => false
    case EmptySegment(key) =>
      HasEmptySegment(Split(key, delimiter)) && exists i :: 0 <= i < |secrets| && secrets[i].key == key
    case PathConflict(key) =>
      Conflicts(secrets, delimiter, key) && exists i :: 0 <= i < |secrets| && secrets[i].key == key
  }

  /** The body of the loop over the entries. */
  method Place(root: Node, secret: Secret, delimiter: Text, ghost placed: seq<Secret>, ghost nodes: map<Path, Node>)
    returns (error: Option<NestedError>, ghost nodes': map<Path, Node>)
    requires delimiter != [] && [] in nodes && nodes[[]] == root && Indexed(nodes, LeavesOf(placed, delimiter))
    requires DistinctKeys(placed + [secret])
    modifies nodes.Values
    ensures error == None ==> !HasEmptySegment(Split(secret.key, delimiter))
    ensures error == None ==> [] in nodes' && nodes'[[]] == root && Indexed(nodes', LeavesOf(placed + [secret], delimiter))
    ensures error.Some? ==> Explains(error.value, placed + [secret], delimiter)
    ensures fresh(nodes'.Values - nodes.Values)
  {
    hide Linked, Indexed;
    ghost var all := placed + [secret];
    assert all[..|placed|] == placed && all[|placed|] == secret;
    var path := Split(secret.key, delimiter);
    if HasEmptySegment(path) {
      return Some(EmptySegment(secret.key)), nodes;
    }
    ghost var leaves := LeavesOf(placed, delimiter);
    if path in leaves || path in nodes || exists k :: 0 < k < |path| && path[..k] in leaves {
      forall i | 0 <= i < |placed| ensures placed[i].key != secret.key {
        assert all[i] == placed[i];
      }
      FailureIsConflict(placed, delimiter, secret.key, nodes, leaves);
      ConflictsMore(placed, secret, delimiter, secret.key);
    }
    var ok;
    ok, nodes' := Insert(root, path, secret.value, nodes, leaves);
    return if ok then None else Some(PathConflict(secret.key)), nodes';
  }

  lemma ConflictsMore(placed: seq<Secret>, secret: Secret, delimiter: Text, key: Text)
    requires delimiter != [] && Conflicts(placed, delimiter, key)
    ensures Conflicts(placed + [secret], delimiter, key)
  {
    var i :| 0 <= i < |placed|
             && var other := Split(placed[i].key, delimiter);
                other < Split(key, delimiter) || Split(key, delimiter) < other;
    assert (placed + [secret])[i] == placed[i];
  }

  lemma ExplainedIsNotStorable(error: NestedError, some: seq<Secret>, secrets: seq<Secret>, delimiter: Text)
    requires delimiter != [] && some <= secrets && Explains(error, some, delimiter)
    ensures Explains(error, secrets, delimiter) && !Storable(secrets, delimiter)
  {
    var key := error.key;
    var i :| 0 <= i < |some| && some[i].key == key;
    assert secrets[i] == some[i];
    if error.PathConflict? {
      var j :| 0 <= j < |some|
               && var other := Split(some[j].key, delimiter);
                  other < Split(key, delimiter) || Split(key, delimiter) < other;
      assert secrets[j] == some[j];
    }
  }

  lemma EmptyTree(root: Node)
    requires root.fields == map[]
    ensures Indexed(map[[] := root], map[])
  {
  }

  /** The nested branch as a whole; exactly the storable records succeed. */
  method BuildTree(secrets: seq<Secret>, delimiter: Text)
    returns (r: Result<Node, NestedError>, ghost nodes: map<Path, Node>)
    requires DistinctKeys(secrets)
    ensures r.Ok? <==> 1 <= |delimiter| <= 10 && Storable(secrets, delimiter)
    ensures r.Ok? ==> [] in nodes && nodes[[]] == r.value && Indexed(nodes, LeavesOf(secrets, delimiter))
    ensures r.Err? ==> if 1 <= |delimiter| <= 10 then Explains(r.error, secrets, delimiter) else r.error == BadDelimiter
  {
    if |delimiter| < 1 || |delimiter| > 10 {
      return Err(BadDelimiter), map[];
    }
    var root := new Node();
    nodes := map[[] := root];
    EmptyTree(root);
    assert secrets[..0] == [] && LeavesOf(secrets[..0], delimiter) == map[];
    hide Linked, Indexed, Explains, Storable, LeavesOf;
    for i := 0 to |secrets|
      invariant [] in nodes && nodes[[]] == root && fresh(nodes.Values)
      invariant Indexed(nodes, LeavesOf(secrets[..i], delimiter))
      invariant forall j :: 0 <= j < i ==> !HasEmptySegment(Split(secrets[j].key, delimiter))
    {
      assert secrets[..i] + [secrets[i]] == secrets[..i + 1];
      var error;
      error, nodes := Place(root, secrets[i], delimiter, secrets[..i], nodes);
      if error.Some? {
        ExplainedIsNotStorable(error.value, secrets[..i + 1], secrets, delimiter);
        return Err(error.value), nodes;
      }
    }
    assert secrets[..|secrets|] == secrets;
    TreeIsStorable(secrets, delimiter, nodes);
    return Ok(root), nodes;
  }
}
