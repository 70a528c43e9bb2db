/** buildMatrix: the cells of the report, row by row and environment by environment. */
module ConsistencyMatrix {
  import opened Wrappers
  import opened Strings
  import opened Consistency
  import opened ConsistencyProperties

  /** A sorted list of keys is stated as the set it sorts. */
  datatype MatrixRow = MatrixRow(key: Text, keys: set<Text>, cells: seq<MatrixCell>)

  datatype MatrixCell = MatrixCell(state: CellState, secretId: Option<Id>)

  /** The secrets of a cell: case variants of its key in its environment. */
  predicate IsThere(rules: Rules, s: SecretValue, n: Text, e: Id) { rules.upper(s.key) == n && s.environmentId == e }

  /** The secret shown is one whose key sorts before no other's, or none if there is none. */
  ghost predicate IsShown(rules: Rules, secrets: seq<SecretValue>, n: Text, e: Id, shown: Option<SecretValue>) {
    && (shown == None ==> forall s :: s in secrets ==> !IsThere(rules, s, n, e))
    && (shown.Some? ==>
          && shown.value in secrets && IsThere(rules, shown.value, n, e)
          && forall s :: s in secrets && IsThere(rules, s, n, e) ==> !rules.before(s.key, shown.value.key))
  }

  ghost predicate IsCell(rules: Rules, secrets: seq<SecretValue>, findings: seq<Finding>, n: Text, e: Id,
                         cell: MatrixCell) {
    && cell.state == Cell(rules, secrets, findings, n, e)
    && exists shown ::
         && IsShown(rules, secrets, n, e, shown)
         && cell.secretId == if shown == None then None else Some(shown.value.secretId)
  }

  /** The cells of a row, environment by environment. */
  ghost predicate AreCells(rules: Rules, environments: seq<Id>, secrets: seq<SecretValue>, findings: seq<Finding>,
                           n: Text, cells: seq<MatrixCell>) {
    && |cells| == |environments|
    && forall i :: 0 <= i < |cells| ==> IsCell(rules, secrets, findings, n, environments[i], cells[i])
  }

  /** A row shows its only spelling, or the normalized key if there are several. */
  ghost predicate IsRow(rules: Rules, environments: seq<Id>, secrets: seq<SecretValue>, findings: seq<Finding>, n: Text,
                        row: MatrixRow) {
    && row.keys == KeysOf(rules, secrets, n) && AreCells(rules, environments, secrets, findings, n, row.cells)
    && (forall key :: row.keys == {key} ==> row.key == key) && (|row.keys| != 1 ==> row.key == n)
  }

  /** The groups by normalized key. */
  method GroupRows(rules: Rules, secrets: seq<SecretValue>) returns (groups: map<Text, seq<SecretValue>>)
    ensures IsGrouping(rules, groups, secrets)
  {
    groups := map[];
    for i := 0 to |secrets|
      invariant IsGrouping(rules, groups, secrets[..i])
    {
      hide IsGrouping;
      GroupingSnoc(rules, groups, secrets[..i], secrets[i]);
      assert secrets[..i] + [secrets[i]] == secrets[..i + 1];
      groups := AddToGroup(rules, groups, secrets[i]);
    }
    assert secrets[..|secrets|] == secrets;
  }

  /** The first of the group's secrets in the environment, in the order of their keys. */
  method FindShown(rules: Rules, group: seq<SecretValue>, n: Text, e: Id) returns (shown: Option<SecretValue>)
    requires IsOrder(rules) && forall s :: s in group ==> rules.upper(s.key) == n
    ensures IsShown(rules, group, n, e, shown)
  {
    shown := None;
    for i := 0 to |group|
      invariant IsShown(rules, group[..i], n, e, shown)
    {
      ghost var before := shown;
      if group[i].environmentId == e && (shown == None || rules.before(group[i].key, shown.value.key)) {
        shown := Some(group[i]);
      }
      ShownSnoc(rules, group[..i], group[i], n, e, before, shown);
      assert group[..i] + [group[i]] == group[..i + 1];
    }
    assert group[..|group|] == group;
  }

  lemma ShownSnoc(rules: Rules, some: seq<SecretValue>, s: SecretValue, n: Text, e: Id, before: Option<SecretValue>,
                  after: Option<SecretValue>)
    requires IsOrder(rules) && rules.upper(s.key) == n && IsShown(rules, some, n, e, before)
    requires after == if s.environmentId == e && (before == None || rules.before(s.key, before.value.key)) then Some(s)
                      else before
    ensures IsShown(rules, some + [s], n, e, after)
  {
  }

  /** One cell: the group is searched for the environment, then the reported empty cells for the pair. */
  method FillCell(rules: Rules, ghost secrets: seq<SecretValue>, ghost findings: seq<Finding>, n: Text,
                  group: seq<SecretValue>, e: Id, emptyCells: set<(Text, Id)>) returns (cell: MatrixCell)
    requires IsOrder(rules) && forall s :: s in group <==> s in secrets && rules.upper(s.key) == n
    requires emptyCells == EmptyCells(rules, findings)
    ensures IsCell(rules, secrets, findings, n, e, cell)
  {
    hide EmptyCells, IsOrder;
    var shown := FindShown(rules, group, n, e);
    assert IsShown(rules, secrets, n, e, shown);
    if shown == None {
      return MatrixCell(Missing, None);
    }
    assert shown.value in secrets;
    return MatrixCell(if (n, e) in emptyCells then Empty else Present, Some(shown.value.secretId));
  }

  /** A cell for each environment, in their order. */
  method FillCells(rules: Rules, ghost secrets: seq<SecretValue>, ghost findings: seq<Finding>, n: Text,
                   group: seq<SecretValue>, environments: seq<Id>, emptyCells: set<(Text, Id)>)
    returns (cells: seq<MatrixCell>)
    requires IsOrder(rules) && forall s :: s in group <==> s in secrets && rules.upper(s.key) == n
    requires emptyCells == EmptyCells(rules, findings)
    ensures AreCells(rules, environments, secrets, findings, n, cells)
  {
    hide EmptyCells, IsCell, IsOrder;
    cells := [];
    for i := 0 to |environments|
      invariant |cells| == i
      invariant forall j :: 0 <= j < i ==> IsCell(rules, secrets, findings, n, environments[j], cells[j])
    {
      var cell := FillCell(rules, secrets, findings, n, group, environments[i], emptyCells);
      cells := cells + [cell];
    }
  }

  method FillRow(rules: Rules, ghost secrets: seq<SecretValue>, ghost findings: seq<Finding>, n: Text,
                 group: seq<SecretValue>, environments: seq<Id>, emptyCells: set<(Text, Id)>)
    returns (row: MatrixRow)
    requires IsOrder(rules) && forall s :: s in group <==> s in secrets && rules.upper(s.key) == n
    requires emptyCells == EmptyCells(rules, findings)
    ensures IsRow(rules, environments, secrets, findings, n, row)
  {
    hide EmptyCells, AreCells, IsOrder;
    var keys := set s | s in group :: s.key;
    assert keys == KeysOf(rules, secrets, n);
    var key := n;
    if |keys| == 1 {
      key :| key in keys;
      OnlyOne(keys, key);
    }
    var cells := FillCells(rules, secrets, findings, n, group, environments, emptyCells);
    row := MatrixRow(key, keys, cells);
  }

  lemma OnlyOne(keys: set<Text>, key: Text)
    requires |keys| == 1 && key in keys
    ensures keys == {key}
  {
    assert |keys - {key}| == 0;
  }

  /** The rows of the matrix, before they are sorted: one for each normalized key, one cell for each environment. */
  method BuildMatrix(rules: Rules, environments: seq<Id>, secrets: seq<SecretValue>, findings: seq<Finding>)
    returns (rows: map<Text, MatrixRow>)
    requires IsOrder(rules)
    ensures rows.Keys == NormalKeys(rules, secrets)
    ensures forall n :: n in rows ==> IsRow(rules, environments, secrets, findings, n, rows[n])
  {
    hide IsGrouping, EmptyCells, IsRow, NormalKeys, IsOrder;
    var emptyCells := EmptyCells(rules, findings);
    var groups := GroupRows(rules, secrets);
    GroupsAreRows(rules, groups, secrets);
    rows := map[];
    var todo := groups.Keys;
    while todo != {}
      invariant todo <= groups.Keys && rows.Keys == groups.Keys - todo
      invariant forall n :: n in rows ==> IsRow(rules, environments, secrets, findings, n, rows[n])
      decreases |todo|
    {
      var n :| n in todo;
      var row := FillRow(rules, secrets, findings, n, groups[n], environments, emptyCells);
      rows := rows[n := row];
      todo := todo - {n};
    }
  }

  /** A grouping has a group for each normalized key, with all secrets of that key and no others. */
  lemma GroupsAreRows(rules: Rules, groups: map<Text, seq<SecretValue>>, secrets: seq<SecretValue>)
    requires IsGrouping(rules, groups, secrets)
    ensures groups.Keys == NormalKeys(rules, secrets)
    ensures forall n, s :: n in groups ==> (s in groups[n] <==> s in secrets && rules.upper(s.key) == n)
  {
    forall n, s | n in groups
      ensures s in groups[n] <==> s in secrets && rules.upper(s.key) == n
    {
      GroupMembers(rules, secrets, n);
    }
  }
}
