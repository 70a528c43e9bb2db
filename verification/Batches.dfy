/** What single writes and batches of writes touch, and that they keep the tables valid. */
module Batches {
  import opened Wrappers
  import opened Strings
  import opened Database
  import opened Operations
  import opened Evolution
  import opened Preservation

  /** What one step keeps. */
  ghost predicate Keeps(a: Db, b: Db) { Valid(b) && Evolves(a, b) }

  lemma KeepsTransitive(a: Db, b: Db, c: Db)
    requires Keeps(a, b) && Keeps(b, c)
    ensures Keeps(a, c)
  {
    EvolvesTransitive(a, b, c);
  }

  lemma KeepsSelf(a: Db)
    requires Valid(a)
    ensures Keeps(a, a)
  {
  }

  lemma KeepsIsValid(a: Db, b: Db)
    requires Keeps(a, b)
    ensures Valid(b)
  {
  }

  /** Only secrets of environment e with these keys were written. */
  ghost predicate Touches(a: Db, b: Db, e: Id, keys: set<Text>) {
    && b.projects == a.projects && SameEnvironments(a.environments, b.environments)
    && (forall d :: d in a.environments && d != e ==> b.environments[d] == a.environments[d])
    && (forall s :: s in a.secrets ==>
          s in b.secrets && ((a.secrets[s].environmentId == e
                && a.secrets[s].key in keys) || b.secrets[s] == a.secrets[s]))
    && (forall s :: s in b.secrets && s !in a.secrets ==> b.secrets[s].environmentId == e && b.secrets[s].key in keys)
  }

  lemma TouchesSelf(a: Db, e: Id)
    ensures Touches(a, a, e, {})
  {
  }

  lemma TouchesTransitive(a: Db, b: Db, c: Db, e: Id, k: set<Text>, l: set<Text>)
    requires Evolves(a, b) && Evolves(b, c) && Touches(a, b, e, k) && Touches(b, c, e, l)
    ensures Touches(a, c, e, k + l)
  {
    forall s | s in a.secrets
      ensures s in c.secrets && ((a.secrets[s].environmentId == e
            && a.secrets[s].key in k + l) || c.secrets[s] == a.secrets[s])
    {
      assert SecretEvolves(a, b, s);
    }
    forall s | s in c.secrets && s !in a.secrets ensures c.secrets[s].environmentId == e && c.secrets[s].key in k + l {
      assert s in b.secrets ==> SecretEvolves(b, c, s);
    }
  }

  lemma RowWrittenTouches(a: Db, b: Db, s: Id, row: Secret, value: Text)
    requires RowWritten(a, b, s, row, value)
    requires s in a.secrets ==> a.secrets[s].environmentId == row.environmentId && a.secrets[s].key == row.key
    ensures Touches(a, b, row.environmentId, {row.key})
  {
  }

  // ---- single writes ----

  /** Writing a version to a row that is still as it was read. */
  lemma WriteVersionKeeps(db: Db, s: Id, value: Text, notes: Given<Option<Text>>)
    requires Valid(db) && s in db.secrets && WriteVersion(db, s, db.secrets[s], value, notes).Ok?
    ensures Keeps(db, WriteVersion(db, s, db.secrets[s], value, notes).value)
    ensures Touches(db, WriteVersion(db, s, db.secrets[s], value, notes).value, db.secrets[s].environmentId,
                    {db.secrets[s].key})
  {
    var b := WriteVersion(db, s, db.secrets[s], value, notes).value;
    ValidIsTidy(db);
    WriteVersionWrites(db, s, db.secrets[s], value, notes);
    RowWrittenTouches(db, b, s, Rewritten(db.secrets[s], db.secrets[s], notes), StoredText(value));
    WriteVersionValid(db, s, value, notes);
    WriteVersionEvolves(db, s, db.secrets[s], value, notes);
  }

  lemma CreateSecretKeeps(db: Db, p: Id, e: Id, input: SetSecret)
    requires Valid(db) && CreateSecret(db, p, e, input).Ok?
    ensures Keeps(db, CreateSecret(db, p, e, input).value)
    ensures ValidateKey(input.key, input.allowNonConforming).Ok?
    ensures Touches(db, CreateSecret(db, p, e, input).value, e, {ValidateKey(input.key, input.allowNonConforming).value})
  {
    var b := CreateSecret(db, p, e, input).value;
    ValidIsTidy(db);
    var key, notes := CreateSecretWrites(db, p, e, input);
    RowWrittenTouches(db, b, CreatedId(db, p, e, key), CreatedRow(db, p, e, key, notes), StoredText(input.value));
    CreateSecretValid(db, p, e, input);
    CreateSecretEvolves(db, p, e, input);
  }

  /** A row read before the batch is as it was read when its turn comes. */
  lemma StillAsRead(a: Db, b: Db, e: Id, keys: set<Text>, key: Text, s: Id)
    requires Touches(a, b, e, keys) && key !in keys && IsRow(a, e, key, s)
    ensures s in b.secrets && b.secrets[s] == a.secrets[s]
  {
  }

  lemma PutKeeps(db0: Db, db: Db, p: Id, e: Id, input: SetSecret, done: set<Text>)
    requires Keeps(db0, db) && Touches(db0, db, e, done) && input.key !in done
    requires ValidateKey(input.key, input.allowNonConforming) == Ok(input.key) && Put(db0, db, p, e, input).Ok?
    ensures Keeps(db, Put(db0, db, p, e, input).value) && Touches(db, Put(db0, db, p, e, input).value, e, {input.key})
  {
    hide Valid, Keeps, Touches, Evolves;
    KeepsIsValid(db0, db);
    match FindActive(db0, e, input.key)
    case None => CreateSecretKeeps(db, p, e, input);
    case Some(s) =>
      StillAsRead(db0, db, e, done, input.key, s);
      WriteVersionKeeps(db, s, input.value, input.notes);
  }

  // ---- bulk writes ----

  lemma KeyIsNormal(key: Text, allow: bool)
    requires ValidateKey(key, allow).Ok?
    ensures ValidateKey(ValidateKey(key, allow).value, allow) == ValidateKey(key, allow)
  {
    TrimTwice(key);
  }

  function KeySet(keys: seq<Text>): set<Text> { set k | k in keys }

  ghost predicate Normal(inputs: seq<SetSecret>, keys: seq<Text>) {
    && |inputs| == |keys|
    && forall i :: 0 <= i < |inputs| ==> ValidateKey(inputs[i].key, inputs[i].allowNonConforming) == Ok(keys[i])
  }

  lemma {:induction false} BulkItemsKeep(db: Db, p: Id, e: Id, inputs: seq<SetSecret>, keys: seq<Text>)
    requires Normal(inputs, keys) && Valid(db) && BulkItems(db, p, e, inputs, keys).Ok?
    ensures Keeps(db, BulkItems(db, p, e, inputs, keys).value)
    ensures Touches(db, BulkItems(db, p, e, inputs, keys).value, e, KeySet(keys))
  {
    if inputs == [] {
    } else {
      hide Valid, Keeps, Touches, Evolves;
      var n := |inputs| - 1;
      BulkItemsKeep(db, p, e, inputs[..n], keys[..n]);
      var before := BulkItems(db, p, e, inputs[..n], keys[..n]).value;
      KeepsIsValid(db, before);
      KeepsSelf(before);
      TouchesSelf(before, e);
      KeyIsNormal(inputs[n].key, inputs[n].allowNonConforming);
      var input := inputs[n].(key := keys[n]);
      PutKeeps(before, before, p, e, input, {});
      StepKeeps(db, before, Put(before, before, p, e, input).value, e, KeySet(keys[..n]), {keys[n]});
      KeySetSnoc(keys, n);
    }
  }

  lemma KeySetSnoc(keys: seq<Text>, n: nat)
    requires n + 1 == |keys|
    ensures KeySet(keys) == KeySet(keys[..n]) + {keys[n]}
  {
    assert keys == keys[..n] + [keys[n]];
  }

  lemma StepKeeps(a: Db, b: Db, c: Db, e: Id, k: set<Text>, l: set<Text>)
    requires Keeps(a, b) && Keeps(b, c) && Touches(a, b, e, k) && Touches(b, c, e, l)
    ensures Keeps(a, c) && Touches(a, c, e, k + l)
  {
    KeepsTransitive(a, b, c);
    TouchesTransitive(a, b, c, e, k, l);
  }

  // ---- batches that read their rows first ----

  ghost predicate Writes(db0: Db, e: Id, key: Text, strategy: Strategy, selected: set<Text>) {
    Included(strategy, FindActive(db0, e, key).Some?, key in selected)
  }

  /** The keys of the source the strategy lets through. */
  ghost function WrittenKeys(db0: Db, e: Id, keys: seq<Text>, strategy: Strategy, selected: set<Text>): set<Text> {
    set k | k in keys && Writes(db0, e, k, strategy, selected)
  }

  lemma ImportItemKeeps(
    db0: Db, t: Tally, p: Id, e: Id, input: SetSecret, key: Text, strategy: Strategy, selected: set<Text>,
    done: set<Text>)
    requires Keeps(db0, t.db) && Touches(db0, t.db, e, done) && key !in done
    requires ValidateKey(input.key, input.allowNonConforming) == Ok(key)
    requires ImportItem(db0, t, p, e, input, key, strategy, selected).Ok?
    ensures var t' := ImportItem(db0, t, p, e, input, key, strategy, selected).value;
            && Keeps(db0, t'.db)
            && Touches(db0, t'.db, e, done + if Writes(db0, e, key, strategy, selected) then {key} else {})
  {
    hide Valid, Keeps, Touches, Evolves;
    if Writes(db0, e, key, strategy, selected) {
      KeyIsNormal(input.key, input.allowNonConforming);
      PutKeeps(db0, t.db, p, e, input.(key := key), done);
      StepKeeps(db0, t.db, Put(db0, t.db, p, e, input.(key := key)).value, e, done, {key});
    } else {
      assert done + {} == done;
    }
  }

  lemma {:induction false} ImportItemsKeep(
    db0: Db, p: Id, e: Id, inputs: seq<SetSecret>, keys: seq<Text>, strategy: Strategy, selected: set<Text>)
    requires Valid(db0) && Normal(inputs, keys) && Distinct(keys)
    requires ImportItems(db0, p, e, inputs, keys, strategy, selected).Ok?
    ensures var t := ImportItems(db0, p, e, inputs, keys, strategy, selected).value;
            Keeps(db0, t.db) && Touches(db0, t.db, e, WrittenKeys(db0, e, keys, strategy, selected))
  {
    hide Valid, Keeps, Touches, Evolves, ImportItem, Writes;
    if inputs == [] {
      KeepsSelf(db0);
      TouchesSelf(db0, e);
      NoneWritten(db0, e, keys, strategy, selected);
    } else {
      var n := |inputs| - 1;
      ImportItemsKeep(db0, p, e, inputs[..n], keys[..n], strategy, selected);
      var before := ImportItems(db0, p, e, inputs[..n], keys[..n], strategy, selected).value;
      var done := WrittenKeys(db0, e, keys[..n], strategy, selected);
      WrittenKeysSnoc(db0, e, keys, n, strategy, selected);
      ImportItemKeeps(db0, before, p, e, inputs[n], keys[n], strategy, selected, done);
    }
  }

  lemma NoneWritten(db0: Db, e: Id, keys: seq<Text>, strategy: Strategy, selected: set<Text>)
    requires keys == []
    ensures WrittenKeys(db0, e, keys, strategy, selected) == {}
  {
  }

  lemma WrittenKeysSnoc(db0: Db, e: Id, keys: seq<Text>, n: nat, strategy: Strategy, selected: set<Text>)
    requires n + 1 == |keys| && Distinct(keys)
    ensures WrittenKeys(db0, e, keys, strategy, selected)
         == WrittenKeys(db0, e, keys[..n], strategy, selected)
               + if Writes(db0, e, keys[n], strategy, selected) then {keys[n]} else {}
    ensures keys[n] !in WrittenKeys(db0, e, keys[..n], strategy, selected)
  {
    assert keys == keys[..n] + [keys[n]];
  }

  // ---- promotion ----

  function RowKeys(db: Db, rows: seq<Id>): seq<Text>
    requires forall s :: s in rows ==> s in db.secrets
  {
    seq(|rows|, i requires 0 <= i < |rows| => assert rows[i] in rows; db.secrets[rows[i]].key)
  }

  ghost predicate Sourced(db: Db, source: Id, rows: seq<Id>) {
    && Distinct(rows)
    && forall s :: s in rows ==> ActiveSecret(db, s) && db.secrets[s].environmentId == source
                                 && VersionId(s, db.secrets[s].currentVersion) in db.versions
  }

  lemma SourceKeysDistinct(db: Db, source: Id, rows: seq<Id>)
    requires KeysUnique(db) && Sourced(db, source, rows)
    ensures Distinct(RowKeys(db, rows))
  {
    forall i, j | 0 <= i < j < |rows| ensures RowKeys(db, rows)[i] != RowKeys(db, rows)[j] {
      assert rows[i] in rows && rows[j] in rows;
      if RowKeys(db, rows)[i] == RowKeys(db, rows)[j] {
        assert IsRow(db, db.secrets[rows[i]].environmentId, db.secrets[rows[i]].key, rows[j]);
      }
    }
  }

  lemma PromoteNothingKeeps(db0: Db, p: Id, source: Id, target: Id)
    requires Valid(db0)
    ensures PromoteItems(db0, p, target, []) == Ok(db0) && Keeps(db0, db0)
    ensures Touches(db0, db0, target, KeySet(RowKeys(db0, [])))
  {
    KeepsSelf(db0);
    TouchesSelf(db0, target);
    assert KeySet(RowKeys(db0, [])) == {};
  }

  lemma {:induction false} PromoteItemsKeep(db0: Db, p: Id, source: Id, target: Id, rows: seq<Id>)
    requires Valid(db0) && Sourced(db0, source, rows)
    requires PromoteItems(db0, p, target, rows).Ok?
    ensures var b := PromoteItems(db0, p, target, rows).value;
            Keeps(db0, b) && Touches(db0, b, target, KeySet(RowKeys(db0, rows)))
  {
    if rows == [] {
      PromoteNothingKeeps(db0, p, source, target);
    } else {
      hide *;
      var n := |rows| - 1;
      SourceRow(db0, source, rows, n);
      var keys := RowKeys(db0, rows);
      PromoteItemsUnfold(db0, p, target, rows);
      PromoteItemsKeep(db0, p, source, target, rows[..n]);
      var before := PromoteItems(db0, p, target, rows[..n]).value;
      KeyIsPromotable(keys[n]);
      PutKeeps(db0, before, p, target, Promoted(db0, rows[n]), KeySet(keys[..n]));
      StepKeeps(db0, before, PromoteItems(db0, p, target, rows).value, target, KeySet(keys[..n]), {keys[n]});
      KeySetSnoc(keys, n);
    }
  }

  lemma KeyIsPromotable(key: Text)
    requires IsStoredKey(key)
    ensures ValidateKey(key, true) == Ok(key)
  {
  }

  lemma PromoteItemsUnfold(db0: Db, p: Id, target: Id, rows: seq<Id>)
    requires rows != []
    requires forall s :: s in rows ==> s in db0.secrets && VersionId(s, db0.secrets[s].currentVersion) in db0.versions
    requires PromoteItems(db0, p, target, rows).Ok?
    ensures var n := |rows| - 1;
            rows[n] in rows && PromoteItems(db0, p, target, rows[..n]).Ok?
            && PromoteItems(db0, p, target, rows)
            == Put(db0, PromoteItems(db0, p, target, rows[..n]).value, p, target, Promoted(db0, rows[n]))
            && Promoted(db0, rows[n]).key == db0.secrets[rows[n]].key && Promoted(db0, rows[n]).allowNonConforming
  {
    assert rows[|rows| - 1] in rows;
  }

  /** The last row, seen from the rows before it. */
  lemma SourceRow(db: Db, source: Id, rows: seq<Id>, n: nat)
    requires Valid(db) && Sourced(db, source, rows) && n + 1 == |rows|
    ensures |RowKeys(db, rows)| == |rows|
    ensures Sourced(db, source, rows[..n]) && RowKeys(db, rows[..n]) == RowKeys(db, rows)[..n]
    ensures rows[n] in db.secrets && VersionId(rows[n], db.secrets[rows[n]].currentVersion) in db.versions
    ensures RowKeys(db, rows)[n] == db.secrets[rows[n]].key && IsStoredKey(db.secrets[rows[n]].key)
    ensures RowKeys(db, rows)[n] !in KeySet(RowKeys(db, rows)[..n])
    ensures forall s :: s in rows ==> s in db.secrets && VersionId(s, db.secrets[s].currentVersion) in db.versions
  {
    hide Valid, KeysUnique, IsStoredKey;
    assert rows[n] in rows;
    StoredKeyOf(db, rows[n]);
    SourceKeysDistinct(db, source, rows);
    assert RowKeys(db, rows[..n]) == RowKeys(db, rows)[..n];
  }

  lemma StoredKeyOf(db: Db, s: Id)
    requires Valid(db) && s in db.secrets
    ensures IsStoredKey(db.secrets[s].key) && KeysUnique(db)
  {
    assert SecretOk(db, s);
  }
}
