/** Previews against commits: imports and promotions do what their previews say, to the keys they name. */
module BatchEffects {
  import opened Wrappers
  import opened Strings
  import opened Database
  import opened Operations
  import opened Preservation
  import opened Batches
  import opened WriteEffects

  // ---- imports ----

  datatype PreviewOp = Add | Update

  datatype Preview = Preview(operations: seq<PreviewOp>, adds: nat, updates: nat)

  function CountAdds(operations: seq<PreviewOp>): (n: nat)
    ensures n <= |operations|
  {
    if operations == [] then 0
    else CountAdds(operations[..|operations| - 1]) + if operations[|operations| - 1] == Add then 1 else 0
  }

  /** buildDotenvPreview and buildJsonImportPreview, for the keys of the parsed entries. */
  function BuildPreview(keys: seq<Text>, existing: set<Text>): Preview {
    var operations := seq(|keys|, i requires 0 <= i < |keys| => if keys[i] in existing then Update else Add);
    Preview(operations, CountAdds(operations), |keys| - CountAdds(operations))
  }

  /** The keys SecretService.list shows for an environment. */
  ghost function ExistingKeys(db: Db, e: Id): set<Text> {
    set s | s in db.secrets && ActiveSecret(db, s) && db.secrets[s].environmentId == e :: db.secrets[s].key
  }

  lemma ExistingMeansFound(db: Db, e: Id, key: Text)
    ensures key in ExistingKeys(db, e) <==> FindActive(db, e, key).Some?
  {
    if FindActive(db, e, key).Some? {
      var s := FindActive(db, e, key).value;
      assert s in db.secrets && db.secrets[s].key == key;
    }
  }

  lemma PreviewSnoc(keys: seq<Text>, existing: set<Text>, n: nat)
    requires n + 1 == |keys|
    ensures BuildPreview(keys, existing).adds
         == BuildPreview(keys[..n], existing).adds + if keys[n] in existing then 0 else 1
  {
    assert BuildPreview(keys, existing).operations[..n] == BuildPreview(keys[..n], existing).operations;
  }

  function Chosen(keys: seq<Text>, selected: set<Text>): set<Text> { set k | k in keys && k in selected }

  lemma {:induction false} ImportCounts(
    db0: Db, p: Id, e: Id, inputs: seq<SetSecret>, keys: seq<Text>, strategy: Strategy, selected: set<Text>)
    requires |inputs| == |keys| && Distinct(keys) && ImportItems(db0, p, e, inputs, keys, strategy, selected).Ok?
    ensures var t := ImportItems(db0, p, e, inputs, keys, strategy, selected).value;
            var pv := BuildPreview(keys, ExistingKeys(db0, e));
            && t.created + t.updated + t.skipped == |inputs|
            && (strategy == Overwrite ==> t.created == pv.adds && t.updated == pv.updates)
            && (strategy == SkipExisting ==> t.created == pv.adds && t.skipped == pv.updates)
            && (strategy == Merge ==> t.created + t.updated == |Chosen(keys, selected)|)
  {
    if inputs == [] {
      assert Chosen(keys, selected) == {};
    } else {
      var n := |inputs| - 1;
      ImportItemsUnfold(db0, p, e, inputs, keys, strategy, selected);
      hide Put, FindActive, ExistingKeys, BuildPreview, Chosen, ImportItems, ImportItem;
      ImportCounts(db0, p, e, inputs[..n], keys[..n], strategy, selected);
      PreviewSnoc(keys, ExistingKeys(db0, e), n);
      PreviewAddsUp(keys, ExistingKeys(db0, e));
      PreviewAddsUp(keys[..n], ExistingKeys(db0, e));
      ExistingMeansFound(db0, e, keys[n]);
      ChosenSnoc(keys, selected, n);
    }
  }

  /** The counters after the last item. */
  lemma ImportItemsUnfold(
    db0: Db, p: Id, e: Id, inputs: seq<SetSecret>, keys: seq<Text>, strategy: Strategy, selected: set<Text>)
    requires |inputs| == |keys| > 0 && ImportItems(db0, p, e, inputs, keys, strategy, selected).Ok?
    ensures var n := |inputs| - 1;
            var before := ImportItems(db0, p, e, inputs[..n], keys[..n], strategy, selected);
            var after := ImportItems(db0, p, e, inputs, keys, strategy, selected).value;
            var exists_ := FindActive(db0, e, keys[n]).Some?;
            && before.Ok?
            && (after.created, after.updated, after.skipped) ==
               if !Included(strategy, exists_, keys[n] in selected) then
                 (before.value.created, before.value.updated, before.value.skipped + 1)
               else if exists_ then (before.value.created, before.value.updated + 1, before.value.skipped)
               else (before.value.created + 1, before.value.updated, before.value.skipped)
  {
    hide Put, FindActive;
  }

  lemma PreviewAddsUp(keys: seq<Text>, existing: set<Text>)
    ensures BuildPreview(keys, existing).adds + BuildPreview(keys, existing).updates == |keys|
  {
  }

  lemma ChosenSnoc(keys: seq<Text>, selected: set<Text>, n: nat)
    requires n + 1 == |keys| && Distinct(keys)
    ensures |Chosen(keys, selected)| == |Chosen(keys[..n], selected)| + if keys[n] in selected then 1 else 0
  {
    assert keys == keys[..n] + [keys[n]];
    assert Chosen(keys, selected) == Chosen(keys[..n], selected) + if keys[n] in selected then {keys[n]} else {};
  }

  /** Every item the strategy lets through has landed. */
  lemma {:induction false} ImportItemsLand(
    db0: Db, p: Id, e: Id, inputs: seq<SetSecret>, keys: seq<Text>, strategy: Strategy, selected: set<Text>, i: nat)
    requires Valid(db0) && Normal(inputs, keys) && Distinct(keys) && i < |inputs|
    requires ImportItems(db0, p, e, inputs, keys, strategy, selected).Ok? && Writes(db0, e, keys[i], strategy, selected)
    ensures Landed(db0, ImportItems(db0, p, e, inputs, keys, strategy, selected).value.db, e, inputs[i].(key := keys[i]))
  {
    var n := |inputs| - 1;
    hide Valid, Landed, Touches, Evolves, Keeps;
    ImportItemsKeep(db0, p, e, inputs[..n], keys[..n], strategy, selected);
    var before := ImportItems(db0, p, e, inputs[..n], keys[..n], strategy, selected).value.db;
    var done := WrittenKeys(db0, e, keys[..n], strategy, selected);
    WrittenKeysSnoc(db0, e, keys, n, strategy, selected);
    var input := inputs[n].(key := keys[n]);
    KeyIsNormal(inputs[n].key, inputs[n].allowNonConforming);
    if i == n {
      PutLands(db0, before, p, e, input, done);
    } else {
      ImportItemsLand(db0, p, e, inputs[..n], keys[..n], strategy, selected, i);
      if Writes(db0, e, keys[n], strategy, selected) {
        PutKeepsLanded(db0, before, p, e, input, done, inputs[i].(key := keys[i]));
      }
    }
  }

  lemma PutKeepsLanded(db0: Db, db: Db, p: Id, e: Id, input: SetSecret, done: set<Text>, other: SetSecret)
    requires Keeps(db0, db) && Touches(db0, db, e, done) && input.key !in done
    requires ValidateKey(input.key, input.allowNonConforming) == Ok(input.key) && Put(db0, db, p, e, input).Ok?
    requires Landed(db0, db, e, other) && other.key != input.key
    ensures Landed(db0, Put(db0, db, p, e, input).value, e, other)
  {
    hide *;
    PutKeeps(db0, db, p, e, input, done);
    KeepsEvolves(db, Put(db0, db, p, e, input).value);
    LandedStays(db0, db, Put(db0, db, p, e, input).value, e, other, {input.key});
  }

  lemma KeepsEvolves(a: Db, b: Db)
    requires Keeps(a, b)
    ensures Evolves(a, b)
  {
  }

  /**
    A successful import does what its preview announced: overwriting creates its adds and updates its updates,
    skipping creates its adds and skips its updates, merging writes the selected keys. Items let through have
    landed, nothing else was touched, and the counters add up.
   */
  lemma PreviewPredictsImport(db: Db, p: Id, e: Id, inputs: seq<SetSecret>, strategy: Strategy, selected: set<Text>)
    requires Valid(db) && ImportBatch(db, p, e, inputs, strategy, selected).Ok?
    ensures ValidateKeys(inputs).Ok?
    ensures var t, keys := ImportBatch(db, p, e, inputs, strategy, selected).value, ValidateKeys(inputs).value;
            var preview := BuildPreview(keys, ExistingKeys(db, e));
            && t.created + t.updated + t.skipped == |inputs|
            && (strategy == Overwrite ==> t.created == preview.adds && t.updated == preview.updates)
            && (strategy == SkipExisting ==> t.created == preview.adds && t.skipped == preview.updates)
            && (strategy == Merge ==> t.created + t.updated == |Chosen(keys, selected)|)
            && Touches(db, t.db, e, WrittenKeys(db, e, keys, strategy, selected))
            && (forall i :: 0 <= i < |inputs| && Writes(db, e, keys[i], strategy, selected) ==>
                  Landed(db, t.db, e, inputs[i].(key := keys[i])))
  {
    var keys := ImportBatchIsItems(db, p, e, inputs, strategy, selected);
    hide *;
    ImportCounts(db, p, e, inputs, keys, strategy, selected);
    ImportItemsKeep(db, p, e, inputs, keys, strategy, selected);
    forall i | 0 <= i < |inputs| && Writes(db, e, keys[i], strategy, selected)
      ensures Landed(db, ImportItems(db, p, e, inputs, keys, strategy, selected).value.db, e, inputs[i].(key := keys[i]))
    {
      ImportItemsLand(db, p, e, inputs, keys, strategy, selected, i);
    }
  }

  /** What a successful import has checked before its loop. */
  lemma ImportBatchIsItems(db: Db, p: Id, e: Id, inputs: seq<SetSecret>, strategy: Strategy, selected: set<Text>)
    returns (keys: seq<Text>)
    requires ImportBatch(db, p, e, inputs, strategy, selected).Ok?
    ensures ValidateKeys(inputs) == Ok(keys) && |keys| == |inputs| && Normal(inputs, keys) && Distinct(keys)
    ensures ImportBatch(db, p, e, inputs, strategy, selected) == ImportItems(db, p, e, inputs, keys, strategy, selected)
    ensures OpenEnvironment(db, p, e) && 1 <= |inputs| <= MAX_BULK_ITEMS
    ensures strategy == Merge ==> selected != {} && forall k :: k in selected ==> k in keys
  {
    hide ImportItems;
    keys := ValidateKeys(inputs).value;
  }

  lemma {:induction false} AllExistIsAllSkipped(
    db: Db, p: Id, e: Id, inputs: seq<SetSecret>, keys: seq<Text>, selected: set<Text>)
    requires |inputs| == |keys| && forall i :: 0 <= i < |keys| ==> FindActive(db, e, keys[i]).Some?
    ensures ImportItems(db, p, e, inputs, keys, SkipExisting, selected) == Ok(Tally(db, 0, 0, |inputs|))
  {
    if inputs != [] {
      var n := |inputs| - 1;
      AllExistIsAllSkipped(db, p, e, inputs[..n], keys[..n], selected);
    }
  }

  lemma KeyExistsAfterwards(db: Db, b: Db, e: Id, inputs: seq<SetSecret>, keys: seq<Text>, selected: set<Text>, i: nat)
    requires Normal(inputs, keys) && i < |inputs|
    requires Touches(db, b, e, WrittenKeys(db, e, keys, SkipExisting, selected))
    requires Writes(db, e, keys[i], SkipExisting, selected) ==> Landed(db, b, e, inputs[i].(key := keys[i]))
    ensures FindActive(b, e, keys[i]).Some?
  {
    if Writes(db, e, keys[i], SkipExisting, selected) {
      var s :| LandedAt(db, b, e, inputs[i].(key := keys[i]), s);
      assert IsRow(b, e, keys[i], s) && ActiveSecret(b, s);
    } else {
      var s := FindActive(db, e, keys[i]).value;
      assert b.secrets[s] == db.secrets[s];
      assert IsRow(b, e, keys[i], s) && ActiveSecret(b, s);
    }
  }

  /** Repeating an import that skips existing keys changes nothing. */
  lemma SkipImportIsIdempotent(db: Db, p: Id, e: Id, inputs: seq<SetSecret>, selected: set<Text>)
    requires Valid(db) && ImportBatch(db, p, e, inputs, SkipExisting, selected).Ok?
    ensures var b := ImportBatch(db, p, e, inputs, SkipExisting, selected).value.db;
            ImportBatch(b, p, e, inputs, SkipExisting, selected) == Ok(Tally(b, 0, 0, |inputs|))
  {
    var b := ImportBatch(db, p, e, inputs, SkipExisting, selected).value.db;
    var keys := ImportBatchIsItems(db, p, e, inputs, SkipExisting, selected);
    hide *;
    PreviewPredictsImport(db, p, e, inputs, SkipExisting, selected);
    StillOpen(db, b, p, e, WrittenKeys(db, e, keys, SkipExisting, selected));
    forall i | 0 <= i < |keys| ensures FindActive(b, e, keys[i]).Some? {
      KeyExistsAfterwards(db, b, e, inputs, keys, selected, i);
    }
    AllExistIsAllSkipped(b, p, e, inputs, keys, selected);
    ItemsAreImportBatch(b, p, e, inputs, keys, SkipExisting, selected);
  }

  lemma StillOpen(db: Db, b: Db, p: Id, e: Id, keys: set<Text>)
    requires Touches(db, b, e, keys) && OpenEnvironment(db, p, e)
    ensures OpenEnvironment(b, p, e)
  {
  }

  /** An import whose checks pass is its loop. */
  lemma ItemsAreImportBatch(db: Db, p: Id, e: Id, inputs: seq<SetSecret>, keys: seq<Text>, strategy: Strategy,
                            selected: set<Text>)
    requires 1 <= |inputs| <= MAX_BULK_ITEMS && ValidateKeys(inputs) == Ok(keys) && Distinct(keys)
    requires OpenEnvironment(db, p, e) && strategy != Merge && |keys| == |inputs|
    ensures ImportBatch(db, p, e, inputs, strategy, selected) == ImportItems(db, p, e, inputs, keys, strategy, selected)
  {
    hide ImportItems, ValidateKeys, Distinct;
  }

  // ---- bulk writes ----

  /** A key that a batch has not written yet has the active row it had before the batch. */
  lemma StillFound(db: Db, b: Db, e: Id, done: set<Text>, key: Text)
    requires Valid(b) && Evolves(db, b) && Touches(db, b, e, done) && key !in done
    ensures FindActive(b, e, key) == FindActive(db, e, key)
    ensures FindActive(b, e, key).Some? ==>
              var s := FindActive(b, e, key).value;
              s in b.secrets && s in db.secrets && b.secrets[s] == db.secrets[s]
  {
    hide Valid;
    if FindActive(db, e, key).Some? {
      var s := FindActive(db, e, key).value;
      assert b.secrets[s] == db.secrets[s];
      ActiveRowIsFound(b, e, key, s);
    } else {
      forall t | IsRow(b, e, key, t)
        ensures !ActiveSecret(b, t)
      {
        assert t in db.secrets ==> SecretEvolves(db, b, t);
        assert IsRow(db, e, key, t);
      }
    }
  }

  lemma ItemIsPut(db: Db, before: Db, p: Id, e: Id, input: SetSecret, done: set<Text>)
    requires Valid(before) && Evolves(db, before) && Touches(db, before, e, done) && input.key !in done
    ensures Put(before, before, p, e, input) == Put(db, before, p, e, input)
  {
    hide Valid, Evolves, Touches, FindActive, CreateSecret, WriteVersion;
    StillFound(db, before, e, done, input.key);
  }

  lemma UnfoldOverwrite(db: Db, p: Id, e: Id, inputs: seq<SetSecret>, keys: seq<Text>, selected: set<Text>)
    requires |inputs| == |keys| > 0
    ensures var n := |inputs| - 1;
            var before := ImportItems(db, p, e, inputs[..n], keys[..n], Overwrite, selected);
            var after := ImportItems(db, p, e, inputs, keys, Overwrite, selected);
            if before.Err? then after == Err(before.error)
            else
              var put := Put(db, before.value.db, p, e, inputs[n].(key := keys[n]));
              if put.Err? then after == Err(put.error) else after.Ok? && after.value.db == put.value
  {
    hide Put, FindActive;
  }

  lemma UnfoldBulk(db: Db, p: Id, e: Id, inputs: seq<SetSecret>, keys: seq<Text>)
    requires |inputs| == |keys| > 0
    ensures var n := |inputs| - 1;
            var before := BulkItems(db, p, e, inputs[..n], keys[..n]);
            BulkItems(db, p, e, inputs, keys) ==
            if before.Err? then before else Put(before.value, before.value, p, e, inputs[n].(key := keys[n]))
  {
    hide Put;
  }

  /** The tables a batch leaves, or its error. */
  function TablesOf(r: Result<Tally, Error>): Result<Db, Error> {
    match r case Ok(t) => Ok(t.db) case Err(error) => Err(error)
  }

  /** A bulk write, which looks each key up when its turn comes, does what an import that overwrites does. */
  lemma {:induction false} BulkIsOverwrite(
    db: Db, p: Id, e: Id, inputs: seq<SetSecret>, keys: seq<Text>, selected: set<Text>)
    requires Valid(db) && Normal(inputs, keys) && Distinct(keys) && |inputs| == |keys|
    ensures BulkItems(db, p, e, inputs, keys) == TablesOf(ImportItems(db, p, e, inputs, keys, Overwrite, selected))
  {
    if inputs != [] {
      var n := |inputs| - 1;
      PrefixIsNormal(inputs, keys, n);
      UnfoldBulk(db, p, e, inputs, keys);
      UnfoldOverwrite(db, p, e, inputs, keys, selected);
      hide BulkItems, ImportItems, Put, Valid, Normal, Distinct, KeySet, Keeps, Touches;
      BulkIsOverwrite(db, p, e, inputs[..n], keys[..n], selected);
      var before := BulkItems(db, p, e, inputs[..n], keys[..n]);
      if before.Ok? {
        BulkItemsKeep(db, p, e, inputs[..n], keys[..n]);
        KeepsIsValid(db, before.value);
        KeepsEvolves(db, before.value);
        ItemIsPut(db, before.value, p, e, inputs[n].(key := keys[n]), KeySet(keys[..n]));
      }
    }
  }

  lemma PrefixIsNormal(inputs: seq<SetSecret>, keys: seq<Text>, n: nat)
    requires Normal(inputs, keys) && Distinct(keys) && n + 1 == |keys| == |inputs|
    ensures Normal(inputs[..n], keys[..n]) && Distinct(keys[..n]) && keys[n] !in KeySet(keys[..n])
  {
  }

  /** After a bulk write every key has its value and notes, and no other key of any environment has changed. */
  lemma BulkOutcome(db: Db, p: Id, e: Id, inputs: seq<SetSecret>)
    requires Valid(db) && BulkSet(db, p, e, inputs).Ok?
    ensures ValidateKeys(inputs).Ok?
    ensures var b, keys := BulkSet(db, p, e, inputs).value, ValidateKeys(inputs).value;
            && Valid(b) && Touches(db, b, e, KeySet(keys))
            && forall i :: 0 <= i < |inputs| ==> Landed(db, b, e, inputs[i].(key := keys[i]))
  {
    var keys := BulkSetIsItems(db, p, e, inputs);
    assert forall i :: 0 <= i < |keys| ==> Writes(db, e, keys[i], Overwrite, {});
    hide *;
    BulkIsOverwrite(db, p, e, inputs, keys, {});
    BulkItemsKeep(db, p, e, inputs, keys);
    KeepsIsValid(db, BulkItems(db, p, e, inputs, keys).value);
    OverwriteTables(ImportItems(db, p, e, inputs, keys, Overwrite, {}));
    forall i | 0 <= i < |inputs|
      ensures Landed(db, BulkItems(db, p, e, inputs, keys).value, e, inputs[i].(key := keys[i]))
    {
      ImportItemsLand(db, p, e, inputs, keys, Overwrite, {}, i);
    }
  }

  lemma OverwriteTables(r: Result<Tally, Error>)
    ensures TablesOf(r).Ok? <==> r.Ok?
    ensures r.Ok? ==> TablesOf(r).value == r.value.db
  {
  }

  lemma BulkSetIsItems(db: Db, p: Id, e: Id, inputs: seq<SetSecret>) returns (keys: seq<Text>)
    requires BulkSet(db, p, e, inputs).Ok?
    ensures ValidateKeys(inputs) == Ok(keys) && |keys| == |inputs| && Normal(inputs, keys) && Distinct(keys)
    ensures BulkSet(db, p, e, inputs) == BulkItems(db, p, e, inputs, keys)
  {
    hide BulkItems;
    keys := ValidateKeys(inputs).value;
  }

  // ---- promotion ----

  datatype PromotionItem =
    PromotionItem(key: Text, overwrite: bool, changed: bool, sourceVersion: nat, targetVersion: Option<nat>)

  /** #promotionPreview for one source row. */
  ghost function PreviewItem(db: Db, target: Id, s: Id): PromotionItem
    requires Valid(db) && s in db.secrets
  {
    var row := db.secrets[s];
    assert SecretOk(db, s);
    match FindActive(db, target, row.key)
    case None => PromotionItem(row.key, false, true, row.currentVersion, None)
    case Some(t) =>
      assert SecretOk(db, t);
      PromotionItem(row.key, true, CurrentValue(db, s) != CurrentValue(db, t), row.currentVersion,
                    Some(db.secrets[t].currentVersion))
  }

  lemma {:induction false} PromoteItemsLand(db0: Db, p: Id, source: Id, target: Id, rows: seq<Id>, i: nat)
    requires Valid(db0) && Sourced(db0, source, rows) && i < |rows| && PromoteItems(db0, p, target, rows).Ok?
    ensures rows[i] in rows && Landed(db0, PromoteItems(db0, p, target, rows).value, target, Promoted(db0, rows[i]))
  {
    hide *;
    var n := |rows| - 1;
    SourceRow(db0, source, rows, n);
    EarlierKeyDiffers(db0, source, rows, i);
    var keys := RowKeys(db0, rows);
    PromoteItemsUnfold(db0, p, target, rows);
    var other, input, done := Promoted(db0, rows[i]), Promoted(db0, rows[n]), KeySet(keys[..n]);
    KeyIsPromotable(input.key);
    PromoteItemsKeep(db0, p, source, target, rows[..n]);
    var before := PromoteItems(db0, p, target, rows[..n]).value;
    if i == n {
      PutLands(db0, before, p, target, input, done);
    } else {
      PromoteItemsLand(db0, p, source, target, rows[..n], i);
      PutKeepsLanded(db0, before, p, target, input, done, other);
    }
  }

  lemma EarlierKeyDiffers(db0: Db, source: Id, rows: seq<Id>, i: nat)
    requires Valid(db0) && Sourced(db0, source, rows) && i < |rows|
    ensures var last := rows[|rows| - 1];
            && rows[i] in rows && last in rows
            && Promoted(db0, rows[i]).key == db0.secrets[rows[i]].key && Promoted(db0, last).key == db0.secrets[last].key
            && (i < |rows| - 1 ==> rows[..|rows| - 1][i] == rows[i] && db0.secrets[rows[i]].key != db0.secrets[last].key)
  {
    hide Valid, IsStoredKey, Distinct;
    assert rows[i] in rows && rows[|rows| - 1] in rows;
    StoredKeyOf(db0, rows[i]);
    SourceKeysDistinct(db0, source, rows);
    assert RowKeys(db0, rows)[i] == db0.secrets[rows[i]].key;
    DistinctAt(RowKeys(db0, rows), i, |rows| - 1);
  }

  lemma DistinctAt(keys: seq<Text>, i: nat, j: nat)
    requires Distinct(keys) && i < |keys| && j < |keys|
    ensures i != j ==> keys[i] != keys[j]
  {
  }

  /** Source and target agree on the secret's value and notes. */
  ghost predicate Mirrored(db: Db, b: Db, target: Id, s: Id)
    requires s in db.secrets && VersionId(s, db.secrets[s].currentVersion) in db.versions
  {
    exists t ::
      && IsRow(b, target, db.secrets[s].key, t) && ActiveSecret(b, t)
      && IsCurrent(b, t, CurrentValue(db, s)) && b.secrets[t].notes == db.secrets[s].notes
      && (FindActive(db, target, db.secrets[s].key).Some? ==>
            t == FindActive(db, target, db.secrets[s].key).value
            && b.secrets[t].currentVersion == db.secrets[t].currentVersion + 1)
  }

  lemma LandedIsMirrored(db: Db, b: Db, target: Id, s: Id)
    requires Valid(db) && s in db.secrets && VersionId(s, db.secrets[s].currentVersion) in db.versions
    requires Landed(db, b, target, Promoted(db, s))
    ensures Mirrored(db, b, target, s)
  {
    hide Valid, FindActive, ValidateNotes;
    CurrentIsStored(db, s);
    NormalizedNotesStay(db.secrets[s].notes);
    var t :| LandedAt(db, b, target, Promoted(db, s), t);
  }

  lemma CurrentIsStored(db: Db, s: Id)
    requires Valid(db) && s in db.secrets && VersionId(s, db.secrets[s].currentVersion) in db.versions
    ensures StoredText(CurrentValue(db, s)) == CurrentValue(db, s) && IsNormalized(db.secrets[s].notes)
  {
    assert SecretOk(db, s) && IsStored(db.versions[VersionId(s, db.secrets[s].currentVersion)]);
  }

  /** The preview after the promotion: an overwrite that would change nothing. */
  ghost predicate Settled(db: Db, b: Db, target: Id, s: Id) {
    && Valid(db) && Valid(b) && s in db.secrets && s in b.secrets
    && var before, after := PreviewItem(db, target, s), PreviewItem(b, target, s);
    && after.overwrite && !after.changed && after.key == before.key && after.sourceVersion == before.sourceVersion
    && (before.overwrite ==> after.targetVersion == Some(before.targetVersion.value + 1))
  }

  lemma PreviewOfNew(db: Db, target: Id, s: Id)
    requires Valid(db) && s in db.secrets && FindActive(db, target, db.secrets[s].key) == None
    ensures PreviewItem(db, target, s)
         == PromotionItem(db.secrets[s].key, false, true, db.secrets[s].currentVersion, None)
  {
    hide Valid, FindActive;
  }

  lemma PreviewOfOld(db: Db, target: Id, s: Id, t: Id)
    requires Valid(db) && s in db.secrets && FindActive(db, target, db.secrets[s].key) == Some(t)
    requires VersionId(s, db.secrets[s].currentVersion) in db.versions
    ensures t in db.secrets && VersionId(t, db.secrets[t].currentVersion) in db.versions
    ensures PreviewItem(db, target, s)
         == PromotionItem(db.secrets[s].key, true, CurrentValue(db, s) != CurrentValue(db, t),
                          db.secrets[s].currentVersion, Some(db.secrets[t].currentVersion))
  {
    assert SecretOk(db, t) && 1 <= db.secrets[t].currentVersion;
    assert VersionId(t, db.secrets[t].currentVersion) in db.versions;
    hide Valid, SecretOk;
  }

  /** The row that mirrors the secret is the one found afterwards. */
  lemma MirrorIsFound(db: Db, b: Db, target: Id, s: Id) returns (t: Id)
    requires Valid(b) && s in db.secrets && VersionId(s, db.secrets[s].currentVersion) in db.versions
    requires Mirrored(db, b, target, s)
    ensures FindActive(b, target, db.secrets[s].key) == Some(t) && IsCurrent(b, t, CurrentValue(db, s))
    ensures FindActive(db, target, db.secrets[s].key).Some? ==>
              && t == FindActive(db, target, db.secrets[s].key).value
              && b.secrets[t].currentVersion == db.secrets[t].currentVersion + 1
  {
    hide Valid, FindActive;
    var key := db.secrets[s].key;
    t :| IsRow(b, target, key, t) && ActiveSecret(b, t) && IsCurrent(b, t, CurrentValue(db, s))
         && (FindActive(db, target, key).Some? ==>
               && t == FindActive(db, target, key).value
               && b.secrets[t].currentVersion == db.secrets[t].currentVersion + 1);
    ActiveRowIsFound(b, target, key, t);
  }

  lemma MirroredPreview(db: Db, b: Db, source: Id, target: Id, s: Id, keys: set<Text>)
    requires Valid(db) && Keeps(db, b) && Touches(db, b, target, keys) && source != target
    requires s in db.secrets && db.secrets[s].environmentId == source
    requires VersionId(s, db.secrets[s].currentVersion) in db.versions && Mirrored(db, b, target, s)
    ensures Settled(db, b, target, s)
  {
    hide Touches, Keeps, Valid, FindActive, Evolves, PreviewItem, Mirrored;
    KeepsIsValid(db, b);
    KeepsEvolves(db, b);
    SourceStays(db, b, source, target, keys, s);
    var t := MirrorIsFound(db, b, target, s);
    ValueStays(db, b, s);
    PreviewOfOld(b, target, s, t);
    if FindActive(db, target, db.secrets[s].key).Some? {
      PreviewOfOld(db, target, s, t);
    } else {
      PreviewOfNew(db, target, s);
    }
  }

  lemma ActiveRowIsFound(db: Db, e: Id, key: Text, t: Id)
    requires Valid(db) && IsRow(db, e, key, t) && ActiveSecret(db, t)
    ensures FindActive(db, e, key) == Some(t)
  {
    OneRow(db, e, key);
  }

  lemma ValueStays(a: Db, b: Db, s: Id)
    requires Evolves(a, b) && s in a.secrets && s in b.secrets && b.secrets[s] == a.secrets[s]
    requires VersionId(s, a.secrets[s].currentVersion) in a.versions
    ensures VersionId(s, b.secrets[s].currentVersion) in b.versions && CurrentValue(b, s) == CurrentValue(a, s)
  {
  }

  lemma ReadableIsSourced(db: Db, source: Id, keys: Option<seq<Text>>, rows: seq<Id>)
    requires Readable(db, source, keys, rows)
    ensures Sourced(db, source, rows)
  {
  }

  /** The source row is untouched, the target mirrors it, and a new preview has nothing to change. */
  ghost predicate IsPromoted(db: Db, b: Db, target: Id, s: Id) {
    && s in db.secrets && s in b.secrets && b.secrets[s] == db.secrets[s]
    && VersionId(s, db.secrets[s].currentVersion) in db.versions && Mirrored(db, b, target, s)
    && Settled(db, b, target, s)
  }

  /**
    Every selected secret has its value and notes in the target, under the row the target had if it had one, one
    version later; the source environment and all other keys are as before; and a new preview shows nothing but
    overwrites without change.
   */
  ghost predicate IsPromotion(db: Db, b: Db, source: Id, target: Id, rows: seq<Id>) {
    && Valid(b) && Evolves(db, b)
    && Sourced(db, source, rows) && Touches(db, b, target, KeySet(RowKeys(db, rows)))
    && source in db.environments && source in b.environments && b.environments[source] == db.environments[source]
    && forall s :: s in rows ==> IsPromoted(db, b, target, s)
  }

  lemma PromotionOutcome(db: Db, p: Id, source: Id, target: Id, keys: Option<seq<Text>>, rows: seq<Id>)
    requires Valid(db) && Readable(db, source, keys, rows) && Promote(db, p, source, target, keys, rows).Ok?
    ensures IsPromotion(db, Promote(db, p, source, target, keys, rows).value, source, target, rows)
  {
    hide Valid, PromoteItems, CheckPromotion, Sourced, Touches, Evolves, IsPromoted, RowKeys, IsPromotion, Readable;
    ReadableIsSourced(db, source, keys, rows);
    PromoteIsItems(db, p, source, target, keys, rows);
    hide Promote;
    var b := Promote(db, p, source, target, keys, rows).value;
    PromotionOfItems(db, b, p, source, target, rows);
  }

  lemma PromotionOfItems(db: Db, b: Db, p: Id, source: Id, target: Id, rows: seq<Id>)
    requires Valid(db) && Sourced(db, source, rows) && PromoteItems(db, p, target, rows) == Ok(b)
    requires source != target && source in db.environments
    ensures IsPromotion(db, b, source, target, rows)
  {
    hide Valid, PromoteItems, Distinct, Touches, Evolves, IsPromoted, RowKeys, Keeps, KeySet;
    PromoteItemsKeep(db, p, source, target, rows);
    KeepsIsValid(db, b);
    KeepsEvolves(db, b);
    OthersStay(db, b, source, target, KeySet(RowKeys(db, rows)));
    forall s | s in rows
      ensures IsPromoted(db, b, target, s)
    {
      PromotedOne(db, b, p, source, target, rows, s);
    }
  }

  lemma PromoteIsItems(db: Db, p: Id, source: Id, target: Id, keys: Option<seq<Text>>, rows: seq<Id>)
    requires Readable(db, source, keys, rows) && Promote(db, p, source, target, keys, rows).Ok?
    ensures source != target && source in db.environments
    ensures Promote(db, p, source, target, keys, rows) == PromoteItems(db, p, target, rows)
  {
    hide PromoteItems, IsSelection, NormalizeKeys;
  }

  lemma OthersStay(db: Db, b: Db, source: Id, target: Id, keys: set<Text>)
    requires Touches(db, b, target, keys) && source != target && source in db.environments
    ensures source in b.environments && b.environments[source] == db.environments[source]
  {
  }

  lemma PromotedOne(db: Db, b: Db, p: Id, source: Id, target: Id, rows: seq<Id>, s: Id)
    requires Valid(db) && Sourced(db, source, rows) && source != target && s in rows
    requires PromoteItems(db, p, target, rows) == Ok(b)
    ensures IsPromoted(db, b, target, s)
  {
    hide Valid, PromoteItems, IsPromoted;
    var i :| 0 <= i < |rows| && rows[i] == s;
    assert ActiveSecret(db, s) && db.secrets[s].environmentId == source;
    hide *;
    var keys := KeySet(RowKeys(db, rows));
    PromoteItemsKeep(db, p, source, target, rows);
    PromoteItemsLand(db, p, source, target, rows, i);
    LandedIsMirrored(db, b, target, s);
    MirroredPreview(db, b, source, target, s, keys);
    SourceStays(db, b, source, target, keys, s);
    PartsArePromoted(db, b, target, s);
  }

  lemma PartsArePromoted(db: Db, b: Db, target: Id, s: Id)
    requires s in db.secrets && s in b.secrets && b.secrets[s] == db.secrets[s]
    requires VersionId(s, db.secrets[s].currentVersion) in db.versions && Mirrored(db, b, target, s)
    requires Settled(db, b, target, s)
    ensures IsPromoted(db, b, target, s)
  {
  }

  lemma SourceStays(db: Db, b: Db, source: Id, target: Id, keys: set<Text>, s: Id)
    requires Touches(db, b, target, keys) && source != target && s in db.secrets && db.secrets[s].environmentId == source
    ensures s in b.secrets && b.secrets[s] == db.secrets[s]
  {
  }
}
