/** Exactly when creations, bulk writes, imports and promotions succeed: no check is missing, and nothing else makes them fail. */
module BatchConditions {
  import opened Wrappers
  import opened Strings
  import opened Database
  import opened Operations
  import opened Preservation
  import opened Batches
  import opened WriteEffects
  import opened BatchEffects

  /** A value of at most 64 KiB, and notes that fit. */
  predicate IsStorable(input: SetSecret) { Utf8Length(input.value) <= 65536 && ValidateNotes(input.notes).Ok? }

  // ---- one item ----

  lemma OnlyStorableIsCreated(db: Db, p: Id, e: Id, input: SetSecret)
    requires CreateSecret(db, p, e, input).Ok?
    ensures IsStorable(input)
  {
    hide UpdateSecrets, InsertSecret, InsertVersion, OpenEnvironment, ValidateKey, Utf8Length, StoredText;
  }

  lemma OnlyStorableIsWritten(db: Db, s: Id, before: Secret, input: SetSecret)
    requires WriteVersion(db, s, before, input.value, input.notes).Ok?
    ensures IsStorable(input)
  {
    hide UpdateSecrets, InsertVersion, Utf8Length, StoredText;
  }

  /** A secret is created exactly in an open environment, under a good and free key, with a value and notes that fit. */
  lemma CreationSucceedsIff(db: Db, p: Id, e: Id, input: SetSecret)
    requires Valid(db)
    ensures CreateSecret(db, p, e, input).Ok? <==>
              && OpenEnvironment(db, p, e) && IsStorable(input)
              && exists key :: ValidateKey(input.key, input.allowNonConforming) == Ok(key) && key !in ExistingKeys(db, e)
  {
    var key := ValidateKey(input.key, input.allowNonConforming);
    if CreateSecret(db, p, e, input).Ok? {
      OnlyStorableIsCreated(db, p, e, input);
      OnlyOpenIsCreated(db, p, e, input);
    }
    hide Valid, CreateSecret, ValidateKey, ValidateNotes, Utf8Length, FindActive, ExistingKeys, OpenEnvironment;
    if key.Ok? {
      ExistingMeansFound(db, e, key.value);
      if OpenEnvironment(db, p, e) && IsStorable(input) {
        CreationOutcome(db, p, e, input);
      }
    }
  }

  lemma OnlyOpenIsCreated(db: Db, p: Id, e: Id, input: SetSecret)
    requires CreateSecret(db, p, e, input).Ok?
    ensures OpenEnvironment(db, p, e) && ValidateKey(input.key, input.allowNonConforming).Ok?
  {
    hide WriteVersion, ValidateKey, ValidateNotes, OpenEnvironment;
  }

  lemma PutSucceedsIff(db0: Db, db: Db, p: Id, e: Id, input: SetSecret, done: set<Text>)
    requires Keeps(db0, db) && Touches(db0, db, e, done) && input.key !in done && OpenEnvironment(db0, p, e)
    requires ValidateKey(input.key, input.allowNonConforming) == Ok(input.key)
    ensures Put(db0, db, p, e, input).Ok? <==> IsStorable(input)
  {
    hide Valid, Keeps, Touches, Evolves, CreateSecret, WriteVersion, FindActive, Utf8Length, ValidateNotes;
    KeepsIsValid(db0, db);
    KeepsEvolves(db0, db);
    StillFound(db0, db, e, done, input.key);
    StillOpen(db0, db, p, e, done);
    match FindActive(db0, e, input.key)
    case None =>
      if IsStorable(input) {
        FreeKeyIsCreated(db, p, e, input);
      } else if CreateSecret(db, p, e, input).Ok? {
        OnlyStorableIsCreated(db, p, e, input);
      }
    case Some(s) =>
      NoNextVersion(db);
      if IsStorable(input) {
        WriteVersionSucceeds(db, s, db0.secrets[s], input.value, input.notes);
      } else if WriteVersion(db, s, db0.secrets[s], input.value, input.notes).Ok? {
        OnlyStorableIsWritten(db, s, db0.secrets[s], input);
      }
  }

  // ---- imports ----

  /** What a strategy writes, told from the keys that the environment shows. */
  ghost predicate IsWritten(db: Db, e: Id, key: Text, strategy: Strategy, selected: set<Text>) {
    match strategy
    case Overwrite => true
    case SkipExisting => key !in ExistingKeys(db, e)
    case Merge => key in selected
  }

  lemma WritesIsWritten(db: Db, e: Id, key: Text, strategy: Strategy, selected: set<Text>)
    ensures Writes(db, e, key, strategy, selected) <==> IsWritten(db, e, key, strategy, selected)
  {
    hide ExistingKeys, FindActive;
    ExistingMeansFound(db, e, key);
  }

  ghost predicate AllStorable(db: Db, e: Id, inputs: seq<SetSecret>, keys: seq<Text>, strategy: Strategy,
                              selected: set<Text>)
    requires |inputs| == |keys|
  {
    forall i :: 0 <= i < |inputs| && IsWritten(db, e, keys[i], strategy, selected) ==> IsStorable(inputs[i])
  }

  lemma LastStorable(db: Db, e: Id, inputs: seq<SetSecret>, keys: seq<Text>, strategy: Strategy, selected: set<Text>)
    requires |inputs| == |keys| > 0
    ensures var n := |inputs| - 1;
            AllStorable(db, e, inputs, keys, strategy, selected) <==>
              && AllStorable(db, e, inputs[..n], keys[..n], strategy, selected)
              && (IsWritten(db, e, keys[n], strategy, selected) ==> IsStorable(inputs[n]))
  {
    hide IsWritten, IsStorable;
    var n := |inputs| - 1;
    if AllStorable(db, e, inputs[..n], keys[..n], strategy, selected) {
      assert forall i :: 0 <= i < n ==> inputs[..n][i] == inputs[i] && keys[..n][i] == keys[i];
    }
  }

  lemma {:induction false} ItemsSucceedIff(db: Db, p: Id, e: Id, inputs: seq<SetSecret>, keys: seq<Text>,
                                           strategy: Strategy, selected: set<Text>)
    requires Valid(db) && Normal(inputs, keys) && Distinct(keys) && OpenEnvironment(db, p, e)
    ensures ImportItems(db, p, e, inputs, keys, strategy, selected).Ok? <==>
              AllStorable(db, e, inputs, keys, strategy, selected)
  {
    assert |inputs| == |keys|;
    if inputs != [] {
      hide *;
      var n := |inputs| - 1;
      PrefixIsNormal(inputs, keys, n);
      WritesIsWritten(db, e, keys[n], strategy, selected);
      LastStorable(db, e, inputs, keys, strategy, selected);
      ItemsSucceedIff(db, p, e, inputs[..n], keys[..n], strategy, selected);
      LastItem(db, p, e, inputs, keys, strategy, selected);
      if ImportItems(db, p, e, inputs[..n], keys[..n], strategy, selected).Ok? {
        ItemSucceedsIff(db, p, e, inputs, keys, strategy, selected);
      }
    }
  }

  lemma LastItem(db: Db, p: Id, e: Id, inputs: seq<SetSecret>, keys: seq<Text>, strategy: Strategy, selected: set<Text>)
    requires |inputs| == |keys| > 0
    ensures var n := |inputs| - 1;
            var before := ImportItems(db, p, e, inputs[..n], keys[..n], strategy, selected);
            if before.Err? then ImportItems(db, p, e, inputs, keys, strategy, selected).Err?
            else
              ImportItems(db, p, e, inputs, keys, strategy, selected)
              == ImportItem(db, before.value, p, e, inputs[n], keys[n], strategy, selected)
  {
    hide ImportItem;
  }

  lemma ItemSucceedsIff(db: Db, p: Id, e: Id, inputs: seq<SetSecret>, keys: seq<Text>, strategy: Strategy,
                        selected: set<Text>)
    requires Valid(db) && Normal(inputs, keys) && Distinct(keys) && OpenEnvironment(db, p, e) && inputs != []
    requires ImportItems(db, p, e, inputs[..|inputs| - 1], keys[..|inputs| - 1], strategy, selected).Ok?
    ensures var n := |inputs| - 1;
            var t := ImportItems(db, p, e, inputs[..n], keys[..n], strategy, selected).value;
            ImportItem(db, t, p, e, inputs[n], keys[n], strategy, selected).Ok? <==>
              (Writes(db, e, keys[n], strategy, selected) ==> IsStorable(inputs[n]))
  {
    hide Valid, Distinct, Put, FindActive, ValidateKey, ValidateNotes, Utf8Length, Keeps, Touches, OpenEnvironment,
         ImportItems, Included, WrittenKeys;
    var n := |inputs| - 1;
    PrefixIsNormal(inputs, keys, n);
    KeyIsNormal(inputs[n].key, inputs[n].allowNonConforming);
    ImportItemsKeep(db, p, e, inputs[..n], keys[..n], strategy, selected);
    var t := ImportItems(db, p, e, inputs[..n], keys[..n], strategy, selected).value;
    WrittenKeysSnoc(db, e, keys, n, strategy, selected);
    PutSucceedsIff(db, t.db, p, e, inputs[n].(key := keys[n]), WrittenKeys(db, e, keys[..n], strategy, selected));
  }

  lemma {:induction false} KeysAreNormal(inputs: seq<SetSecret>, keys: seq<Text>)
    ensures Normal(inputs, keys) <==> ValidateKeys(inputs) == Ok(keys)
  {
    hide ValidateKey;
    if inputs != [] && keys != [] {
      KeysAreNormal(inputs[1..], keys[1..]);
      assert keys == [keys[0]] + keys[1..];
      if Normal(inputs, keys) {
        assert Normal(inputs[1..], keys[1..]);
      }
    }
  }

  /** The batch under its normalized keys: 1 to 100 different ones, for an open environment. */
  ghost predicate IsBatch(db: Db, p: Id, e: Id, inputs: seq<SetSecret>, keys: seq<Text>) {
    1 <= |inputs| <= 100 && Normal(inputs, keys) && Distinct(keys) && OpenEnvironment(db, p, e)
  }

  ghost predicate CanImport(db: Db, p: Id, e: Id, inputs: seq<SetSecret>, keys: seq<Text>, strategy: Strategy,
                            selected: set<Text>) {
    && IsBatch(db, p, e, inputs, keys)
    && (strategy == Merge ==> selected != {} && forall k :: k in selected ==> k in keys)
    && AllStorable(db, e, inputs, keys, strategy, selected)
  }

  /** An import is refused only for its keys, its selection, its environment, or an item that it would write. */
  lemma ImportSucceedsIff(db: Db, p: Id, e: Id, inputs: seq<SetSecret>, strategy: Strategy, selected: set<Text>)
    requires Valid(db)
    ensures ImportBatch(db, p, e, inputs, strategy, selected).Ok? <==>
              exists keys :: CanImport(db, p, e, inputs, keys, strategy, selected)
  {
    hide Valid, Normal, Distinct, AllStorable, ImportItems, ValidateKeys, OpenEnvironment;
    if keys :| CanImport(db, p, e, inputs, keys, strategy, selected) {
      KeysAreNormal(inputs, keys);
      ItemsSucceedIff(db, p, e, inputs, keys, strategy, selected);
    }
    if ImportBatch(db, p, e, inputs, strategy, selected).Ok? {
      var keys := ValidateKeys(inputs).value;
      KeysAreNormal(inputs, keys);
      ItemsSucceedIff(db, p, e, inputs, keys, strategy, selected);
      assert CanImport(db, p, e, inputs, keys, strategy, selected);
    }
  }

  ghost predicate CanBulkSet(db: Db, p: Id, e: Id, inputs: seq<SetSecret>, keys: seq<Text>) {
    IsBatch(db, p, e, inputs, keys) && forall i :: 0 <= i < |inputs| ==> IsStorable(inputs[i])
  }

  /** A bulk write is refused only for its keys, its environment, or a value or notes that do not fit. */
  lemma BulkSucceedsIff(db: Db, p: Id, e: Id, inputs: seq<SetSecret>)
    requires Valid(db)
    ensures BulkSet(db, p, e, inputs).Ok? <==> exists keys :: CanBulkSet(db, p, e, inputs, keys)
  {
    hide Valid, Normal, Distinct, BulkItems, ImportItems, ValidateKeys, OpenEnvironment, IsStorable;
    if keys :| CanBulkSet(db, p, e, inputs, keys) {
      KeysAreNormal(inputs, keys);
      BulkItemsSucceedIff(db, p, e, inputs, keys);
    }
    if BulkSet(db, p, e, inputs).Ok? {
      var keys := ValidateKeys(inputs).value;
      KeysAreNormal(inputs, keys);
      BulkItemsSucceedIff(db, p, e, inputs, keys);
      assert CanBulkSet(db, p, e, inputs, keys);
    }
  }

  lemma BulkItemsSucceedIff(db: Db, p: Id, e: Id, inputs: seq<SetSecret>, keys: seq<Text>)
    requires Valid(db) && Normal(inputs, keys) && |inputs| == |keys| && Distinct(keys) && OpenEnvironment(db, p, e)
    ensures BulkItems(db, p, e, inputs, keys).Ok? <==> forall i :: 0 <= i < |inputs| ==> IsStorable(inputs[i])
  {
    hide Valid, Normal, Distinct, BulkItems, ImportItems, OpenEnvironment, IsStorable;
    BulkIsOverwrite(db, p, e, inputs, keys, {});
    ItemsSucceedIff(db, p, e, inputs, keys, Overwrite, {});
  }

  // ---- promotions ----

  /** The given keys under their normalized names, at least one and all different, and each an active key of the source. */
  ghost predicate AreSourceKeys(db: Db, source: Id, keys: seq<Text>, names: seq<Text>) {
    && 1 <= |keys| == |names| && Distinct(names)
    && forall i :: 0 <= i < |keys| ==> ValidateKey(keys[i], true) == Ok(names[i]) && names[i] in ExistingKeys(db, source)
  }

  ghost predicate CanPromote(db: Db, p: Id, source: Id, target: Id, keys: Option<seq<Text>>) {
    && source != target && OpenEnvironment(db, p, source) && OpenEnvironment(db, p, target)
    && (keys.Some? ==> exists names :: AreSourceKeys(db, source, keys.value, names))
  }

  lemma {:induction false} PromotedItemsSucceed(db: Db, p: Id, source: Id, target: Id, rows: seq<Id>)
    requires Valid(db) && Sourced(db, source, rows) && OpenEnvironment(db, p, target)
    ensures PromoteItems(db, p, target, rows).Ok?
  {
    if rows != [] {
      hide *;
      var n := |rows| - 1;
      SourceRow(db, source, rows, n);
      PromotedItemsSucceed(db, p, source, target, rows[..n]);
      PromoteItemsKeep(db, p, source, target, rows[..n]);
      var before, done := PromoteItems(db, p, target, rows[..n]).value, KeySet(RowKeys(db, rows[..n]));
      PromotedRowSucceeds(db, before, p, target, rows[n], done);
      OneMorePromoted(db, p, target, rows);
    } else {
      hide Valid, Sourced, OpenEnvironment;
    }
  }

  lemma OneMorePromoted(db: Db, p: Id, target: Id, rows: seq<Id>)
    requires rows != []
    requires forall s :: s in rows ==> s in db.secrets && VersionId(s, db.secrets[s].currentVersion) in db.versions
    ensures var n := |rows| - 1;
            && rows[n] in rows
            && (PromoteItems(db, p, target, rows[..n]).Ok? ==>
                  PromoteItems(db, p, target, rows)
                  == Put(db, PromoteItems(db, p, target, rows[..n]).value, p, target, Promoted(db, rows[n])))
  {
    hide Put, Promoted;
    assert rows[|rows| - 1] in rows;
  }

  lemma PromotedRowSucceeds(db: Db, before: Db, p: Id, target: Id, s: Id, done: set<Text>)
    requires Valid(db) && s in db.secrets && VersionId(s, db.secrets[s].currentVersion) in db.versions
    requires Keeps(db, before) && Touches(db, before, target, done) && OpenEnvironment(db, p, target)
    requires db.secrets[s].key !in done && IsStoredKey(db.secrets[s].key)
    ensures Put(db, before, p, target, Promoted(db, s)).Ok?
  {
    RowIsStorable(db, s);
    KeyIsPromotable(db.secrets[s].key);
    hide Valid, Keeps, Touches, Put, IsStorable, ValidateKey, OpenEnvironment;
    PutSucceedsIff(db, before, p, target, Promoted(db, s), done);
  }

  lemma RowIsStorable(db: Db, s: Id)
    requires Valid(db) && s in db.secrets && VersionId(s, db.secrets[s].currentVersion) in db.versions
    ensures IsStorable(Promoted(db, s))
  {
    assert SecretOk(db, s) && IsStored(db.versions[VersionId(s, db.secrets[s].currentVersion)]);
    NormalizedNotesStay(db.secrets[s].notes);
  }

  lemma NamesAreNormalized(keys: seq<Text>, names: seq<Text>)
    ensures NormalizeKeys(Some(keys)) == Ok(Some(names)) <==>
              && 1 <= |keys| == |names| && Distinct(names)
              && forall i :: 0 <= i < |keys| ==> ValidateKey(keys[i], true) == Ok(names[i])
  {
    hide ValidateKey, ValidateKeys, Distinct;
    var inputs := seq(|keys|, i requires 0 <= i < |keys| => SetSecret(keys[i], [], None, true));
    KeysAreNormal(inputs, names);
  }

  /**
    A promotion is refused only for one environment twice, one that is not open, or a key that is bad, given twice or
    not there: whatever the source holds fits into the target.
   */
  lemma PromotionSucceedsIff(db: Db, p: Id, source: Id, target: Id, keys: Option<seq<Text>>, rows: seq<Id>)
    requires Valid(db) && Readable(db, source, keys, rows)
    ensures Promote(db, p, source, target, keys, rows).Ok? <==> CanPromote(db, p, source, target, keys)
  {
    hide Valid, OpenEnvironment, NormalizeKeys, PromoteItems, ExistingKeys, AreSourceKeys, IsSelection;
    ReadableIsSourced(db, source, keys, rows);
    hide Sourced, Readable;
    if OpenEnvironment(db, p, target) {
      PromotedItemsSucceed(db, p, source, target, rows);
    }
    NamesGiven(keys);
    if keys.Some? {
      SelectionIff(db, source, keys.value, rows);
    }
  }

  lemma NamesGiven(keys: Option<seq<Text>>)
    ensures NormalizeKeys(None) == Ok(None)
    ensures keys.Some? && NormalizeKeys(keys).Ok? ==> NormalizeKeys(keys).value.Some?
  {
    hide ValidateKeys, Distinct;
  }

  /** Every name was found among the rows that the query answers. */
  lemma SelectionIff(db: Db, source: Id, keys: seq<Text>, rows: seq<Id>)
    requires Readable(db, source, Some(keys), rows)
    ensures (exists names :: AreSourceKeys(db, source, keys, names)) <==>
              var normalized := NormalizeKeys(Some(keys));
              && normalized.Ok? && normalized.value.Some?
              && forall k :: k in normalized.value.value ==> exists s :: s in rows && s in db.secrets && db.secrets[s].key == k
  {
    hide NormalizeKeys, Distinct, ValidateKey;
    if names :| AreSourceKeys(db, source, keys, names) {
      NamesAreNormalized(keys, names);
      forall k | k in names ensures exists s :: s in rows && s in db.secrets && db.secrets[s].key == k {
        assert k in ExistingKeys(db, source);
        var s :| s in db.secrets && ActiveSecret(db, s) && db.secrets[s].environmentId == source && db.secrets[s].key == k;
        assert s in rows;
      }
    }
    var normalized := NormalizeKeys(Some(keys));
    if normalized.Ok? && normalized.value.Some?
       && forall k :: k in normalized.value.value ==> exists s :: s in rows && s in db.secrets && db.secrets[s].key == k {
      var names := normalized.value.value;
      NamesAreNormalized(keys, names);
      forall i | 0 <= i < |keys| ensures names[i] in ExistingKeys(db, source) {
        assert names[i] in names;
        var s :| s in rows && s in db.secrets && db.secrets[s].key == names[i];
      }
      assert AreSourceKeys(db, source, keys, names);
    }
  }
}
