/** What the runtime endpoint serves: a key has the value last written to it, from its creation until it is deleted. */
module RuntimeConfig {
  import opened Wrappers
  import opened Strings
  import opened Utf8
  import opened Database
  import opened Operations
  import opened Preservation
  import opened Hierarchy
  import opened Batches
  import opened WriteEffects
  import opened BatchEffects
  import T = Transactions
  import FrozenProjects
  import opened OperatorServer
  import TargetSecret

  // ---- one key of an environment ----

  ghost function Served(db: Db, e: Id, key: Text): Option<Text> {
    var content := Content(View(db, e));
    if key in content then Some(content[key]) else None
  }

  /** A row that is not deleted, and what its counter points to. */
  ghost predicate IsLiveRow(db: Db, e: Id, key: Text, value: Text, s: Id) {
    && s in db.secrets && db.secrets[s].environmentId == e && db.secrets[s].key == key
    && db.secrets[s].deletedAt == None
    && VersionId(s, db.secrets[s].currentVersion) in db.versions
    && db.versions[VersionId(s, db.secrets[s].currentVersion)] == value
  }

  /** A key is served with a value exactly if a row that is not deleted has that key and currently that value. */
  lemma ServedIffLive(db: Db, e: Id, key: Text, value: Text)
    requires Valid(db)
    ensures Served(db, e, key) == Some(value) <==> exists s :: IsLiveRow(db, e, key, value, s)
  {
    hide Valid;
    ContentIsView(db, e, key, value);
    hide Content;
    if exists s :: IsLiveRow(db, e, key, value, s) {
      var s :| IsLiveRow(db, e, key, value, s);
      assert (db.secrets[s].key, CurrentValue(db, s)) in View(db, e);
    }
    if (key, value) in View(db, e) {
      var s :| s in db.secrets && ActiveSecret(db, s) && db.secrets[s].environmentId == e
               && VersionId(s, db.secrets[s].currentVersion) in db.versions
               && (db.secrets[s].key, CurrentValue(db, s)) == (key, value);
      assert IsLiveRow(db, e, key, value, s);
    }
  }

  lemma NotServed(db: Db, e: Id, key: Text)
    requires Valid(db) && forall s, value :: !IsLiveRow(db, e, key, value, s)
    ensures Served(db, e, key) == None
  {
    hide Valid, IsLiveRow, Content;
    if Served(db, e, key).Some? {
      ServedIffLive(db, e, key, Served(db, e, key).value);
    }
  }

  /** All other keys, and all keys of other environments, are served as before. */
  ghost predicate OthersStay(a: Db, b: Db, e: Id, keys: set<Text>) {
    forall d, key :: d != e || key !in keys ==> Served(b, d, key) == Served(a, d, key)
  }

  lemma TouchedServes(a: Db, b: Db, e: Id, keys: set<Text>)
    requires Valid(a) && Keeps(a, b) && Touches(a, b, e, keys)
    ensures OthersStay(a, b, e, keys)
  {
    KeepsIsValid(a, b);
    KeepsEvolves(a, b);
    hide Valid, Keeps, Served;
    forall d, key | d != e || key !in keys ensures Served(b, d, key) == Served(a, d, key) {
      forall s, value ensures IsLiveRow(b, d, key, value, s) <==> IsLiveRow(a, d, key, value, s) {
        LiveRowStays(a, b, e, keys, d, key, value, s);
      }
      hide IsLiveRow, Touches, Evolves;
      SameLiveRows(a, b, d, d, key);
    }
  }

  lemma LiveRowStays(a: Db, b: Db, e: Id, keys: set<Text>, d: Id, key: Text, value: Text, s: Id)
    requires Evolves(a, b) && Touches(a, b, e, keys) && (d != e || key !in keys)
    requires Valid(a) && Valid(b)
    ensures IsLiveRow(b, d, key, value, s) <==> IsLiveRow(a, d, key, value, s)
  {
    assert VersionsOk(a) && VersionsOk(b);
    hide Valid, SecretOk, EnvironmentEvolves;
    if s in a.secrets && s in b.secrets {
      assert SecretEvolves(a, b, s);
    }
  }

  lemma SameLiveRows(a: Db, b: Db, d: Id, d': Id, key: Text)
    requires Valid(a) && Valid(b)
    requires forall s, value :: IsLiveRow(b, d', key, value, s) <==> IsLiveRow(a, d, key, value, s)
    ensures Served(b, d', key) == Served(a, d, key)
  {
    hide Valid, IsLiveRow, Served;
    if Served(a, d, key).Some? {
      ServedIffLive(a, d, key, Served(a, d, key).value);
      ServedIffLive(b, d', key, Served(a, d, key).value);
    } else if Served(b, d', key).Some? {
      ServedIffLive(a, d, key, Served(b, d', key).value);
      ServedIffLive(b, d', key, Served(b, d', key).value);
    }
  }

  // ---- after each request ----

  lemma LandedIsServed(db0: Db, b: Db, e: Id, input: SetSecret)
    requires Valid(b) && Landed(db0, b, e, input)
    ensures Served(b, e, input.key) == Some(StoredText(input.value))
    ensures IsWhole(input.value) ==> Served(b, e, input.key) == Some(input.value)
  {
    hide Valid, FindActive, ValidateNotes, Served;
    var s :| LandedAt(db0, b, e, input, s);
    assert IsLiveRow(b, e, input.key, StoredText(input.value), s);
    ServedIffLive(b, e, input.key, StoredText(input.value));
    StoredIsGivenIff(input.value);
  }

  /** After an update with a value the secret's key is served with that value, and every other key as before. */
  lemma UpdateIsServed(db: Db, s: Id, value: Text, notes: Given<Option<Text>>, expected: Given<nat>)
    requires Valid(db) && UpdateSecret(db, s, Some(value), notes, expected).Ok? && IsWhole(value)
    ensures s in db.secrets
    ensures var b, row := UpdateSecret(db, s, Some(value), notes, expected).value, db.secrets[s];
            Served(b, row.environmentId, row.key) == Some(value) && OthersStay(db, b, row.environmentId, {row.key})
  {
    hide Valid, UpdateSecret, Served, OthersStay, Touches, ValidateNotes, Keeps;
    T.UpdateSecretKeeps(db, s, Some(value), notes, expected);
    FrozenProjects.UpdateSecretTouches(db, s, Some(value), notes, expected);
    UpdateOutcome(db, s, Some(value), notes, expected);
    StoredIsGivenIff(value);
    var b, row := UpdateSecret(db, s, Some(value), notes, expected).value, db.secrets[s];
    KeepsIsValid(db, b);
    assert IsLiveRow(b, row.environmentId, row.key, value, s);
    ServedIffLive(b, row.environmentId, row.key, value);
    TouchedServes(db, b, row.environmentId, {row.key});
  }

  /** After a rollback the key is served with the plaintext recorded for the target version. */
  lemma RollbackIsServed(db: Db, s: Id, target: int, expected: Given<nat>)
    requires Valid(db) && Rollback(db, s, target, expected).Ok?
    ensures s in db.secrets && target >= 0 && VersionId(s, target) in db.versions
    ensures var b, row := Rollback(db, s, target, expected).value, db.secrets[s];
            && Served(b, row.environmentId, row.key) == Some(db.versions[VersionId(s, target)])
            && OthersStay(db, b, row.environmentId, {row.key})
  {
    hide Valid, Rollback, Served, OthersStay, Touches, Keeps;
    T.RollbackKeeps(db, s, target, expected);
    FrozenProjects.RollbackTouches(db, s, target, expected);
    RollbackOutcome(db, s, target, expected);
    var b, row := Rollback(db, s, target, expected).value, db.secrets[s];
    KeepsIsValid(db, b);
    assert IsLiveRow(b, row.environmentId, row.key, db.versions[VersionId(s, target)], s);
    ServedIffLive(b, row.environmentId, row.key, db.versions[VersionId(s, target)]);
    TouchedServes(db, b, row.environmentId, {row.key});
  }

  /** After a creation its key is served with its value. */
  lemma CreationIsServed(db: Db, p: Id, e: Id, input: SetSecret)
    requires Valid(db) && CreateSecret(db, p, e, input).Ok? && IsWhole(input.value)
    ensures ValidateKey(input.key, input.allowNonConforming).Ok?
    ensures var b, key := CreateSecret(db, p, e, input).value, ValidateKey(input.key, input.allowNonConforming).value;
            Served(b, e, key) == Some(input.value) && OthersStay(db, b, e, {key})
  {
    hide Valid, CreateSecret, Served, OthersStay, Touches, Keeps, ValidateKey, ValidateNotes;
    var key, notes := CreateSecretWrites(db, p, e, input);
    CreateSecretKeeps(db, p, e, input);
    StoredIsGivenIff(input.value);
    var b := CreateSecret(db, p, e, input).value;
    KeepsIsValid(db, b);
    CreatedIsLive(db, b, p, e, key, notes, input.value);
    ServedIffLive(b, e, key, input.value);
    TouchedServes(db, b, e, {key});
  }

  lemma CreatedIsLive(db: Db, b: Db, p: Id, e: Id, key: Text, notes: Option<Text>, value: Text)
    requires RowWritten(db, b, CreatedId(db, p, e, key), CreatedRow(db, p, e, key, notes), value)
    ensures IsLiveRow(b, e, key, value, CreatedId(db, p, e, key))
  {
  }

  /** After a deletion the secret's key is served no more. */
  lemma DeletedIsNotServed(db: Db, s: Id, now: Time)
    requires Valid(db) && DeleteSecret(db, s, now).Ok?
    ensures s in db.secrets
    ensures var b, row := DeleteSecret(db, s, now).value, db.secrets[s];
            Served(b, row.environmentId, row.key) == None && OthersStay(db, b, row.environmentId, {row.key})
  {
    hide Valid, Served, OthersStay, Touches, Keeps, UpdateSecrets;
    T.DeleteSecretKeeps(db, s, now);
    var b, row := DeleteSecret(db, s, now).value, db.secrets[s];
    FrozenProjects.RowUpdateTouches(db, s, row.(deletedAt := Some(now)));
    KeepsIsValid(db, b);
    OneRow(b, row.environmentId, row.key);
    DeletedRowIsDead(db, s, now);
    NotServed(b, row.environmentId, row.key);
    TouchedServes(db, b, row.environmentId, {row.key});
  }

  lemma DeletedRowIsDead(db: Db, s: Id, now: Time)
    requires DeleteSecret(db, s, now).Ok? && s in db.secrets
    requires var b, row := DeleteSecret(db, s, now).value, db.secrets[s];
             forall t, u :: IsRow(b, row.environmentId, row.key, t) && IsRow(b, row.environmentId, row.key, u) ==> t == u
    ensures var b, row := DeleteSecret(db, s, now).value, db.secrets[s];
            forall t, value :: !IsLiveRow(b, row.environmentId, row.key, value, t)
  {
    var b, row := DeleteSecret(db, s, now).value, db.secrets[s];
    assert IsRow(b, row.environmentId, row.key, s) && b.secrets[s].deletedAt == Some(now);
    hide DeleteSecret;
    forall t, value ensures !IsLiveRow(b, row.environmentId, row.key, value, t) {
      assert IsLiveRow(b, row.environmentId, row.key, value, t) ==> IsRow(b, row.environmentId, row.key, t);
    }
  }

  /** A deleted environment serves nothing, and every other environment what it did. */
  lemma DeletedEnvironmentServesNothing(db: Db, e: Id, confirm: bool, now: Time, recovery: Window)
    requires Valid(db) && DeleteEnvironment(db, e, confirm, now, recovery).Ok?
    ensures forall key :: Served(DeleteEnvironment(db, e, confirm, now, recovery).value, e, key) == None
    ensures forall d, key :: d != e ==>
              Served(DeleteEnvironment(db, e, confirm, now, recovery).value, d, key) == Served(db, d, key)
  {
    hide Valid, DeleteEnvironment, Served;
    var b := DeleteEnvironment(db, e, confirm, now, recovery).value;
    EnvironmentDeletionKeeps(db, b, e, confirm, now, recovery);
    forall key ensures Served(b, e, key) == None {
      EnvironmentRowsAreDead(db, b, e, now, recovery, key);
      NotServed(b, e, key);
    }
    forall d, key | d != e ensures Served(b, d, key) == Served(db, d, key) {
      EnvironmentRowsElsewhere(db, b, e, now, recovery, d, key);
      SameLiveRows(db, b, d, d, key);
    }
  }

  lemma EnvironmentDeletionKeeps(db: Db, b: Db, e: Id, confirm: bool, now: Time, recovery: Window)
    requires Valid(db) && DeleteEnvironment(db, e, confirm, now, recovery) == Ok(b)
    ensures Valid(b) && EnvironmentDeleted(db, b, e, now, recovery)
  {
    T.EnvironmentOpsKeep(db, T.OpDeleteEnvironment(e, confirm, now, recovery));
    DeleteEnvironmentResult(db, b, e, confirm, now, recovery);
    hide Valid, DeleteEnvironment, EnvironmentDeleted;
    KeepsIsValid(db, b);
  }

  lemma EnvironmentRowsAreDead(db: Db, b: Db, e: Id, now: Time, recovery: Window, key: Text)
    requires EnvironmentDeleted(db, b, e, now, recovery)
    ensures forall s, value :: !IsLiveRow(b, e, key, value, s)
  {
    forall s, value ensures !IsLiveRow(b, e, key, value, s) {
      if s in db.secrets {
        assert SecretIs(b, s, DropWithEnvironment(db.secrets[s], e, now));
      }
    }
  }

  lemma EnvironmentRowsElsewhere(db: Db, b: Db, e: Id, now: Time, recovery: Window, d: Id, key: Text)
    requires EnvironmentDeleted(db, b, e, now, recovery) && d != e
    ensures forall s, value :: IsLiveRow(b, d, key, value, s) <==> IsLiveRow(db, d, key, value, s)
  {
    forall s, value ensures IsLiveRow(b, d, key, value, s) <==> IsLiveRow(db, d, key, value, s) {
      if s in db.secrets {
        assert SecretIs(b, s, DropWithEnvironment(db.secrets[s], e, now));
      }
    }
  }

  /** The environments of a deleted project serve nothing, and those of every other project what they did. */
  lemma DeletedProjectServesNothing(db: Db, p: Id, now: Time, recovery: Window)
    requires Valid(db) && DeleteProject(db, p, now, recovery).Ok?
    ensures forall e, key :: e in db.environments ==>
              Served(DeleteProject(db, p, now, recovery).value, e, key)
              == if db.environments[e].projectId == p then None else Served(db, e, key)
  {
    hide Valid, DeleteProject, Served;
    var b := DeleteProject(db, p, now, recovery).value;
    ProjectDeletionKeeps(db, b, p, now, recovery);
    forall e, key | e in db.environments
      ensures Served(b, e, key) == if db.environments[e].projectId == p then None else Served(db, e, key)
    {
      ProjectRows(db, b, p, now, recovery, e, key);
      if db.environments[e].projectId == p {
        NotServed(b, e, key);
      } else {
        SameLiveRows(db, b, e, e, key);
      }
    }
  }

  lemma ProjectDeletionKeeps(db: Db, b: Db, p: Id, now: Time, recovery: Window)
    requires Valid(db) && DeleteProject(db, p, now, recovery) == Ok(b)
    ensures Valid(b) && ProjectDeleted(db, b, p, now, recovery) && FrozenProjects.Nested(db)
  {
    T.ProjectOpsKeep(db, T.OpDeleteProject(p, now, recovery));
    DeleteProjectResult(db, b, p, now, recovery);
    hide Valid, DeleteProject, ProjectDeleted;
    KeepsIsValid(db, b);
    FrozenProjects.ValidIsNested(db);
  }

  lemma ProjectRows(db: Db, b: Db, p: Id, now: Time, recovery: Window, e: Id, key: Text)
    requires ProjectDeleted(db, b, p, now, recovery) && FrozenProjects.Nested(db) && e in db.environments
    ensures forall s, value :: IsLiveRow(b, e, key, value, s) <==>
              db.environments[e].projectId != p && IsLiveRow(db, e, key, value, s)
  {
    forall s, value
      ensures IsLiveRow(b, e, key, value, s) <==> db.environments[e].projectId != p && IsLiveRow(db, e, key, value, s)
    {
      if s in db.secrets {
        assert SecretIs(b, s, DropSecret(db.secrets[s], p, now));
      }
    }
  }

  lemma BulkKeeps(db: Db, p: Id, e: Id, inputs: seq<SetSecret>)
    requires Valid(db) && BulkSet(db, p, e, inputs).Ok?
    ensures Keeps(db, BulkSet(db, p, e, inputs).value)
  {
    hide Valid, BulkSet, Keeps;
    T.BatchOpsKeep(db, T.OpBulkSet(p, e, inputs));
  }

  /** After a bulk write every key is served with its value, and all others as before. */
  lemma BulkIsServed(db: Db, p: Id, e: Id, inputs: seq<SetSecret>)
    requires Valid(db) && BulkSet(db, p, e, inputs).Ok? && forall i :: 0 <= i < |inputs| ==> IsWhole(inputs[i].value)
    ensures ValidateKeys(inputs).Ok?
    ensures var b, keys := BulkSet(db, p, e, inputs).value, ValidateKeys(inputs).value;
            && (forall i :: 0 <= i < |inputs| ==> Served(b, e, keys[i]) == Some(inputs[i].value))
            && OthersStay(db, b, e, KeySet(keys))
  {
    hide Valid, BulkSet, Served, OthersStay, Touches, Landed, ValidateKey, IsWhole, KeySet, Keeps;
    BulkOutcome(db, p, e, inputs);
    BulkKeeps(db, p, e, inputs);
    var b, keys := BulkSet(db, p, e, inputs).value, ValidateKeys(inputs).value;
    forall i | 0 <= i < |inputs| ensures Served(b, e, keys[i]) == Some(inputs[i].value) {
      LandedIsServed(db, b, e, inputs[i].(key := keys[i]));
    }
    TouchedServes(db, b, e, KeySet(keys));
  }

  /** After a promotion every selected key is served in the target with the value the source serves. */
  lemma PromotionIsServed(db: Db, p: Id, source: Id, target: Id, keys: Option<seq<Text>>, rows: seq<Id>, s: Id)
    requires Valid(db) && Readable(db, source, keys, rows) && Promote(db, p, source, target, keys, rows).Ok? && s in rows
    ensures s in db.secrets
    ensures var b, key := Promote(db, p, source, target, keys, rows).value, db.secrets[s].key;
            && Served(db, source, key).Some? && Served(b, target, key) == Served(db, source, key)
            && Served(b, source, key) == Served(db, source, key)
  {
    hide Valid, Promote, Readable, Served, Touches, Evolves, KeySet, RowKeys, Settled, FindActive;
    var b := Promote(db, p, source, target, keys, rows).value;
    PromotionOutcome(db, p, source, target, keys, rows);
    assert IsPromoted(db, b, target, s);
    var key, value := db.secrets[s].key, CurrentValue(db, s);
    assert Sourced(db, source, rows);
    assert IsLiveRow(db, source, key, value, s);
    var t :| IsRow(b, target, key, t) && ActiveSecret(b, t) && IsCurrent(b, t, value);
    assert IsLiveRow(b, target, key, value, t);
    ServedIffLive(db, source, key, value);
    ServedIffLive(b, target, key, value);
    SourceIsServed(db, b, source, key, value, s);
  }

  lemma SourceIsServed(db: Db, b: Db, source: Id, key: Text, value: Text, s: Id)
    requires Valid(b) && Evolves(db, b) && IsLiveRow(db, source, key, value, s)
    requires s in b.secrets && b.secrets[s] == db.secrets[s]
    ensures Served(b, source, key) == Some(value)
  {
    hide Valid, Served, EnvironmentEvolves;
    assert IsLiveRow(b, source, key, value, s);
    ServedIffLive(b, source, key, value);
  }

  /** What a preview of one secret announces, told from what the two environments serve. */
  lemma PreviewIffServed(db: Db, target: Id, s: Id)
    requires Valid(db) && ActiveSecret(db, s)
    ensures var item, row := PreviewItem(db, target, s), db.secrets[s];
            && item.key == row.key && item.sourceVersion == row.currentVersion
            && (item.overwrite <==> Served(db, target, row.key).Some?)
            && (item.changed <==> Served(db, target, row.key) != Served(db, row.environmentId, row.key))
  {
    hide Valid, Served, PreviewItem;
    var row := db.secrets[s];
    CurrentIsRecorded(db, s);
    assert IsLiveRow(db, row.environmentId, row.key, CurrentValue(db, s), s);
    ServedIffLive(db, row.environmentId, row.key, CurrentValue(db, s));
    var found := FindActive(db, target, row.key);
    if found == None {
      PreviewOfNew(db, target, s);
      NotServed(db, target, row.key) by {
        forall t, value ensures !IsLiveRow(db, target, row.key, value, t) {
          assert IsLiveRow(db, target, row.key, value, t) ==> IsRow(db, target, row.key, t) && ActiveSecret(db, t);
        }
      }
    } else {
      var t := found.value;
      PreviewOfOld(db, target, s, t);
      assert IsLiveRow(db, target, row.key, CurrentValue(db, t), t);
      ServedIffLive(db, target, row.key, CurrentValue(db, t));
    }
  }

  lemma CurrentIsRecorded(db: Db, s: Id)
    requires Valid(db) && s in db.secrets
    ensures VersionId(s, db.secrets[s].currentVersion) in db.versions
  {
    assert SecretOk(db, s);
  }

  // ---- the endpoint ----

  /** The If-None-Match header as the API reads it. */
  datatype Known = AnyVersion | Versions(versions: seq<nat>)

  datatype Answer = NotModified(version: nat) | Config(version: nat, secrets: TargetSecret.Strs)

  /** runtimeConfig; a version beyond the safe integers is an error of the server and not of a request. */
  ghost function Runtime(db: Db, p: Id, e: Id, known: Known): Result<Answer, Error> {
    if !OpenEnvironment(db, p, e) then Err(NotFound)
    else
      var version := db.environments[e].configVersion;
      if known.AnyVersion? || version in known.versions then Ok(NotModified(version))
      else Ok(Config(version, Content(View(db, e))))
  }

  /**
    Over any run: a client that was answered a configuration and later, naming its version, is told that nothing was
    modified, holds exactly what a full answer would hold now.
   */
  lemma NotModifiedIsCurrent(ops: seq<T.Op>, m: nat, n: nat, p: Id, e: Id, before: Known, held: Answer)
    requires m <= n <= |ops| && Runtime(T.Run(Empty, ops[..m]), p, e, before) == Ok(held) && held.Config?
    ensures Runtime(T.Run(Empty, ops[..n]), p, e, Versions([held.version])) == Ok(NotModified(held.version)) ==>
              Runtime(T.Run(Empty, ops[..n]), p, e, Versions([])) == Ok(held)
  {
    var a, b := T.Run(Empty, ops[..m]), T.Run(Empty, ops[..n]);
    hide T.Run, View, Content;
    if Runtime(b, p, e, Versions([held.version])) == Ok(NotModified(held.version)) {
      T.ConfigVersionNamesView(ops, m, n, e);
    }
  }
}
