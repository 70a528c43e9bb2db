/** What creations, rollbacks, imports and promotions leave behind. */
module WriteEffects {
  import opened Wrappers
  import opened Strings
  import opened Database
  import opened Operations
  import opened Preservation
  import opened Batches

  // ---- creation ----

  ghost predicate Acceptable(input: SetSecret) {
    && ValidateKey(input.key, input.allowNonConforming).Ok? && ValidateNotes(input.notes).Ok?
    && Utf8Length(input.value) <= 65536
  }

  lemma WriteVersionSucceeds(db: Db, s: Id, before: Secret, value: Text, notes: Given<Option<Text>>)
    requires ActiveSecret(db, s) && VersionId(s, before.currentVersion + 1) !in db.versions
    requires Utf8Length(value) <= 65536 && (notes.Some? ==> ValidateNotes(notes).Ok?)
    ensures WriteVersion(db, s, before, value, notes).Ok?
  {
  }

  lemma FreeKeyIsCreated(db: Db, p: Id, e: Id, input: SetSecret)
    requires Valid(db) && Acceptable(input) && OpenEnvironment(db, p, e)
    requires FindActive(db, e, ValidateKey(input.key, input.allowNonConforming).value) == None
    ensures CreateSecret(db, p, e, input).Ok?
  {
    hide Valid, ValidateKey, Utf8Length, ValidateNotes;
    var key, notes := ValidateKey(input.key, input.allowNonConforming).value, ValidateNotes(input.notes).value;
    DeletedIsRecoverable(db, p, e, key);
    NotesAreNormalized(input.notes);
    NormalizedNotesStay(notes);
    NoNextVersion(db);
    hide WriteVersion;
    match FindRecoverable(db, p, e, key)
    case Some(s) => ResurrectionSucceeds(db, s, input.value, notes);
    case None => InsertionSucceeds(db, Secret(p, e, key, notes, 0, None, None, None), input.value, notes);
  }

  lemma ResurrectionSucceeds(db: Db, s: Id, value: Text, notes: Option<Text>)
    requires s in db.secrets && VersionId(s, db.secrets[s].currentVersion + 1) !in db.versions
    requires Utf8Length(value) <= 65536 && ValidateNotes(Some(notes)).Ok?
    ensures WriteVersion(UpdateSecrets(db, db.secrets[s := db.secrets[s].(deletedAt := None)]), s, db.secrets[s], value,
                         Some(notes)).Ok?
  {
    hide Utf8Length, ValidateNotes, WriteVersion;
    WriteVersionSucceeds(UpdateSecrets(db, db.secrets[s := db.secrets[s].(deletedAt := None)]), s, db.secrets[s], value,
                         Some(notes));
  }

  lemma InsertionSucceeds(db: Db, row: Secret, value: Text, notes: Option<Text>)
    requires VersionId(db.nextId, 1) !in db.versions && row.currentVersion == 0 && row.deletedAt == None
    requires Utf8Length(value) <= 65536 && ValidateNotes(Some(notes)).Ok?
    ensures WriteVersion(InsertSecret(db, row), db.nextId, row, value, Some(notes)).Ok?
  {
    hide Utf8Length, ValidateNotes, WriteVersion;
    WriteVersionSucceeds(InsertSecret(db, row), db.nextId, row, value, Some(notes));
  }

  lemma TakenKeyIsRefused(db: Db, p: Id, e: Id, input: SetSecret)
    requires Valid(db) && Acceptable(input) && OpenEnvironment(db, p, e)
    requires FindActive(db, e, ValidateKey(input.key, input.allowNonConforming).value).Some?
    ensures CreateSecret(db, p, e, input) == Err(KeyExists)
  {
    hide Valid, ValidateKey, ValidateNotes, Utf8Length, WriteVersion, UpdateSecrets;
    var key := ValidateKey(input.key, input.allowNonConforming).value;
    OneRow(db, e, key);
    assert FindRecoverable(db, p, e, key) == None;
  }

  /** A row the key had before is active again, one version later. */
  ghost predicate Continues(db: Db, b: Db, e: Id, key: Text) {
    forall s :: IsRow(db, e, key, s) ==>
      s in b.secrets && b.secrets[s].currentVersion == db.secrets[s].currentVersion + 1 && b.secrets[s].deletedAt == None
  }

  /**
    In an open environment an acceptable secret can be created exactly when its key has no active row: a deleted
    row never blocks its key, and it continues its numbering.
   */
  lemma CreationOutcome(db: Db, p: Id, e: Id, input: SetSecret)
    requires Valid(db) && Acceptable(input) && OpenEnvironment(db, p, e)
    ensures var key := ValidateKey(input.key, input.allowNonConforming).value;
            CreateSecret(db, p, e, input).Ok? <==> FindActive(db, e, key) == None
    ensures CreateSecret(db, p, e, input).Err? ==> CreateSecret(db, p, e, input) == Err(KeyExists)
    ensures CreateSecret(db, p, e, input).Ok? ==>
              Continues(db, CreateSecret(db, p, e, input).value, e,
                        ValidateKey(input.key, input.allowNonConforming).value)
  {
    hide Valid, CreateSecret;
    if FindActive(db, e, ValidateKey(input.key, input.allowNonConforming).value) == None {
      FreeKeyIsCreated(db, p, e, input);
      CreatedRowIs(db, p, e, input);
    } else {
      TakenKeyIsRefused(db, p, e, input);
    }
  }

  lemma OneRow(db: Db, e: Id, key: Text)
    requires Valid(db)
    ensures forall s, t :: IsRow(db, e, key, s) && IsRow(db, e, key, t) ==> s == t
  {
  }

  lemma DeletedIsRecoverable(db: Db, p: Id, e: Id, key: Text)
    requires Valid(db) && OpenEnvironment(db, p, e)
    ensures forall s :: IsRow(db, e, key, s) && !ActiveSecret(db, s) ==> IsRecoverable(db, p, s)
  {
    forall s | IsRow(db, e, key, s) && !ActiveSecret(db, s) ensures IsRecoverable(db, p, s) {
      assert SecretOk(db, s) && EnvironmentOk(db, e);
    }
  }

  lemma NoNextVersion(db: Db)
    requires Valid(db)
    ensures forall s :: s in db.secrets ==> VersionId(s, db.secrets[s].currentVersion + 1) !in db.versions
    ensures VersionId(db.nextId, 1) !in db.versions
  {
    ValidIsTidy(db);
  }

  lemma RowIsRecovered(db: Db, p: Id, e: Id, input: SetSecret)
    requires CreateSecret(db, p, e, input).Ok? && ValidateKey(input.key, input.allowNonConforming).Ok?
    ensures var key := ValidateKey(input.key, input.allowNonConforming).value;
            FindRecoverable(db, p, e, key) == None ==> forall s :: !IsRow(db, e, key, s)
  {
    hide ValidateKey, WriteVersion;
  }

  lemma CreatedRowIs(db: Db, p: Id, e: Id, input: SetSecret)
    requires Valid(db) && CreateSecret(db, p, e, input).Ok? && ValidateKey(input.key, input.allowNonConforming).Ok?
    ensures Continues(db, CreateSecret(db, p, e, input).value, e, ValidateKey(input.key, input.allowNonConforming).value)
  {
    hide Valid, CreateSecret, ValidateKey;
    var key, notes := CreateSecretWrites(db, p, e, input);
    OneRow(db, e, key);
    RowIsRecovered(db, p, e, input);
  }

  // ---- rollback ----

  lemma VersionsThrough(db: Db, s: Id, v: int)
    requires Valid(db) && s in db.secrets
    ensures 1 <= v <= db.secrets[s].currentVersion ==>
              VersionId(s, v) in db.versions && IsStored(db.versions[VersionId(s, v)])
    ensures VersionId(s, db.secrets[s].currentVersion + 1) !in db.versions
  {
  }

  lemma ActiveIsOpen(db: Db, s: Id)
    requires Valid(db) && ActiveSecret(db, s)
    ensures OpenEnvironment(db, db.secrets[s].projectId, db.secrets[s].environmentId)
  {
    assert SecretOk(db, s) && EnvironmentOk(db, db.secrets[s].environmentId);
  }

  ghost predicate CanRollBack(db: Db, s: Id, target: int, expected: Given<nat>) {
    && ActiveSecret(db, s) && 1 <= target < db.secrets[s].currentVersion
    && (expected == None || expected.value == db.secrets[s].currentVersion)
  }

  /** The target's plaintext is the newest version, and nothing else in the secret's row or its history changed. */
  ghost predicate IsRollback(db: Db, b: Db, s: Id, target: int)
    requires s in db.secrets && target >= 0
  {
    var v := db.secrets[s].currentVersion;
    && VersionId(s, target) in db.versions
    && b.versions == db.versions[VersionId(s, v + 1) := db.versions[VersionId(s, target)]]
    && b.secrets == db.secrets[s := db.secrets[s].(currentVersion := v + 1)]
  }

  /**
    A rollback succeeds exactly for an active secret, the expected version (if given) and an earlier target; it
    appends a version equal to the target and changes nothing else in the secret's row or its history.
   */
  lemma RollbackOutcome(db: Db, s: Id, target: int, expected: Given<nat>)
    requires Valid(db)
    ensures Rollback(db, s, target, expected).Ok? <==> CanRollBack(db, s, target, expected)
    ensures Rollback(db, s, target, expected).Ok? ==>
              s in db.secrets && target >= 0 && IsRollback(db, Rollback(db, s, target, expected).value, s, target)
  {
    hide Valid, IsStored, WriteVersion;
    if ActiveSecret(db, s) {
      ActiveIsOpen(db, s);
      VersionsThrough(db, s, target);
      if 1 <= target < db.secrets[s].currentVersion {
        RewriteOutcome(db, s, db.versions[VersionId(s, target)]);
      }
    }
  }

  /** Writing a stored value again appends it as the next version and leaves the rest of the row. */
  lemma RewriteOutcome(db: Db, s: Id, value: Text)
    requires ActiveSecret(db, s) && VersionId(s, db.secrets[s].currentVersion + 1) !in db.versions && IsStored(value)
    ensures WriteVersion(db, s, db.secrets[s], value, None).Ok?
    ensures var b, v := WriteVersion(db, s, db.secrets[s], value, None).value, db.secrets[s].currentVersion;
            && b.versions == db.versions[VersionId(s, v + 1) := value]
            && b.secrets == db.secrets[s := db.secrets[s].(currentVersion := v + 1)]
  {
    WriteVersionSucceeds(db, s, db.secrets[s], value, None);
    WriteVersionWrites(db, s, db.secrets[s], value, None);
  }

  // ---- update ----

  lemma OneChange(db: Db, s: Id, row: Secret)
    requires s in db.secrets && row.environmentId == db.secrets[s].environmentId && row.environmentId in db.environments
    ensures UpdateSecrets(db, db.secrets[s := row]).environments[row.environmentId].configVersion
         == db.environments[row.environmentId].configVersion + if VersionOrLifeChanged(db.secrets[s], row) then 1 else 0
  {
    var changed := Changed(db.secrets, db.secrets[s := row], row.environmentId);
    assert changed == if VersionOrLifeChanged(db.secrets[s], row) then {s} else {};
  }

  /** The row an update leaves: only a replacement value advances its version. */
  function Updated(before: Secret, value: Given<Text>, notes: Option<Text>): Secret {
    before.(notes := notes, currentVersion := before.currentVersion + if value == None then 0 else 1)
  }

  ghost predicate CanUpdate(db: Db, s: Id, value: Given<Text>, notes: Given<Option<Text>>, expected: Given<nat>) {
    && ActiveSecret(db, s) && (expected == None || expected.value == db.secrets[s].currentVersion)
    && (notes == None || ValidateNotes(notes).Ok?) && (value == None || Utf8Length(value.value) <= 65536)
  }

  /** The one row and, for a replacement value, the one version that an update writes. */
  ghost predicate IsUpdate(db: Db, b: Db, s: Id, value: Given<Text>, notes: Given<Option<Text>>)
    requires s in db.secrets && (notes == None || ValidateNotes(notes).Ok?)
  {
    Advances(db, b, s, value, if notes == None then db.secrets[s].notes else ValidateNotes(notes).value)
  }

  ghost predicate Advances(db: Db, b: Db, s: Id, value: Given<Text>, notes: Option<Text>)
    requires s in db.secrets
  {
    var before := db.secrets[s];
    var e := before.environmentId;
    && b.secrets == db.secrets[s := Updated(before, value, notes)]
    && b.versions == (if value == None then db.versions
                      else db.versions[VersionId(s, before.currentVersion + 1) := StoredText(value.value)])
    && e in db.environments && e in b.environments
    && b.environments[e].configVersion == db.environments[e].configVersion + if value == None then 0 else 1
  }

  /**
    An update succeeds exactly for an active secret, the expected version (if given), a value that fits and notes
    that fit. A change of notes alone writes no version and leaves the config version, a new value raises both by one.
   */
  lemma UpdateOutcome(db: Db, s: Id, value: Given<Text>, notes: Given<Option<Text>>, expected: Given<nat>)
    requires Valid(db)
    ensures UpdateSecret(db, s, value, notes, expected).Ok? <==> CanUpdate(db, s, value, notes, expected)
    ensures UpdateSecret(db, s, value, notes, expected).Ok? ==>
              IsUpdate(db, UpdateSecret(db, s, value, notes, expected).value, s, value, notes)
  {
    if ActiveSecret(db, s) {
      ActiveIsOpen(db, s);
      VersionsThrough(db, s, 1);
      hide Valid, ValidateNotes, Utf8Length, StoredText;
      var before := db.secrets[s];
      if value == None {
        MetadataOutcome(db, s, notes, expected);
      } else {
        ValueOutcome(db, s, value.value, notes, expected);
      }
    }
  }

  lemma MetadataOutcome(db: Db, s: Id, notes: Given<Option<Text>>, expected: Given<nat>)
    requires ActiveSecret(db, s) && OpenEnvironment(db, db.secrets[s].projectId, db.secrets[s].environmentId)
    ensures UpdateSecret(db, s, None, notes, expected).Ok? <==> CanUpdate(db, s, None, notes, expected)
    ensures UpdateSecret(db, s, None, notes, expected).Ok? ==>
              IsUpdate(db, UpdateSecret(db, s, None, notes, expected).value, s, None, notes)
  {
    hide ValidateNotes;
    if CanUpdate(db, s, None, notes, expected) {
      var newNotes := if notes == None then db.secrets[s].notes else ValidateNotes(notes).value;
      OneChange(db, s, Updated(db.secrets[s], None, newNotes));
    }
  }

  lemma ValueOutcome(db: Db, s: Id, value: Text, notes: Given<Option<Text>>, expected: Given<nat>)
    requires ActiveSecret(db, s) && OpenEnvironment(db, db.secrets[s].projectId, db.secrets[s].environmentId)
    requires VersionId(s, db.secrets[s].currentVersion + 1) !in db.versions
    ensures UpdateSecret(db, s, Some(value), notes, expected).Ok? <==> CanUpdate(db, s, Some(value), notes, expected)
    ensures UpdateSecret(db, s, Some(value), notes, expected).Ok? ==>
              IsUpdate(db, UpdateSecret(db, s, Some(value), notes, expected).value, s, Some(value), notes)
  {
    hide ValidateNotes, Utf8Length, StoredText, UpdateSecrets, Advances;
    var row := db.secrets[s];
    if notes == None {
      ValueAdvances(db, s, value, row.notes);
    } else if ValidateNotes(notes).Ok? {
      ValueAdvances(db, s, value, ValidateNotes(notes).value);
    }
  }

  lemma ValueAdvances(db: Db, s: Id, value: Text, notes: Option<Text>)
    requires s in db.secrets && db.secrets[s].environmentId in db.environments
    ensures var row := db.secrets[s];
            var next := InsertVersion(db, VersionId(s, row.currentVersion + 1), StoredText(value));
            Advances(db, UpdateSecrets(next, db.secrets[s := Updated(row, Some(value), notes)]), s, Some(value), notes)
  {
    hide StoredText, Changed;
    var row := db.secrets[s];
    OneChange(InsertVersion(db, VersionId(s, row.currentVersion + 1), StoredText(value)), s,
              Updated(row, Some(value), notes));
  }

  // ---- one item of a batch ----

  ghost predicate IsCurrent(db: Db, s: Id, value: Text) {
    s in db.secrets && VersionId(s, db.secrets[s].currentVersion) in db.versions && CurrentValue(db, s) == value
  }

  /** The input has landed: its key has an active row with its value and notes, the row it had before if there was one. */
  ghost predicate LandedAt(db0: Db, db: Db, e: Id, input: SetSecret, s: Id) {
    && IsRow(db, e, input.key, s) && ActiveSecret(db, s) && IsCurrent(db, s, StoredText(input.value))
    && (FindActive(db0, e, input.key) == None ==> Ok(db.secrets[s].notes) == ValidateNotes(input.notes))
    && (FindActive(db0, e, input.key).Some? ==>
          && FindActive(db0, e, input.key).value == s
          && db.secrets[s].currentVersion == db0.secrets[s].currentVersion + 1
          && (if input.notes == None then db.secrets[s].notes == db0.secrets[s].notes
              else Ok(db.secrets[s].notes) == ValidateNotes(input.notes)))
  }

  ghost predicate Landed(db0: Db, db: Db, e: Id, input: SetSecret) { exists s :: LandedAt(db0, db, e, input, s) }

  lemma WrittenRowLands(db0: Db, a: Db, b: Db, e: Id, input: SetSecret, s: Id, row: Secret)
    requires RowWritten(a, b, s, row, StoredText(input.value))
    requires row.environmentId == e && row.key == input.key && row.deletedAt == None
    requires FindActive(db0, e, input.key) == None ==> Ok(row.notes) == ValidateNotes(input.notes)
    requires FindActive(db0, e, input.key).Some? ==>
               && FindActive(db0, e, input.key).value == s && row.currentVersion == db0.secrets[s].currentVersion + 1
               && (if input.notes == None then row.notes == db0.secrets[s].notes
                   else Ok(row.notes) == ValidateNotes(input.notes))
    ensures Landed(db0, b, e, input)
  {
    assert LandedAt(db0, b, e, input, s);
  }

  lemma CreateLands(db0: Db, db: Db, p: Id, e: Id, input: SetSecret)
    requires Valid(db) && FindActive(db0, e, input.key) == None && CreateSecret(db, p, e, input).Ok?
    requires ValidateKey(input.key, input.allowNonConforming) == Ok(input.key)
    ensures Landed(db0, CreateSecret(db, p, e, input).value, e, input)
  {
    var key, notes := CreateSecretWrites(db, p, e, input);
    hide Valid, CreateSecret, RowWritten;
    WrittenRowLands(db0, db, CreateSecret(db, p, e, input).value, e, input, CreatedId(db, p, e, key),
                    CreatedRow(db, p, e, key, notes));
  }

  lemma PutLands(db0: Db, db: Db, p: Id, e: Id, input: SetSecret, done: set<Text>)
    requires Keeps(db0, db) && Touches(db0, db, e, done) && input.key !in done
    requires ValidateKey(input.key, input.allowNonConforming) == Ok(input.key) && Put(db0, db, p, e, input).Ok?
    ensures Landed(db0, Put(db0, db, p, e, input).value, e, input)
  {
    hide Valid, Keeps, CreateSecret, WriteVersion, RowWritten, Landed, Touches;
    KeepsIsValid(db0, db);
    match FindActive(db0, e, input.key)
    case None => CreateLands(db0, db, p, e, input);
    case Some(s) =>
      StillAsRead(db0, db, e, done, input.key, s);
      WriteVersionWrites(db, s, db0.secrets[s], input.value, input.notes);
      WrittenRowLands(db0, db, Put(db0, db, p, e, input).value, e, input, s,
                      Rewritten(db0.secrets[s], db.secrets[s], input.notes));
  }

  /** Later writes to other keys leave it where it landed. */
  lemma LandedStays(db0: Db, a: Db, b: Db, e: Id, input: SetSecret, keys: set<Text>)
    requires Landed(db0, a, e, input) && Evolves(a, b) && Touches(a, b, e, keys) && input.key !in keys
    ensures Landed(db0, b, e, input)
  {
    var s :| LandedAt(db0, a, e, input, s);
    assert LandedAt(db0, b, e, input, s);
  }
}
