/** Every transaction keeps the tables valid. */
module Preservation {
  import opened Wrappers
  import opened Strings
  import JsonString
  import opened Database
  import opened Operations
  import opened Evolution

  /** Environment rows agree except for their config versions. */
  ghost predicate SameEnvironments(a: map<Id, Environment>, b: map<Id, Environment>) {
    a.Keys == b.Keys && forall e :: e in a ==> b[e] == a[e].(configVersion := b[e].configVersion)
  }

  lemma ValidIsTidy(db: Db)
    requires Valid(db)
    ensures Tidy(db)
  {
    forall s | s in db.secrets ensures s < db.nextId { assert SecretOk(db, s); }
  }

  // ---- text forms ----

  lemma {:induction false} StoredIsStored(v: Text)
    ensures StoredText(StoredText(v)) == StoredText(v)
    ensures Utf8Length(StoredText(v)) == Utf8Length(v)
    ensures StoredText(v) != [] ==> !JsonString.IsTrail(StoredText(v)[0])
    decreases |v|
  {
    if v == [] {
    } else if JsonString.StartsWithPair(v) {
      StoredIsStored(v[2..]);
      assert StoredText(v)[2..] == StoredText(v[2..]);
    } else {
      StoredIsStored(v[1..]);
      assert StoredText(v)[1..] == StoredText(v[1..]);
    }
  }

  lemma {:induction false} TrimEndKeepsHead(t: Text)
    ensures TrimEnd(t) <= t && (TrimEnd(t) != [] ==> !IsSpace(TrimEnd(t)[|TrimEnd(t)| - 1]))
  {
    if t != [] && IsSpace(t[|t| - 1]) {
      TrimEndKeepsHead(t[..|t| - 1]);
    }
  }

  lemma {:induction false} TrimStartHead(t: Text)
    ensures TrimStart(t) != [] ==> !IsSpace(TrimStart(t)[0])
  {
    if t != [] && IsSpace(t[0]) {
      TrimStartHead(t[1..]);
    }
  }

  lemma TrimTwice(t: Text)
    ensures Trim(Trim(t)) == Trim(t)
  {
    var u := TrimStart(t);
    TrimStartHead(t);
    TrimEndKeepsHead(u);
    assert TrimStart(Trim(t)) == Trim(t);
  }

  lemma NotesAreNormalized(notes: Given<Option<Text>>)
    ensures ValidateNotes(notes).Ok? ==> IsNormalized(ValidateNotes(notes).value)
  {
    if notes.Some? && notes.value.Some? {
      TrimTwice(notes.value.value);
    }
  }

  lemma NormalizedNotesStay(notes: Option<Text>)
    requires IsNormalized(notes)
    ensures ValidateNotes(Some(notes)) == Ok(notes)
  {
  }

  // ---- one secret row with its new version ----

  ghost predicate RowWritten(a: Db, b: Db, s: Id, row: Secret, value: Text) {
    && b.projects == a.projects && SameEnvironments(a.environments, b.environments)
    && b.secrets == a.secrets[s := row]
    && (forall e :: e in a.environments && e != row.environmentId ==> b.environments[e] == a.environments[e])
    && b.versions == a.versions[VersionId(s, row.currentVersion) := value]
    && b.nextId == if s in a.secrets then a.nextId else a.nextId + 1
  }

  ghost predicate Writable(a: Db, s: Id, row: Secret) {
    && OpenEnvironment(a, row.projectId, row.environmentId) && IsNormalized(row.notes) && IsStoredKey(row.key)
    && row.deletedAt == None && row.byProject == None && row.byEnvironment == None
    && if s in a.secrets then
         && row.environmentId == a.secrets[s].environmentId && row.key == a.secrets[s].key
         && row.currentVersion == a.secrets[s].currentVersion + 1
       else s == a.nextId && row.currentVersion == 1 && forall t :: !IsRow(a, row.environmentId, row.key, t)
  }

  ghost predicate ParentsOk(db: Db) {
    && (forall p :: p in db.projects ==> ProjectOk(db, p))
    && (forall e :: e in db.environments ==> EnvironmentOk(db, e))
    && SlugsUnique(db)
  }

  lemma SameParentsOk(a: Db, b: Db)
    requires ParentsOk(a) && b.projects == a.projects && SameEnvironments(a.environments, b.environments)
    requires a.nextId <= b.nextId
    ensures ParentsOk(b)
  {
    forall p | p in b.projects ensures ProjectOk(b, p) {
      assert ProjectOk(a, p);
      var e :| Holds(a, p, e);
      assert Holds(b, p, e);
    }
    forall e | e in b.environments ensures EnvironmentOk(b, e) { assert EnvironmentOk(a, e); }
  }

  lemma RowWrittenSecretsOk(a: Db, b: Db, s: Id, row: Secret, value: Text)
    requires Valid(a) && Writable(a, s, row) && RowWritten(a, b, s, row, value)
    ensures forall t :: t in b.secrets ==> SecretOk(b, t)
  {
    assert s in a.secrets ==> SecretOk(a, s);
    forall t | t in b.secrets ensures SecretOk(b, t) { assert t != s ==> SecretOk(a, t); }
  }

  lemma RowWrittenVersionsOk(a: Db, b: Db, s: Id, row: Secret, value: Text)
    requires VersionsOk(a) && Writable(a, s, row) && IsStored(value) && RowWritten(a, b, s, row, value)
    ensures VersionsOk(b)
  {
  }

  lemma RowWrittenIsValid(a: Db, b: Db, s: Id, row: Secret, value: Text)
    requires Valid(a) && Writable(a, s, row) && IsStored(value) && RowWritten(a, b, s, row, value)
    ensures Valid(b)
  {
    SameParentsOk(a, b);
    RowWrittenSecretsOk(a, b, s, row, value);
    RowWrittenVersionsOk(a, b, s, row, value);
    RowKeepsKeysUnique(a, b, s, row, value);
  }

  lemma RowKeepsKeysUnique(a: Db, b: Db, s: Id, row: Secret, value: Text)
    requires KeysUnique(a) && Writable(a, s, row) && RowWritten(a, b, s, row, value)
    ensures KeysUnique(b)
  {
    forall t, u | t in b.secrets && IsRow(b, b.secrets[t].environmentId, b.secrets[t].key, u) ensures t == u {
      if t in a.secrets {
        assert u in a.secrets ==> IsRow(a, a.secrets[t].environmentId, a.secrets[t].key, u);
        assert u !in a.secrets ==> IsRow(a, row.environmentId, row.key, t);
      } else if u in a.secrets {
        assert IsRow(a, row.environmentId, row.key, u);
      }
    }
  }

  /** The row #writeVersion leaves behind. */
  function Rewritten(before: Secret, current: Secret, notes: Given<Option<Text>>): Secret {
    current.(currentVersion := before.currentVersion + 1,
             notes := if notes == None then before.notes
                      else if ValidateNotes(notes).Ok? then ValidateNotes(notes).value else None)
  }

  /** Only the environment of the one changed row can get a new config version. */
  lemma UpdateOneRow(db: Db, s: Id, row: Secret)
    ensures var b := UpdateSecrets(db, db.secrets[s := row]);
            && SameEnvironments(db.environments, b.environments)
            && forall e :: e in db.environments && e != row.environmentId ==> b.environments[e] == db.environments[e]
  {
    forall e | e in db.environments && e != row.environmentId ensures Changed(db.secrets, db.secrets[s := row], e) == {} {
    }
  }

  lemma WriteVersionWrites(db: Db, s: Id, before: Secret, value: Text, notes: Given<Option<Text>>)
    requires WriteVersion(db, s, before, value, notes).Ok?
    ensures ActiveSecret(db, s) && IsStored(StoredText(value))
    ensures RowWritten(db, WriteVersion(db, s, before, value, notes).value, s,
                       Rewritten(before, db.secrets[s], notes), StoredText(value))
    ensures notes.Some? ==> ValidateNotes(notes).Ok?
    ensures Utf8Length(value) <= 65536 && VersionId(s, before.currentVersion + 1) !in db.versions
  {
    StoredIsStored(value);
    UpdateOneRow(InsertVersion(db, VersionId(s, before.currentVersion + 1), StoredText(value)), s,
                 Rewritten(before, db.secrets[s], notes));
  }

  lemma WriteVersionValid(db: Db, s: Id, value: Text, notes: Given<Option<Text>>)
    requires Valid(db) && ActiveSecret(db, s) && WriteVersion(db, s, db.secrets[s], value, notes).Ok?
    ensures Valid(WriteVersion(db, s, db.secrets[s], value, notes).value)
  {
    assert SecretOk(db, s) && EnvironmentOk(db, db.secrets[s].environmentId);
    NotesAreNormalized(notes);
    WriteVersionWrites(db, s, db.secrets[s], value, notes);
    RowWrittenIsValid(db, WriteVersion(db, s, db.secrets[s], value, notes).value, s,
                      Rewritten(db.secrets[s], db.secrets[s], notes), StoredText(value));
  }

  /** The row a creation writes to: a deleted row of that key if there is one, else a new one. */
  ghost function CreatedId(db: Db, p: Id, e: Id, key: Text): Id {
    match FindRecoverable(db, p, e, key)
    case Some(s) => s
    case None => db.nextId
  }

  ghost function CreatedRow(db: Db, p: Id, e: Id, key: Text, notes: Option<Text>): Secret {
    match FindRecoverable(db, p, e, key)
    case Some(s) => db.secrets[s].(deletedAt := None, currentVersion := db.secrets[s].currentVersion + 1, notes := notes)
    case None => Secret(p, e, key, notes, 1, None, None, None)
  }

  /** Key and notes as a creation will store them. */
  ghost predicate Accepted(input: SetSecret, key: Text, notes: Option<Text>) {
    ValidateKey(input.key, input.allowNonConforming) == Ok(key) && ValidateNotes(input.notes) == Ok(notes)
  }

  lemma ResurrectionWrites(db: Db, p: Id, e: Id, input: SetSecret, key: Text, notes: Option<Text>)
    requires Tidy(db) && CreateSecret(db, p, e, input).Ok? && Accepted(input, key, notes) && IsNormalized(notes)
    requires FindRecoverable(db, p, e, key).Some?
    ensures RowWritten(db, CreateSecret(db, p, e, input).value, CreatedId(db, p, e, key),
                       CreatedRow(db, p, e, key, notes), StoredText(input.value))
  {
    hide WriteVersion;
    var s := FindRecoverable(db, p, e, key).value;
    ResurrectedRow(db, s, input.value, notes);
  }

  /** The two statements of a resurrection write one row and one version. */
  lemma ResurrectedRow(db: Db, s: Id, value: Text, notes: Option<Text>)
    requires Tidy(db) && s in db.secrets && db.secrets[s].deletedAt.Some? && IsNormalized(notes)
    requires db.secrets[s].byProject == None && db.secrets[s].byEnvironment == None
    requires WriteVersion(UpdateSecrets(db, db.secrets[s := db.secrets[s].(deletedAt := None)]), s, db.secrets[s], value,
                          Some(notes)).Ok?
    ensures var before := db.secrets[s];
            var db1 := UpdateSecrets(db, db.secrets[s := before.(deletedAt := None)]);
            var row := before.(deletedAt := None, notes := notes, currentVersion := before.currentVersion + 1);
            RowWritten(db, WriteVersion(db1, s, before, value, Some(notes)).value, s, row, StoredText(value))
  {
    NormalizedNotesStay(notes);
    hide IsNormalized, WriteVersion;
    var db1 := UpdateSecrets(db, db.secrets[s := db.secrets[s].(deletedAt := None)]);
    UpdateOneRow(db, s, db.secrets[s].(deletedAt := None));
    hide UpdateSecrets;
    WriteVersionWrites(db1, s, db.secrets[s], value, Some(notes));
    var row := Rewritten(db.secrets[s], db1.secrets[s], Some(notes));
    assert db1.secrets[s := row] == db.secrets[s := row];
  }

  lemma InsertionWrites(db: Db, p: Id, e: Id, input: SetSecret, key: Text, notes: Option<Text>)
    requires Tidy(db) && CreateSecret(db, p, e, input).Ok? && Accepted(input, key, notes) && IsNormalized(notes)
    requires FindRecoverable(db, p, e, key) == None
    ensures RowWritten(db, CreateSecret(db, p, e, input).value, CreatedId(db, p, e, key),
                       CreatedRow(db, p, e, key, notes), StoredText(input.value))
  {
    hide WriteVersion, ValidateKey, ValidateNotes, Utf8Length, StoredText;
    var row := Secret(p, e, key, notes, 0, None, None, None);
    var db1 := InsertSecret(db, row);
    assert db.nextId !in db.secrets;
    NormalizedNotesStay(notes);
    hide IsNormalized;
    WriteVersionWrites(db1, db.nextId, row, input.value, Some(notes));
    var row' := Rewritten(row, row, Some(notes));
    assert db1.secrets[db.nextId := row'] == db.secrets[db.nextId := row'];
  }

  lemma CreatedIsWritable(db: Db, p: Id, e: Id, input: SetSecret, key: Text, notes: Option<Text>)
    requires Valid(db) && CreateSecret(db, p, e, input).Ok? && Accepted(input, key, notes) && IsNormalized(notes)
    ensures Writable(db, CreatedId(db, p, e, key), CreatedRow(db, p, e, key, notes))
  {
    hide WriteVersion, Utf8Length, StoredText, Trim, NoForbidden, IsConventional, ValidateNotes, IsNormalized;
    ValidIsTidy(db);
    TrimTwice(input.key);
    if FindRecoverable(db, p, e, key).Some? {
      assert SecretOk(db, CreatedId(db, p, e, key));
    }
  }

  lemma CreateSecretWrites(db: Db, p: Id, e: Id, input: SetSecret) returns (key: Text, notes: Option<Text>)
    requires Valid(db) && CreateSecret(db, p, e, input).Ok?
    ensures Accepted(input, key, notes) && OpenEnvironment(db, p, e) && IsStored(StoredText(input.value))
    ensures RowWritten(db, CreateSecret(db, p, e, input).value, CreatedId(db, p, e, key),
                       CreatedRow(db, p, e, key, notes), StoredText(input.value))
    ensures Writable(db, CreatedId(db, p, e, key), CreatedRow(db, p, e, key, notes))
  {
    hide Valid, Tidy;
    key, notes := ValidateKey(input.key, input.allowNonConforming).value, ValidateNotes(input.notes).value;
    NotesAreNormalized(input.notes);
    CreatedIsWritable(db, p, e, input, key, notes);
    ValidIsTidy(db);
    StoredIsStored(input.value);
    if FindRecoverable(db, p, e, key) == None {
      InsertionWrites(db, p, e, input, key, notes);
    } else {
      ResurrectionWrites(db, p, e, input, key, notes);
    }
  }

  lemma CreateSecretValid(db: Db, p: Id, e: Id, input: SetSecret)
    requires Valid(db) && CreateSecret(db, p, e, input).Ok?
    ensures Valid(CreateSecret(db, p, e, input).value)
  {
    var key, notes := CreateSecretWrites(db, p, e, input);
    RowWrittenIsValid(db, CreateSecret(db, p, e, input).value, CreatedId(db, p, e, key), CreatedRow(db, p, e, key, notes),
                      StoredText(input.value));
  }
}
