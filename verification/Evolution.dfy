/** Every transaction keeps row identity, recorded plaintexts and the meaning of config versions. */
module Evolution {
  import opened Wrappers
  import opened Strings
  import opened Database
  import opened Operations

  /** No two versions exist beyond the current one, and none at 0; holds between the statements of a transaction too. */
  ghost predicate Tidy(db: Db) {
    && (forall s :: s in db.secrets ==> s < db.nextId)
    && (forall id :: id in db.versions ==>
          id.secret in db.secrets && 1 <= id.version <= db.secrets[id.secret].currentVersion)
  }

  ghost predicate SameIdentity(a: map<Id, Secret>, b: map<Id, Secret>) {
    && a.Keys == b.Keys
    && forall s :: s in a ==>
         && a[s].projectId == b[s].projectId && a[s].environmentId == b[s].environmentId
         && a[s].key == b[s].key && a[s].currentVersion <= b[s].currentVersion
  }

  lemma UpdateEvolves(db: Db, rows: map<Id, Secret>)
    requires SameIdentity(db.secrets, rows)
    ensures Evolves(db, UpdateSecrets(db, rows))
  {
    var after := UpdateSecrets(db, rows);
    forall e | e in db.environments ensures EnvironmentEvolves(db, after, e) {
      if Changed(db.secrets, rows, e) == {} {
        forall s | s in db.secrets && db.secrets[s].environmentId == e
          ensures !VersionOrLifeChanged(db.secrets[s], rows[s])
        {
          assert s !in Changed(db.secrets, rows, e);
        }
        assert View(db, e) == View(after, e);
      }
    }
  }

  /** The other tables may change as long as config versions and parents do not. */
  lemma TablesEvolve(db: Db, projects: map<Id, Project>, environments: map<Id, Environment>, nextId: Id)
    requires db.projects.Keys <= projects.Keys && db.environments.Keys <= environments.Keys && db.nextId <= nextId
    requires forall e :: e in db.environments ==>
               && environments[e].configVersion == db.environments[e].configVersion
               && environments[e].projectId == db.environments[e].projectId
    ensures Evolves(db, db.(projects := projects, environments := environments, nextId := nextId))
  {
    var after := db.(projects := projects, environments := environments, nextId := nextId);
    forall e | e in db.environments ensures EnvironmentEvolves(db, after, e) {
      assert View(db, e) == View(after, e);
    }
  }

  lemma InsertVersionEvolves(db: Db, id: VersionId, value: Text)
    requires id !in db.versions
    requires id.secret in db.secrets ==> db.secrets[id.secret].currentVersion != id.version
    ensures Evolves(db, InsertVersion(db, id, value))
  {
    var after := InsertVersion(db, id, value);
    forall e | e in db.environments ensures EnvironmentEvolves(db, after, e) {
      assert View(db, e) == View(after, e);
    }
  }

  lemma InsertSecretEvolves(db: Db, row: Secret)
    requires Tidy(db) && row.currentVersion == 0
    ensures Evolves(db, InsertSecret(db, row)) && Tidy(InsertSecret(db, row))
  {
    var after := InsertSecret(db, row);
    assert db.nextId !in db.secrets && VersionId(db.nextId, 0) !in after.versions;
    forall e | e in db.environments ensures EnvironmentEvolves(db, after, e) {
      assert forall s :: s in db.secrets ==> after.secrets[s] == db.secrets[s];
      assert View(db, e) == View(after, e);
    }
  }

  /** A version row and the counter that names it. */
  lemma AdvanceEvolves(db: Db, s: Id, value: Text, notes: Option<Text>)
    requires Tidy(db) && s in db.secrets
    ensures var next := db.secrets[s].currentVersion + 1;
            var after := UpdateSecrets(InsertVersion(db, VersionId(s, next), value),
                                       db.secrets[s := db.secrets[s].(currentVersion := next, notes := notes)]);
            Evolves(db, after) && Tidy(after)
  {
    hide Evolves, Changed;
    var next := VersionId(s, db.secrets[s].currentVersion + 1);
    var rows := db.secrets[s := db.secrets[s].(currentVersion := next.version, notes := notes)];
    var db1 := InsertVersion(db, next, value);
    InsertVersionEvolves(db, next, value);
    UpdateEvolves(db1, rows);
    EvolvesTransitive(db, db1, UpdateSecrets(db1, rows));
  }

  lemma WriteVersionEvolves(db: Db, s: Id, before: Secret, value: Text, notes: Given<Option<Text>>)
    requires Tidy(db) && s in db.secrets && before.currentVersion == db.secrets[s].currentVersion
    ensures var r := WriteVersion(db, s, before, value, notes); r.Ok? ==> Evolves(db, r.value) && Tidy(r.value)
  {
    hide Evolves, Tidy, UpdateSecrets, ValidateNotes, Utf8Length, StoredText;
    AdvanceEvolves(db, s, StoredText(value), if notes == None then before.notes
                   else if ValidateNotes(notes).Ok? then ValidateNotes(notes).value else None);
  }

  lemma CreateSecretEvolves(db: Db, p: Id, e: Id, input: SetSecret)
    requires Tidy(db)
    ensures var r := CreateSecret(db, p, e, input); r.Ok? ==> Evolves(db, r.value) && Tidy(r.value)
  {
    hide Evolves, WriteVersion, ValidateKey, ValidateNotes, Changed;
    var r := CreateSecret(db, p, e, input);
    if r.Ok? {
      var key := ValidateKey(input.key, input.allowNonConforming).value;
      var notes := ValidateNotes(input.notes).value;
      match FindRecoverable(db, p, e, key)
      case Some(s) =>
        var rows := db.secrets[s := db.secrets[s].(deletedAt := None)];
        var db1 := UpdateSecrets(db, rows);
        UpdateEvolves(db, rows);
        WriteVersionEvolves(db1, s, db.secrets[s], input.value, Some(notes));
        EvolvesTransitive(db, db1, r.value);
      case None =>
        var row := Secret(p, e, key, notes, 0, None, None, None);
        var db1 := InsertSecret(db, row);
        InsertSecretEvolves(db, row);
        WriteVersionEvolves(db1, db.nextId, row, input.value, Some(notes));
        EvolvesTransitive(db, db1, r.value);
    }
  }
}
