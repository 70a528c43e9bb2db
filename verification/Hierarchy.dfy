/** Deleting and restoring projects and environments: validity is kept, and restoring undoes deleting exactly. */
module Hierarchy {
  import opened Wrappers
  import opened Strings
  import opened Database
  import opened Operations
  import opened Evolution
  import opened Preservation

  /** The secrets table changed in nothing but life cycle columns and notes. */
  ghost predicate SameHistory(a: Db, b: Db) {
    && b.secrets.Keys == a.secrets.Keys && b.versions == a.versions
    && forall s :: s in a.secrets ==>
         && b.secrets[s].projectId == a.secrets[s].projectId && b.secrets[s].environmentId == a.secrets[s].environmentId
         && b.secrets[s].key == a.secrets[s].key && b.secrets[s].currentVersion == a.secrets[s].currentVersion
  }

  lemma SameHistoryOk(a: Db, b: Db)
    requires SameHistory(a, b) && KeysUnique(a) && VersionsOk(a)
    ensures KeysUnique(b) && VersionsOk(b)
  {
    forall s, t | s in b.secrets && IsRow(b, b.secrets[s].environmentId, b.secrets[s].key, t) ensures s == t {
      assert IsRow(a, a.secrets[s].environmentId, a.secrets[s].key, t);
    }
  }

  // ---- creation ----

  /** Only new projects and environments were added. */
  ghost predicate Grown(a: Db, b: Db) {
    && b.secrets == a.secrets && b.versions == a.versions && a.nextId <= b.nextId
    && (forall p :: p in a.projects ==> p in b.projects && b.projects[p] == a.projects[p])
    && (forall e :: e in a.environments ==> e in b.environments && b.environments[e] == a.environments[e])
  }

  lemma GrownOk(a: Db, b: Db)
    requires Valid(a) && Grown(a, b)
    ensures forall p :: p in a.projects ==> ProjectOk(b, p)
    ensures forall e :: e in a.environments ==> EnvironmentOk(b, e)
    ensures forall s :: s in a.secrets ==> SecretOk(b, s)
  {
    forall p | p in a.projects ensures ProjectOk(b, p) {
      assert ProjectOk(a, p);
      var e :| Holds(a, p, e);
      assert Holds(b, p, e);
    }
    forall e | e in a.environments ensures EnvironmentOk(b, e) { assert EnvironmentOk(a, e); }
    forall s | s in a.secrets ensures SecretOk(b, s) { assert SecretOk(a, s); }
  }

  lemma GrownValid(a: Db, b: Db)
    requires Valid(a) && Grown(a, b) && SlugsUnique(b)
    requires forall p :: p in b.projects && p !in a.projects ==> ProjectOk(b, p)
    requires forall e :: e in b.environments && e !in a.environments ==> EnvironmentOk(b, e)
    ensures Valid(b) && Evolves(a, b)
  {
    GrownOk(a, b);
    assert SameHistory(a, b);
    SameHistoryOk(a, b);
    TablesEvolve(a, b.projects, b.environments, b.nextId);
  }

  lemma DefaultSlugsUnique(a: Db, b: Db, p: Id, slug: Text, slugs: seq<Text>)
    requires SlugsUnique(a) && Distinct(slugs) && !ProjectSlugTaken(a, slug)
    requires b.projects == a.projects[p := Project(slug, None, None)]
    requires forall e :: e in a.environments ==> a.environments[e].projectId != p
    requires b.environments == a.environments + DefaultEnvironments(p, slugs)
    ensures SlugsUnique(b)
  {
    forall d, e | d in b.environments && e in b.environments
      && b.environments[d].projectId == b.environments[e].projectId && b.environments[d].slug == b.environments[e].slug
      ensures d == e
    {
      if d in DefaultEnvironments(p, slugs) && e in DefaultEnvironments(p, slugs) {
        assert slugs[d - p - 1] == slugs[e - p - 1];
      }
    }
  }

  lemma CreateProjectValid(db: Db, slug: Text, slugs: seq<Text>)
    requires Valid(db) && CreateProject(db, slug, slugs).Ok?
    ensures Valid(CreateProject(db, slug, slugs).value) && Evolves(db, CreateProject(db, slug, slugs).value)
  {
    hide ProjectOk, EnvironmentOk, SecretOk, SlugsUnique, Evolves, Valid, Distinct, ProjectSlugTaken;
    var b := CreateProject(db, slug, slugs).value;
    var p := db.nextId;
    IdsAreUsed(db);
    NewProjectOk(db, b, p, slug, slugs);
    DefaultSlugsUnique(db, b, p, slug, slugs);
    GrownValid(db, b);
  }

  lemma IdsAreUsed(db: Db)
    requires Valid(db)
    ensures SlugsUnique(db)
    ensures forall p :: p in db.projects ==> p < db.nextId
    ensures forall e :: e in db.environments ==> e < db.nextId && db.environments[e].projectId in db.projects
  {
    forall p | p in db.projects ensures p < db.nextId { assert ProjectOk(db, p); }
    forall e | e in db.environments ensures e < db.nextId && db.environments[e].projectId in db.projects {
      assert EnvironmentOk(db, e);
    }
  }

  lemma NewProjectOk(db: Db, b: Db, p: Id, slug: Text, slugs: seq<Text>)
    requires CreateProject(db, slug, slugs) == Ok(b) && p == db.nextId
    ensures ProjectOk(b, p) && forall e :: e in b.environments && e !in db.environments ==> EnvironmentOk(b, e)
  {
    hide Distinct, IsSlug;
    assert ProjectOk(b, p) by { assert Holds(b, p, p + 1); }
    forall e | e in b.environments && e !in db.environments ensures EnvironmentOk(b, e) {
      assert e in DefaultEnvironments(p, slugs);
    }
  }

  lemma CreateEnvironmentValid(db: Db, p: Id, slug: Text)
    requires Valid(db) && CreateEnvironment(db, p, slug).Ok?
    ensures Valid(CreateEnvironment(db, p, slug).value) && Evolves(db, CreateEnvironment(db, p, slug).value)
  {
    hide ProjectOk, SecretOk, Valid, Evolves, ActiveEnvironments, IsSlug;
    var b := CreateEnvironment(db, p, slug).value;
    IdsAreUsed(db);
    GrownValid(db, b);
  }

  // ---- deletion and restoration ----

  /** Tags and life cycle columns changed, and nothing else but config versions. */
  ghost predicate Retagged(a: Db, b: Db) {
    && SameHistory(a, b) && b.projects.Keys == a.projects.Keys && b.environments.Keys == a.environments.Keys
    && b.nextId == a.nextId && (forall p :: p in a.projects ==> b.projects[p].slug == a.projects[p].slug)
    && forall e :: e in a.environments ==>
         b.environments[e].projectId == a.environments[e].projectId && b.environments[e].slug == a.environments[e].slug
  }

  lemma RetaggedValid(a: Db, b: Db)
    requires Valid(a) && Retagged(a, b)
    requires forall p :: p in b.projects ==> ProjectOk(b, p)
    requires forall e :: e in b.environments ==> EnvironmentOk(b, e)
    requires forall s :: s in b.secrets ==> SecretOk(b, s)
    ensures Valid(b)
  {
    SameHistoryOk(a, b);
    forall d, e | d in b.environments && e in b.environments
      && b.environments[d].projectId == b.environments[e].projectId && b.environments[d].slug == b.environments[e].slug
      ensures d == e
    {
      assert a.environments[d].slug == a.environments[e].slug;
    }
  }

  /** The rows after each of the four transactions, up to config versions. */
  ghost predicate EnvironmentIs(b: Db, e: Id, row: Environment) {
    e in b.environments && b.environments[e] == row.(configVersion := b.environments[e].configVersion)
  }

  ghost predicate SecretIs(b: Db, s: Id, row: Secret) { s in b.secrets && b.secrets[s] == row }

  ghost predicate ProjectDeleted(a: Db, b: Db, p: Id, now: Time, recovery: Window) {
    && p in a.projects && Retagged(a, b) && b.projects == a.projects[p := DropProject(a.projects[p], now, recovery)]
    && (forall e :: e in a.environments ==> EnvironmentIs(b, e, DropEnvironment(a.environments[e], p, now)))
    && (forall s :: s in a.secrets ==> SecretIs(b, s, DropSecret(a.secrets[s], p, now)))
  }

  ghost predicate ProjectRestored(a: Db, b: Db, p: Id) {
    && p in a.projects && Retagged(a, b) && b.projects == a.projects[p := LiftProject(a.projects[p])]
    && var t := a.projects[p].deletedAt;
    && (forall e :: e in a.environments ==> EnvironmentIs(b, e, LiftEnvironment(a.environments[e], p, t)))
    && (forall s :: s in a.secrets ==> SecretIs(b, s, LiftSecret(a.secrets[s], p, t)))
  }

  ghost predicate EnvironmentDeleted(a: Db, b: Db, e: Id, now: Time, recovery: Window) {
    && e in a.environments && Retagged(a, b) && b.projects == a.projects
    && EnvironmentIs(b, e, a.environments[e].(deletedAt := Some(now), purgeAfter := Some(now + recovery)))
    && (forall d :: d in a.environments && d != e ==> EnvironmentIs(b, d, a.environments[d]))
    && (forall s :: s in a.secrets ==> SecretIs(b, s, DropWithEnvironment(a.secrets[s], e, now)))
  }

  ghost predicate EnvironmentRestored(a: Db, b: Db, e: Id) {
    && e in a.environments && Retagged(a, b) && b.projects == a.projects
    && EnvironmentIs(b, e, a.environments[e].(deletedAt := None, purgeAfter := None))
    && (forall d :: d in a.environments && d != e ==> EnvironmentIs(b, d, a.environments[d]))
    && (forall s :: s in a.secrets ==> SecretIs(b, s, LiftWithEnvironment(a.secrets[s], e, a.environments[e].deletedAt)))
  }

  lemma DeleteProjectResult(a: Db, b: Db, p: Id, now: Time, recovery: Window)
    requires DeleteProject(a, p, now, recovery) == Ok(b)
    ensures ProjectDeleted(a, b, p, now, recovery)
  {
    hide Changed;
    assert forall e :: e in a.environments ==> EnvironmentIs(b, e, DropEnvironment(a.environments[e], p, now));
  }

  lemma DeleteProjectEvolves(a: Db, b: Db, p: Id, now: Time, recovery: Window)
    requires DeleteProject(a, p, now, recovery) == Ok(b)
    ensures Evolves(a, b)
  {
    hide Evolves;
    RetagEvolves(a, a.projects[p := DropProject(a.projects[p], now, recovery)],
                 map e | e in a.environments :: DropEnvironment(a.environments[e], p, now),
                 map s | s in a.secrets :: DropSecret(a.secrets[s], p, now));
  }

  lemma RestoreProjectResult(a: Db, b: Db, p: Id, now: Time)
    requires RestoreProject(a, p, now) == Ok(b)
    ensures ProjectRestored(a, b, p)
  {
    hide Changed;
    var t := a.projects[p].deletedAt;
    assert forall e :: e in a.environments ==> EnvironmentIs(b, e, LiftEnvironment(a.environments[e], p, t));
  }

  lemma RestoreProjectEvolves(a: Db, b: Db, p: Id, now: Time)
    requires RestoreProject(a, p, now) == Ok(b)
    ensures Evolves(a, b)
  {
    hide Evolves;
    var t := a.projects[p].deletedAt;
    RetagEvolves(a, a.projects[p := LiftProject(a.projects[p])],
                 map e | e in a.environments :: LiftEnvironment(a.environments[e], p, t),
                 map s | s in a.secrets :: LiftSecret(a.secrets[s], p, t));
  }

  lemma DeleteEnvironmentResult(a: Db, b: Db, e: Id, confirm: bool, now: Time, recovery: Window)
    requires DeleteEnvironment(a, e, confirm, now, recovery) == Ok(b)
    ensures EnvironmentDeleted(a, b, e, now, recovery)
  {
    hide Changed;
  }

  lemma DeleteEnvironmentEvolves(a: Db, b: Db, e: Id, confirm: bool, now: Time, recovery: Window)
    requires DeleteEnvironment(a, e, confirm, now, recovery) == Ok(b)
    ensures Evolves(a, b)
  {
    hide Evolves;
    var row := a.environments[e].(deletedAt := Some(now), purgeAfter := Some(now + recovery));
    RetagEvolves(a, a.projects, a.environments[e := row],
                 map s | s in a.secrets :: DropWithEnvironment(a.secrets[s], e, now));
  }

  lemma RestoreEnvironmentResult(a: Db, b: Db, e: Id, now: Time)
    requires RestoreEnvironment(a, e, now) == Ok(b)
    ensures EnvironmentRestored(a, b, e)
  {
    hide Changed;
  }

  lemma RestoreEnvironmentEvolves(a: Db, b: Db, e: Id, now: Time)
    requires RestoreEnvironment(a, e, now) == Ok(b)
    ensures Evolves(a, b)
  {
    hide Evolves;
    var env := a.environments[e];
    RetagEvolves(a, a.projects, a.environments[e := env.(deletedAt := None, purgeAfter := None)],
                 map s | s in a.secrets :: LiftWithEnvironment(a.secrets[s], e, env.deletedAt));
  }

  lemma ProjectDeletedProjectOk(a: Db, b: Db, p: Id, now: Time, recovery: Window, q: Id)
    requires Valid(a) && ActiveProject(a, p) && ProjectDeleted(a, b, p, now, recovery)
    requires q in a.projects
    ensures ProjectOk(b, q)
  {
    assert ProjectOk(a, q);
    var e :| Holds(a, q, e);
    assert EnvironmentIs(b, e, DropEnvironment(a.environments[e], p, now));
    assert Holds(b, q, e);
  }

  lemma ProjectDeletedEnvironmentOk(a: Db, b: Db, p: Id, now: Time, recovery: Window, d: Id)
    requires Valid(a) && ActiveProject(a, p) && ProjectDeleted(a, b, p, now, recovery)
    requires d in a.environments
    ensures EnvironmentOk(b, d)
  {
    assert EnvironmentOk(a, d) && EnvironmentIs(b, d, DropEnvironment(a.environments[d], p, now));
  }

  lemma ProjectDeletedSecretOk(a: Db, b: Db, p: Id, now: Time, recovery: Window, s: Id)
    requires Valid(a) && ActiveProject(a, p) && ProjectDeleted(a, b, p, now, recovery)
    requires s in a.secrets
    ensures SecretOk(b, s)
  {
    var d := a.secrets[s].environmentId;
    assert SecretOk(a, s) && EnvironmentOk(a, d) && EnvironmentIs(b, d, DropEnvironment(a.environments[d], p, now));
    assert SecretIs(b, s, DropSecret(a.secrets[s], p, now));
  }

  lemma ProjectDeletedValid(a: Db, b: Db, p: Id, now: Time, recovery: Window)
    requires Valid(a) && ActiveProject(a, p) && ProjectDeleted(a, b, p, now, recovery)
    ensures Valid(b)
  {
    hide ProjectOk, EnvironmentOk, SecretOk;
    forall q | q in b.projects ensures ProjectOk(b, q) { ProjectDeletedProjectOk(a, b, p, now, recovery, q); }
    forall d | d in b.environments ensures EnvironmentOk(b, d) { ProjectDeletedEnvironmentOk(a, b, p, now, recovery, d); }
    forall s | s in b.secrets ensures SecretOk(b, s) { ProjectDeletedSecretOk(a, b, p, now, recovery, s); }
    RetaggedValid(a, b);
  }

  lemma ProjectRestoredProjectOk(a: Db, b: Db, p: Id, q: Id)
    requires Valid(a) && ProjectRestored(a, b, p) && a.projects[p].deletedAt.Some?
    requires q in a.projects
    ensures ProjectOk(b, q)
  {
    assert ProjectOk(a, q);
    var e :| Holds(a, q, e);
    assert EnvironmentIs(b, e, LiftEnvironment(a.environments[e], p, a.projects[p].deletedAt));
    assert Holds(b, q, e);
  }

  lemma ProjectRestoredEnvironmentOk(a: Db, b: Db, p: Id, d: Id)
    requires Valid(a) && ProjectRestored(a, b, p) && a.projects[p].deletedAt.Some?
    requires d in a.environments
    ensures EnvironmentOk(b, d)
  {
    assert EnvironmentOk(a, d) && EnvironmentIs(b, d, LiftEnvironment(a.environments[d], p, a.projects[p].deletedAt));
  }

  lemma ProjectRestoredSecretOk(a: Db, b: Db, p: Id, s: Id)
    requires Valid(a) && ProjectRestored(a, b, p) && a.projects[p].deletedAt.Some?
    requires s in a.secrets
    ensures SecretOk(b, s)
  {
    var d, t := a.secrets[s].environmentId, a.projects[p].deletedAt;
    assert SecretOk(a, s) && EnvironmentOk(a, d) && EnvironmentIs(b, d, LiftEnvironment(a.environments[d], p, t));
    assert SecretIs(b, s, LiftSecret(a.secrets[s], p, t));
  }

  lemma ProjectRestoredValid(a: Db, b: Db, p: Id)
    requires Valid(a) && ProjectRestored(a, b, p) && a.projects[p].deletedAt.Some?
    ensures Valid(b)
  {
    hide ProjectOk, EnvironmentOk, SecretOk;
    forall q | q in b.projects ensures ProjectOk(b, q) { ProjectRestoredProjectOk(a, b, p, q); }
    forall d | d in b.environments ensures EnvironmentOk(b, d) { ProjectRestoredEnvironmentOk(a, b, p, d); }
    forall s | s in b.secrets ensures SecretOk(b, s) { ProjectRestoredSecretOk(a, b, p, s); }
    RetaggedValid(a, b);
  }

  lemma EnvironmentDeletedProjectOk(a: Db, b: Db, e: Id, now: Time, recovery: Window, q: Id)
    requires Valid(a) && EnvironmentDeleted(a, b, e, now, recovery) && ActiveEnvironment(a, e)
    requires |ActiveEnvironments(a, a.environments[e].projectId)| > 1
    requires q in a.projects
    ensures ProjectOk(b, q)
  {
    assert ProjectOk(a, q);
    var d :| Holds(a, q, d);
    if d == e {
      var es := ActiveEnvironments(a, q);
      assert es != {e};
      d :| d in es && d != e;
      assert EnvironmentOk(a, d) && Holds(a, q, d);
    }
    assert EnvironmentIs(b, d, a.environments[d]) && Holds(b, q, d);
  }

  lemma EnvironmentDeletedEnvironmentOk(a: Db, b: Db, e: Id, now: Time, recovery: Window, d: Id)
    requires Valid(a) && EnvironmentDeleted(a, b, e, now, recovery) && ActiveEnvironment(a, e)
    requires |ActiveEnvironments(a, a.environments[e].projectId)| > 1
    requires d in a.environments
    ensures EnvironmentOk(b, d)
  {
    assert EnvironmentOk(a, d) && (d != e ==> EnvironmentIs(b, d, a.environments[d]));
  }

  lemma EnvironmentDeletedSecretOk(a: Db, b: Db, e: Id, now: Time, recovery: Window, s: Id)
    requires Valid(a) && EnvironmentDeleted(a, b, e, now, recovery) && ActiveEnvironment(a, e)
    requires |ActiveEnvironments(a, a.environments[e].projectId)| > 1
    requires s in a.secrets
    ensures SecretOk(b, s)
  {
    var d := a.secrets[s].environmentId;
    assert SecretOk(a, s) && EnvironmentOk(a, d) && (d != e ==> EnvironmentIs(b, d, a.environments[d]));
    assert SecretIs(b, s, DropWithEnvironment(a.secrets[s], e, now));
  }

  lemma EnvironmentDeletedValid(a: Db, b: Db, e: Id, now: Time, recovery: Window)
    requires Valid(a) && EnvironmentDeleted(a, b, e, now, recovery) && ActiveEnvironment(a, e)
    requires |ActiveEnvironments(a, a.environments[e].projectId)| > 1
    ensures Valid(b)
  {
    hide ProjectOk, EnvironmentOk, SecretOk;
    forall q | q in b.projects ensures ProjectOk(b, q) { EnvironmentDeletedProjectOk(a, b, e, now, recovery, q); }
    forall d | d in b.environments ensures EnvironmentOk(b, d) {
      EnvironmentDeletedEnvironmentOk(a, b, e, now, recovery, d);
    }
    forall s | s in b.secrets ensures SecretOk(b, s) { EnvironmentDeletedSecretOk(a, b, e, now, recovery, s); }
    RetaggedValid(a, b);
  }

  lemma EnvironmentRestoredProjectOk(a: Db, b: Db, e: Id, q: Id)
    requires Valid(a) && EnvironmentRestored(a, b, e)
    requires a.environments[e].deletedAt.Some? && a.environments[e].byProject == None
    requires ActiveProject(a, a.environments[e].projectId)
    requires q in a.projects
    ensures ProjectOk(b, q)
  {
    assert ProjectOk(a, q);
    var d :| Holds(a, q, d);
    assert d != e && EnvironmentIs(b, d, a.environments[d]) && Holds(b, q, d);
  }

  lemma EnvironmentRestoredEnvironmentOk(a: Db, b: Db, e: Id, d: Id)
    requires Valid(a) && EnvironmentRestored(a, b, e)
    requires a.environments[e].deletedAt.Some? && a.environments[e].byProject == None
    requires ActiveProject(a, a.environments[e].projectId)
    requires d in a.environments
    ensures EnvironmentOk(b, d)
  {
    assert EnvironmentOk(a, d) && (d != e ==> EnvironmentIs(b, d, a.environments[d]));
  }

  lemma EnvironmentRestoredSecretOk(a: Db, b: Db, e: Id, s: Id)
    requires Valid(a) && EnvironmentRestored(a, b, e)
    requires a.environments[e].deletedAt.Some? && a.environments[e].byProject == None
    requires ActiveProject(a, a.environments[e].projectId)
    requires s in a.secrets
    ensures SecretOk(b, s)
  {
    var d := a.secrets[s].environmentId;
    assert SecretOk(a, s) && EnvironmentOk(a, d) && (d != e ==> EnvironmentIs(b, d, a.environments[d]));
    assert SecretIs(b, s, LiftWithEnvironment(a.secrets[s], e, a.environments[e].deletedAt));
  }

  lemma EnvironmentRestoredValid(a: Db, b: Db, e: Id)
    requires Valid(a) && EnvironmentRestored(a, b, e)
    requires a.environments[e].deletedAt.Some? && a.environments[e].byProject == None
    requires ActiveProject(a, a.environments[e].projectId)
    ensures Valid(b)
  {
    hide ProjectOk, EnvironmentOk, SecretOk;
    forall q | q in b.projects ensures ProjectOk(b, q) { EnvironmentRestoredProjectOk(a, b, e, q); }
    forall d | d in b.environments ensures EnvironmentOk(b, d) { EnvironmentRestoredEnvironmentOk(a, b, e, d); }
    forall s | s in b.secrets ensures SecretOk(b, s) { EnvironmentRestoredSecretOk(a, b, e, s); }
    RetaggedValid(a, b);
  }

  lemma RetagEvolves(db: Db, projects: map<Id, Project>, environments: map<Id, Environment>, rows: map<Id, Secret>)
    requires projects.Keys == db.projects.Keys && environments.Keys == db.environments.Keys
    requires forall e :: e in db.environments ==>
               && environments[e].configVersion == db.environments[e].configVersion
               && environments[e].projectId == db.environments[e].projectId
    requires SameIdentity(db.secrets, rows)
    ensures Evolves(db, UpdateSecrets(db.(projects := projects, environments := environments), rows))
  {
    var mid := db.(projects := projects, environments := environments);
    TablesEvolve(db, projects, environments, db.nextId);
    UpdateEvolves(mid, rows);
    EvolvesTransitive(db, mid, UpdateSecrets(mid, rows));
  }

  // ---- restoring undoes deleting ----

  /** Equal tables but for config versions. */
  ghost predicate SameRows(a: Db, b: Db) {
    && b.projects == a.projects && SameEnvironments(a.environments, b.environments)
    && b.secrets == a.secrets && b.versions == a.versions && b.nextId == a.nextId
  }

  /** No row of the project carries a project tag. */
  ghost predicate Untagged(db: Db, p: Id) {
    && p in db.projects && db.projects[p] == LiftProject(db.projects[p])
    && (forall e :: e in db.environments && db.environments[e].projectId == p ==> db.environments[e].byProject == None)
    && (forall s :: s in db.secrets && db.secrets[s].projectId == p ==> db.secrets[s].byProject == None)
  }

  lemma ActiveIsUntagged(db: Db, p: Id)
    requires Valid(db) && ActiveProject(db, p)
    ensures Untagged(db, p)
  {
    assert ProjectOk(db, p);
    forall e | e in db.environments && db.environments[e].projectId == p ensures db.environments[e].byProject == None {
      assert EnvironmentOk(db, e);
    }
    forall s | s in db.secrets && db.secrets[s].projectId == p ensures db.secrets[s].byProject == None {
      assert SecretOk(db, s) && EnvironmentOk(db, db.secrets[s].environmentId);
    }
  }

  /** Restoring a project brings back exactly the rows its deletion took away. */
  lemma RestoreUndoesProjectDelete(a: Db, b: Db, c: Db, p: Id, now: Time, recovery: Window)
    requires Untagged(a, p) && ProjectDeleted(a, b, p, now, recovery) && ProjectRestored(b, c, p)
    ensures SameRows(a, c)
  {
    forall e | e in a.environments ensures EnvironmentIs(c, e, a.environments[e]) {
      assert EnvironmentIs(b, e, DropEnvironment(a.environments[e], p, now));
      assert EnvironmentIs(c, e, LiftEnvironment(b.environments[e], p, Some(now)));
    }
    forall s | s in a.secrets ensures SecretIs(c, s, a.secrets[s]) {
      assert SecretIs(b, s, DropSecret(a.secrets[s], p, now)) && SecretIs(c, s, LiftSecret(b.secrets[s], p, Some(now)));
    }
  }

  /** The environment is active, and none of its secrets carries a tag. */
  ghost predicate Plain(db: Db, e: Id) {
    && e in db.environments && db.environments[e].deletedAt == None && db.environments[e].purgeAfter == None
    && (forall s :: s in db.secrets && db.secrets[s].environmentId == e ==>
          db.secrets[s].byEnvironment == None && db.secrets[s].byProject == None)
  }

  lemma ActiveIsPlain(db: Db, e: Id)
    requires Valid(db) && ActiveEnvironment(db, e)
    ensures Plain(db, e)
  {
    assert EnvironmentOk(db, e);
    forall s | s in db.secrets && db.secrets[s].environmentId == e
      ensures db.secrets[s].byEnvironment == None && db.secrets[s].byProject == None
    {
      assert SecretOk(db, s);
    }
  }

  /** The same for an environment, with config-version bumps in between. */
  lemma RestoreUndoesEnvironmentDelete(a: Db, b: Db, b': Db, c: Db, e: Id, now: Time, recovery: Window)
    requires Plain(a, e) && EnvironmentDeleted(a, b, e, now, recovery)
    requires SameRows(b, b') && EnvironmentRestored(b', c, e)
    ensures SameRows(a, c)
  {
    forall d | d in a.environments ensures EnvironmentIs(c, d, a.environments[d]) {
      assert d != e ==> EnvironmentIs(b, d, a.environments[d]) && EnvironmentIs(c, d, b'.environments[d]);
    }
    forall s | s in a.secrets ensures SecretIs(c, s, a.secrets[s]) {
      assert SecretIs(b, s, DropWithEnvironment(a.secrets[s], e, now));
      assert SecretIs(c, s, LiftWithEnvironment(b'.secrets[s], e, Some(now)));
    }
  }

  lemma RestoreProjectSucceeds(db: Db, p: Id, now: Time)
    requires p in db.projects && db.projects[p].deletedAt.Some? && db.projects[p].purgeAfter.Some?
    ensures RestoreProject(db, p, now) == Err(RecoveryExpired) <==> db.projects[p].purgeAfter.value <= now
    ensures RestoreProject(db, p, now).Ok? <==> now < db.projects[p].purgeAfter.value
  {
  }

  /**
    Deleting a project succeeds; restoring it succeeds exactly before the window closes, and is then
    the identity but for config versions.
   */
  lemma ProjectRoundTrip(db: Db, p: Id, now: Time, recovery: Window, later: Time)
    requires Valid(db) && ActiveProject(db, p)
    ensures DeleteProject(db, p, now, recovery).Ok?
    ensures var deleted := DeleteProject(db, p, now, recovery).value;
            && (RestoreProject(deleted, p, later) == Err(RecoveryExpired) <==> now + recovery <= later)
            && (later < now + recovery ==>
                  RestoreProject(deleted, p, later).Ok? && SameRows(db, RestoreProject(deleted, p, later).value))
  {
    var b := DeleteProject(db, p, now, recovery).value;
    assert ProjectDeleted(db, b, p, now, recovery) by { DeleteProjectResult(db, b, p, now, recovery); }
    assert b.projects[p] == DropProject(db.projects[p], now, recovery);
    RestoreProjectSucceeds(b, p, later);
    assert Untagged(db, p) by { ActiveIsUntagged(db, p); }
    hide *;
    if later < now + recovery {
      var c := RestoreProject(b, p, later).value;
      RestoreProjectResult(b, c, p, later);
      RestoreUndoesProjectDelete(db, b, c, p, now, recovery);
    }
  }

  lemma RestoreEnvironmentSucceeds(db: Db, e: Id, now: Time)
    requires e in db.environments && db.environments[e].byProject == None
    requires db.environments[e].deletedAt.Some? && db.environments[e].purgeAfter.Some?
    requires now < db.environments[e].purgeAfter.value
    requires ActiveProject(db, db.environments[e].projectId)
    ensures RestoreEnvironment(db, e, now).Ok?
  {
  }

  /** Deleting an environment, deleting its project, restoring the project, restoring the environment: the identity. */
  lemma NestedRoundTrip(db: Db, e: Id, confirm: bool, t1: Time, t2: Time, t3: Time, t4: Time, recovery: Window)
    requires Valid(db) && DeleteEnvironment(db, e, confirm, t1, recovery).Ok?
    requires t3 < t2 + recovery && t4 < t1 + recovery
    ensures var p := db.environments[e].projectId;
            var db1 := DeleteEnvironment(db, e, confirm, t1, recovery).value;
            && DeleteProject(db1, p, t2, recovery).Ok?
            && var db2 := DeleteProject(db1, p, t2, recovery).value;
            && RestoreProject(db2, p, t3).Ok?
            && var db3 := RestoreProject(db2, p, t3).value;
            && RestoreEnvironment(db3, e, t4).Ok?
            && SameRows(db, RestoreEnvironment(db3, e, t4).value)
  {
    var p := db.environments[e].projectId;
    var db1 := DeleteEnvironment(db, e, confirm, t1, recovery).value;
    assert EnvironmentOk(db, e);
    DeleteEnvironmentResult(db, db1, e, confirm, t1, recovery);
    EnvironmentDeletedValid(db, db1, e, t1, recovery);
    ProjectRoundTrip(db1, p, t2, recovery, t3);
    var db3 := RestoreProject(DeleteProject(db1, p, t2, recovery).value, p, t3).value;
    RestoreEnvironmentSucceeds(db3, e, t4);
    var db4 := RestoreEnvironment(db3, e, t4).value;
    RestoreEnvironmentResult(db3, db4, e, t4);
    ActiveIsPlain(db, e);
    RestoreUndoesEnvironmentDelete(db, db1, db3, db4, e, t1, recovery);
  }
}
