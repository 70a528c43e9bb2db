/**
  The tables behind projects, environments, secrets and secret versions of one organization, the statements
  that change them, and what every committed state satisfies. Row ids stand for the UUIDs; they come from a
  counter because fresh ids never repeat. Instants are milliseconds.
 */
module Database {
  import opened Wrappers
  import opened Strings
  import JsonString

  type Id = nat
  type Time = int

  datatype Project = Project(slug: Text, deletedAt: Option<Time>, purgeAfter: Option<Time>)

  datatype Environment = Environment(
    projectId: Id, slug: Text, configVersion: nat,
    deletedAt: Option<Time>, purgeAfter: Option<Time>, byProject: Option<Time>)

  datatype Secret = Secret(
    projectId: Id, environmentId: Id, key: Text, notes: Option<Text>, currentVersion: nat,
    deletedAt: Option<Time>, byProject: Option<Time>, byEnvironment: Option<Time>)

  datatype VersionId = VersionId(secret: Id, version: nat)

  /** Versions hold the plaintexts; their encryption is the subject of module Envelope. */
  datatype Db = Db(
    projects: map<Id, Project>, environments: map<Id, Environment>, secrets: map<Id, Secret>,
    versions: map<VersionId, Text>, nextId: Id)

  const Empty := Db(map[], map[], map[], map[], 0)

  // ---- statements ----

  predicate VersionOrLifeChanged(before: Secret, after: Secret) {
    before.currentVersion != after.currentVersion || before.deletedAt != after.deletedAt
  }

  /** Rows of the environment for which the row trigger of an UPDATE bumps the config version. */
  function Changed(before: map<Id, Secret>, after: map<Id, Secret>, e: Id): set<Id> {
    set s | s in before && s in after && after[s].environmentId == e && VersionOrLifeChanged(before[s], after[s])
  }

  /** UPDATE secrets, with the trigger that keeps environments.config_version. */
  function UpdateSecrets(db: Db, rows: map<Id, Secret>): Db {
    db.(secrets := rows,
        environments := map e | e in db.environments ::
          db.environments[e].(configVersion := db.environments[e].configVersion + |Changed(db.secrets, rows, e)|))
  }

  /** INSERT of a secret at version 0, which the trigger ignores. */
  function InsertSecret(db: Db, row: Secret): Db {
    db.(secrets := db.secrets[db.nextId := row], nextId := db.nextId + 1)
  }

  function InsertVersion(db: Db, id: VersionId, value: Text): Db { db.(versions := db.versions[id := value]) }

  // ---- rows ----

  predicate ActiveProject(db: Db, p: Id) { p in db.projects && db.projects[p].deletedAt == None }

  predicate ActiveEnvironment(db: Db, e: Id) { e in db.environments && db.environments[e].deletedAt == None }

  predicate ActiveSecret(db: Db, s: Id) { s in db.secrets && db.secrets[s].deletedAt == None }

  /** The row of #environment: an active environment of an active project. */
  predicate OpenEnvironment(db: Db, p: Id, e: Id) {
    ActiveEnvironment(db, e) && db.environments[e].projectId == p && ActiveProject(db, p)
  }

  ghost predicate IsRow(db: Db, e: Id, key: Text, s: Id) {
    s in db.secrets && db.secrets[s].environmentId == e && db.secrets[s].key == key
  }

  /** The active row for a key, if any. */
  ghost function FindActive(db: Db, e: Id, key: Text): (r: Option<Id>)
    ensures r.Some? ==> IsRow(db, e, key, r.value) && ActiveSecret(db, r.value)
    ensures r.None? ==> forall s :: IsRow(db, e, key, s) ==> !ActiveSecret(db, s)
  {
    if exists s :: IsRow(db, e, key, s) && ActiveSecret(db, s) then
      var s :| IsRow(db, e, key, s) && ActiveSecret(db, s);
      Some(s)
    else None
  }

  function CurrentValue(db: Db, s: Id): Text
    requires s in db.secrets && VersionId(s, db.secrets[s].currentVersion) in db.versions
  {
    db.versions[VersionId(s, db.secrets[s].currentVersion)]
  }

  // ---- text forms ----

  /** Buffer.from(v, "utf8") read back: lone surrogates become U+FFFD. */
  function StoredText(v: Text): Text {
    if v == [] then []
    else if JsonString.StartsWithPair(v) then v[..2] + StoredText(v[2..])
    else (if JsonString.IsLead(v[0]) || JsonString.IsTrail(v[0]) then [0xFFFD] else [v[0]]) + StoredText(v[1..])
  }

  function Utf8Length(v: Text): nat {
    if v == [] then 0
    else if JsonString.StartsWithPair(v) then 4 + Utf8Length(v[2..])
    else (if v[0] < 0x80 then 1 else if v[0] < 0x800 then 2 else 3) + Utf8Length(v[1..])
  }

  predicate IsStored(v: Text) { StoredText(v) == v && Utf8Length(v) <= 65536 }

  /** Keys as validateSecretKey lets them into the table: trimmed, 1 to 255 units, no white space, controls or equals. */
  predicate IsStoredKey(key: Text) { Trim(key) == key && 1 <= |key| <= 255 && NoForbidden(key) }

  predicate IsNormalized(notes: Option<Text>) {
    notes.Some? ==> notes.value != [] && Trim(notes.value) == notes.value && |notes.value| <= 4000
  }

  // ---- what every committed state satisfies ----

  ghost predicate ProjectOk(db: Db, p: Id)
    requires p in db.projects
  {
    var row := db.projects[p];
    && p < db.nextId
    && (row.deletedAt == None <==> row.purgeAfter == None)
    && (row.deletedAt.Some? ==> row.deletedAt.value < row.purgeAfter.value)
    && exists e :: Holds(db, p, e)
  }

  /** An environment that is active, or was when its project was deleted. */
  ghost predicate Holds(db: Db, p: Id, e: Id)
    requires p in db.projects
  {
    e in db.environments && db.environments[e].projectId == p
    && db.environments[e].deletedAt == db.environments[e].byProject == db.projects[p].deletedAt
  }

  ghost predicate EnvironmentOk(db: Db, e: Id)
    requires e in db.environments
  {
    var row := db.environments[e];
    && e < db.nextId && row.projectId in db.projects
    && (row.deletedAt == None ==> ActiveProject(db, row.projectId))
    && (row.byProject.Some? ==> row.deletedAt == row.byProject == db.projects[row.projectId].deletedAt)
    && (row.purgeAfter.Some? <==> row.deletedAt.Some? && row.byProject == None)
    && (row.purgeAfter.Some? ==> row.deletedAt.value < row.purgeAfter.value)
  }

  ghost predicate SecretOk(db: Db, s: Id)
    requires s in db.secrets
  {
    var row := db.secrets[s];
    && s < db.nextId && row.environmentId in db.environments
    && var env := db.environments[row.environmentId];
    && env.projectId == row.projectId
    && (row.deletedAt == None ==> env.deletedAt == None)
    && (row.byProject.Some? ==> row.byEnvironment == None && row.deletedAt == row.byProject == env.byProject)
    && (row.byEnvironment.Some? ==> row.deletedAt == row.byEnvironment == env.deletedAt && env.byProject == None)
    && 1 <= row.currentVersion && IsNormalized(row.notes) && IsStoredKey(row.key)
  }

  /** At most one row for an environment and a key, deleted ones included. */
  ghost predicate KeysUnique(db: Db) {
    forall s, t :: s in db.secrets && IsRow(db, db.secrets[s].environmentId, db.secrets[s].key, t) ==> s == t
  }

  /** Deleted rows keep their slugs taken. */
  ghost predicate SlugsUnique(db: Db) {
    && (forall p, q ::
          (p in db.projects && q in db.projects && db.projects[p].slug == db.projects[q].slug) ==> p == q)
    && (forall d, e ::
          (d in db.environments && e in db.environments
           && db.environments[d].projectId == db.environments[e].projectId
           && db.environments[d].slug == db.environments[e].slug) ==> d == e)
  }

  /** The versions of a secret are exactly 1..currentVersion. */
  ghost predicate VersionsOk(db: Db) {
    && (forall id :: id in db.versions <==>
          id.secret in db.secrets && 1 <= id.version <= db.secrets[id.secret].currentVersion)
    && forall id :: id in db.versions ==> IsStored(db.versions[id])
  }

  ghost predicate Valid(db: Db) {
    && (forall p :: p in db.projects ==> ProjectOk(db, p))
    && (forall e :: e in db.environments ==> EnvironmentOk(db, e))
    && (forall s :: s in db.secrets ==> SecretOk(db, s))
    && KeysUnique(db) && SlugsUnique(db) && VersionsOk(db)
  }

  // ---- what every statement and hence every transaction keeps ----

  /** The key/value pairs the runtime endpoint serves for an environment. */
  ghost function View(db: Db, e: Id): set<(Text, Text)> {
    set s | s in db.secrets && ActiveSecret(db, s) && db.secrets[s].environmentId == e
            && VersionId(s, db.secrets[s].currentVersion) in db.versions :: (db.secrets[s].key, CurrentValue(db, s))
  }

  ghost predicate SecretEvolves(a: Db, b: Db, s: Id)
    requires s in a.secrets && s in b.secrets
  {
    && a.secrets[s].projectId == b.secrets[s].projectId && a.secrets[s].environmentId == b.secrets[s].environmentId
    && a.secrets[s].key == b.secrets[s].key && a.secrets[s].currentVersion <= b.secrets[s].currentVersion
  }

  ghost predicate EnvironmentEvolves(a: Db, b: Db, e: Id)
    requires e in a.environments && e in b.environments
  {
    && a.environments[e].projectId == b.environments[e].projectId
    && a.environments[e].configVersion <= b.environments[e].configVersion
    && (a.environments[e].configVersion == b.environments[e].configVersion ==> View(a, e) == View(b, e))
  }

  /** Rows stay and keep their identity, recorded plaintexts stay, and a config version names one view. */
  ghost predicate Evolves(a: Db, b: Db) {
    && a.projects.Keys <= b.projects.Keys && a.environments.Keys <= b.environments.Keys
    && a.secrets.Keys <= b.secrets.Keys
    && (forall id :: id in a.versions ==> id in b.versions && b.versions[id] == a.versions[id])
    && (forall s :: s in a.secrets ==> SecretEvolves(a, b, s))
    && (forall e :: e in a.environments ==> EnvironmentEvolves(a, b, e))
    && a.nextId <= b.nextId
  }

  lemma EvolvesTransitive(a: Db, b: Db, c: Db)
    requires Evolves(a, b) && Evolves(b, c)
    ensures Evolves(a, c)
  {
    forall s | s in a.secrets ensures SecretEvolves(a, c, s) {
      assert SecretEvolves(a, b, s) && SecretEvolves(b, c, s);
    }
    forall e | e in a.environments ensures EnvironmentEvolves(a, c, e) {
      assert EnvironmentEvolves(a, b, e) && EnvironmentEvolves(b, c, e);
    }
  }
}
