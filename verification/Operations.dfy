/**
  The transactions of ProjectService, EnvironmentService and SecretService as functions from tables to tables.
  A failing transaction leaves the tables alone.
 */
module Operations {
  import opened Wrappers
  import opened Strings
  import opened Database

  datatype Error =
    | NotFound | RecoveryExpired | LastEnvironment | SecretsRequireConfirmation | SlugExists
    | InvalidInput | KeyConvention | ValueTooLarge | KeyExists | VersionConflict | VersionNotFound | UniqueViolation

  const MAX_ENVIRONMENTS: nat := 50
  const MAX_BULK_ITEMS: nat := 100

  /** The recovery window: 1 to 365 days, in milliseconds. */
  type Window = w: int | 0 < w witness 1

  // ---- projects ----

  predicate IsSlugUnit(u: Unit) { 0x61 <= u <= 0x7A || IsDigit(u) || u == 0x2D }

  /** Lowercase words separated by single hyphens, at most 80 units. */
  predicate IsSlug(t: Text) {
    && 1 <= |t| <= 80 && (forall i :: 0 <= i < |t| ==> IsSlugUnit(t[i]))
    && t[0] != 0x2D && t[|t| - 1] != 0x2D && forall i :: 0 < i < |t| ==> !(t[i - 1] == 0x2D && t[i] == 0x2D)
  }

  predicate Distinct<T(==)>(items: seq<T>) { forall i, j :: 0 <= i < j < |items| ==> items[i] != items[j] }

  function DefaultEnvironments(p: Id, slugs: seq<Text>): (rows: map<Id, Environment>)
    ensures forall i :: i in rows <==> p < i <= p + |slugs|
    ensures forall i :: i in rows ==> rows[i] == Environment(p, slugs[i - p - 1], 0, None, None, None)
  {
    if slugs == [] then map[]
    else
      var n := |slugs| - 1;
      DefaultEnvironments(p, slugs[..n])[p + |slugs| := Environment(p, slugs[n], 0, None, None, None)]
  }

  predicate ProjectSlugTaken(db: Db, slug: Text) { exists p :: p in db.projects && db.projects[p].slug == slug }

  /** The project row, and the rows its insert trigger adds for the default environments; slugs in lower case. */
  function CreateProject(db: Db, slug: Text, slugs: seq<Text>): Result<Db, Error> {
    if !(1 <= |slugs| <= 20 && Distinct(slugs) && forall i :: 0 <= i < |slugs| ==> IsSlug(slugs[i]))
    then Err(InvalidInput)
    else
      :- Need(IsSlug(slug), InvalidInput);
      :- Need(!ProjectSlugTaken(db, slug), SlugExists);
      var p := db.nextId;
      Ok(db.(projects := db.projects[p := Project(slug, None, None)],
             environments := db.environments + DefaultEnvironments(p, slugs),
             nextId := p + |slugs| + 1))
  }

  function DropProject(row: Project, now: Time, recovery: Window): Project {
    row.(deletedAt := Some(now), purgeAfter := Some(now + recovery))
  }

  function LiftProject(row: Project): Project { row.(deletedAt := None, purgeAfter := None) }

  /** UPDATE environments / secrets SET deleted_at = now, deleted_by_project_at = now WHERE active and in p. */
  function DropEnvironment(row: Environment, p: Id, now: Time): Environment {
    if row.projectId == p && row.deletedAt == None then row.(deletedAt := Some(now), byProject := Some(now)) else row
  }

  function DropSecret(row: Secret, p: Id, now: Time): Secret {
    if row.projectId == p && row.deletedAt == None then row.(deletedAt := Some(now), byProject := Some(now)) else row
  }

  /**
    UPDATE environments / secrets SET deleted_at = NULL, deleted_by_project_at = NULL WHERE tagged by that
    deletion of p.
   */
  function LiftEnvironment(row: Environment, p: Id, deletedAt: Option<Time>): Environment {
    if row.projectId == p && row.byProject == deletedAt then row.(deletedAt := None, byProject := None) else row
  }

  function LiftSecret(row: Secret, p: Id, deletedAt: Option<Time>): Secret {
    if row.projectId == p && row.byProject == deletedAt then row.(deletedAt := None, byProject := None) else row
  }

  function DeleteProject(db: Db, p: Id, now: Time, recovery: Window): Result<Db, Error> {
    if !ActiveProject(db, p) then Err(NotFound)
    else
      var db1 := db.(projects := db.projects[p := DropProject(db.projects[p], now, recovery)]);
      var db2 := db1.(environments := map e | e in db1.environments :: DropEnvironment(db1.environments[e], p, now));
      Ok(UpdateSecrets(db2, map s | s in db2.secrets :: DropSecret(db2.secrets[s], p, now)))
  }

  function RestoreProject(db: Db, p: Id, now: Time): Result<Db, Error> {
    if !(p in db.projects && db.projects[p].deletedAt.Some? && db.projects[p].purgeAfter.Some?) then Err(NotFound)
    else
      :- Need(now < db.projects[p].purgeAfter.value, RecoveryExpired);
      var deletedAt := db.projects[p].deletedAt;
      var db1 := db.(projects := db.projects[p := LiftProject(db.projects[p])]);
      var environments := map e | e in db1.environments :: LiftEnvironment(db1.environments[e], p, deletedAt);
      var db2 := db1.(environments := environments);
      Ok(UpdateSecrets(db2, map s | s in db2.secrets :: LiftSecret(db2.secrets[s], p, deletedAt)))
  }

  // ---- environments ----

  function ActiveEnvironments(db: Db, p: Id): set<Id> {
    set e | e in db.environments && db.environments[e].projectId == p && db.environments[e].deletedAt == None
  }

  function ActiveSecrets(db: Db, e: Id): set<Id> {
    set s | s in db.secrets && db.secrets[s].environmentId == e && db.secrets[s].deletedAt == None
  }

  predicate SlugTaken(db: Db, p: Id, slug: Text) {
    exists e :: e in db.environments && db.environments[e].projectId == p && db.environments[e].slug == slug
  }

  /** The slug is given trimmed and in lower case. */
  function CreateEnvironment(db: Db, p: Id, slug: Text): Result<Db, Error> {
    if !ActiveProject(db, p) then Err(NotFound)
    else
      :- Need(|ActiveEnvironments(db, p)| < MAX_ENVIRONMENTS, InvalidInput);
      :- Need(IsSlug(slug), InvalidInput);
      :- Need(!SlugTaken(db, p, slug), SlugExists);
      Ok(db.(environments := db.environments[db.nextId := Environment(p, slug, 0, None, None, None)],
             nextId := db.nextId + 1))
  }

  function DropWithEnvironment(row: Secret, e: Id, now: Time): Secret {
    if row.environmentId == e && row.deletedAt == None
    then row.(deletedAt := Some(now), byEnvironment := Some(now)) else row
  }

  function LiftWithEnvironment(row: Secret, e: Id, deletedAt: Option<Time>): Secret {
    if row.environmentId == e && row.byEnvironment == deletedAt && row.byProject == None
    then row.(deletedAt := None, byEnvironment := None) else row
  }

  function DeleteEnvironment(db: Db, e: Id, confirmSecrets: bool, now: Time, recovery: Window): Result<Db, Error> {
    if !ActiveEnvironment(db, e) then Err(NotFound)
    else
      :- Need(|ActiveEnvironments(db, db.environments[e].projectId)| > 1, LastEnvironment);
      :- Need(ActiveSecrets(db, e) == {} || confirmSecrets, SecretsRequireConfirmation);
      var row := db.environments[e].(deletedAt := Some(now), purgeAfter := Some(now + recovery));
      var db1 := db.(environments := db.environments[e := row]);
      Ok(UpdateSecrets(db1, map s | s in db1.secrets :: DropWithEnvironment(db1.secrets[s], e, now)))
  }

  function RestoreEnvironment(db: Db, e: Id, now: Time): Result<Db, Error> {
    if e !in db.environments then Err(NotFound)
    else
      var env := db.environments[e];
      :- Need(env.deletedAt.Some? && env.purgeAfter.Some? && now < env.purgeAfter.value, RecoveryExpired);
      :- Need(env.byProject == None, NotFound);
      :- Need(ActiveProject(db, env.projectId), NotFound);
      var db1 := db.(environments := db.environments[e := env.(deletedAt := None, purgeAfter := None)]);
      Ok(UpdateSecrets(db1, map s | s in db1.secrets :: LiftWithEnvironment(db1.secrets[s], e, env.deletedAt)))
  }

  // ---- secrets ----

  /** A field of a request: left out, or given (null included). */
  type Given<T> = Option<T>

  datatype SetSecret = SetSecret(key: Text, value: Text, notes: Given<Option<Text>>, allowNonConforming: bool)

  predicate IsConventional(key: Text) {
    && key != [] && (forall i :: 0 <= i < |key| ==> IsUpper(key[i]) || IsDigit(key[i]) || key[i] == 0x5F)
    && IsUpper(key[0]) && key[|key| - 1] != 0x5F
    && forall i :: 0 < i < |key| ==> !(key[i - 1] == 0x5F && key[i] == 0x5F)
  }

  function ValidateKey(key: Text, allowNonConforming: bool): Result<Text, Error> {
    var normalized := Trim(key);
    :- Need(1 <= |normalized| <= 255 && NoForbidden(normalized), InvalidInput);
    :- Need(allowNonConforming || IsConventional(normalized), KeyConvention);
    Ok(normalized)
  }

  function ValidateNotes(notes: Given<Option<Text>>): Result<Option<Text>, Error> {
    if notes == None || notes.value == None || Trim(notes.value.value) == [] then Ok(None)
    else
      var normalized := Trim(notes.value.value);
      :- Need(|normalized| <= 4000, InvalidInput);
      Ok(Some(normalized))
  }

  /** #writeVersion: before is the row as it was read. */
  function WriteVersion(db: Db, s: Id, before: Secret, value: Text, notes: Given<Option<Text>>): Result<Db, Error> {
    if Utf8Length(value) > 65536 then Err(ValueTooLarge)
    else
      var newNotes :- if notes == None then Ok(before.notes) else ValidateNotes(notes);
      var next := VersionId(s, before.currentVersion + 1);
      :- Need(next !in db.versions, UniqueViolation);
      var db1 := InsertVersion(db, next, StoredText(value));
      :- Need(ActiveSecret(db1, s), NotFound);
      Ok(UpdateSecrets(db1, db1.secrets[s := db1.secrets[s].(currentVersion := next.version, notes := newNotes)]))
  }

  /** The deleted row that a new secret of this key brings back to life. */
  ghost function FindRecoverable(db: Db, p: Id, e: Id, key: Text): (r: Option<Id>)
    ensures r.Some? ==> IsRow(db, e, key, r.value) && IsRecoverable(db, p, r.value)
    ensures r.None? ==> forall s :: IsRow(db, e, key, s) ==> !IsRecoverable(db, p, s)
  {
    if exists s :: IsRow(db, e, key, s) && IsRecoverable(db, p, s) then
      var s :| IsRow(db, e, key, s) && IsRecoverable(db, p, s);
      Some(s)
    else None
  }

  predicate IsRecoverable(db: Db, p: Id, s: Id) {
    && s in db.secrets && db.secrets[s].projectId == p
    && db.secrets[s].deletedAt.Some? && db.secrets[s].byProject == None && db.secrets[s].byEnvironment == None
  }

  /** #create. */
  ghost function CreateSecret(db: Db, p: Id, e: Id, input: SetSecret): Result<Db, Error> {
    if !OpenEnvironment(db, p, e) then Err(NotFound)
    else
      var key :- ValidateKey(input.key, input.allowNonConforming);
      var notes :- ValidateNotes(input.notes);
      match FindRecoverable(db, p, e, key)
      case Some(s) =>
        var before := db.secrets[s];
        var db1 := UpdateSecrets(db, db.secrets[s := before.(deletedAt := None)]);
        WriteVersion(db1, s, before, input.value, Some(notes))
      case None =>
        :- Need(forall s :: !IsRow(db, e, key, s), KeyExists);
        var row := Secret(p, e, key, notes, 0, None, None, None);
        WriteVersion(InsertSecret(db, row), db.nextId, row, input.value, Some(notes))
  }

  function UpdateSecret(db: Db, s: Id, value: Given<Text>, notes: Given<Option<Text>>, expected: Given<nat>)
    : Result<Db, Error>
  {
    if !ActiveSecret(db, s) then Err(NotFound)
    else
      var before := db.secrets[s];
      :- Need(OpenEnvironment(db, before.projectId, before.environmentId), NotFound);
      :- Need(expected == None || expected.value == before.currentVersion, VersionConflict);
      if value == None then
        var newNotes :- if notes == None then Ok(before.notes) else ValidateNotes(notes);
        Ok(UpdateSecrets(db, db.secrets[s := before.(notes := newNotes)]))
      else WriteVersion(db, s, before, value.value, notes)
  }

  function Rollback(db: Db, s: Id, target: int, expected: Given<nat>): Result<Db, Error> {
    if target < 1 then Err(InvalidInput)
    else
      :- Need(ActiveSecret(db, s), NotFound);
      var before := db.secrets[s];
      :- Need(OpenEnvironment(db, before.projectId, before.environmentId), NotFound);
      :- Need(expected == None || expected.value == before.currentVersion, VersionConflict);
      :- Need(target < before.currentVersion, InvalidInput);
      :- Need(VersionId(s, target) in db.versions, VersionNotFound);
      WriteVersion(db, s, before, db.versions[VersionId(s, target)], None)
  }

  function DeleteSecret(db: Db, s: Id, now: Time): Result<Db, Error> {
    if !ActiveSecret(db, s) then Err(NotFound)
    else
      var before := db.secrets[s];
      :- Need(OpenEnvironment(db, before.projectId, before.environmentId), NotFound);
      Ok(UpdateSecrets(db, db.secrets[s := before.(deletedAt := Some(now))]))
  }

  // ---- batches ----

  function ValidateKeys(inputs: seq<SetSecret>): (r: Result<seq<Text>, Error>)
    ensures r.Ok? ==> |r.value| == |inputs|
    ensures r.Ok? ==> forall i :: 0 <= i < |inputs| ==>
              Ok(r.value[i]) == ValidateKey(inputs[i].key, inputs[i].allowNonConforming)
  {
    if inputs == [] then Ok([])
    else
      var key :- ValidateKey(inputs[0].key, inputs[0].allowNonConforming);
      var rest :- ValidateKeys(inputs[1..]);
      Ok([key] + rest)
  }

  /** Write a version to the row read from db0 for this key, or create the secret; input.key is normalized. */
  ghost function Put(db0: Db, db: Db, p: Id, e: Id, input: SetSecret): Result<Db, Error> {
    match FindActive(db0, e, input.key)
    case None => CreateSecret(db, p, e, input)
    case Some(s) => WriteVersion(db, s, db0.secrets[s], input.value, input.notes)
  }

  ghost function BulkItems(db: Db, p: Id, e: Id, inputs: seq<SetSecret>, keys: seq<Text>): Result<Db, Error>
    requires |inputs| == |keys|
  {
    if inputs == [] then Ok(db)
    else
      var n := |inputs| - 1;
      var before :- BulkItems(db, p, e, inputs[..n], keys[..n]);
      Put(before, before, p, e, inputs[n].(key := keys[n]))
  }

  ghost function BulkSet(db: Db, p: Id, e: Id, inputs: seq<SetSecret>): Result<Db, Error> {
    if !(1 <= |inputs| <= MAX_BULK_ITEMS) then Err(InvalidInput)
    else
      var keys :- ValidateKeys(inputs);
      :- Need(Distinct(keys), InvalidInput);
      :- Need(OpenEnvironment(db, p, e), NotFound);
      BulkItems(db, p, e, inputs, keys)
  }

  // ---- imports ----

  datatype Strategy = SkipExisting | Overwrite | Merge

  /** The tables and the counters of a batch under way. */
  datatype Tally = Tally(db: Db, created: nat, updated: nat, skipped: nat)

  predicate Included(strategy: Strategy, exists_: bool, selected: bool) {
    || strategy == Overwrite
    || (strategy == SkipExisting && !exists_)
    || (strategy == Merge && selected)
  }

  /** One item; the rows that exist were read before the loop, from db0. */
  ghost function ImportItem(
    db0: Db, t: Tally, p: Id, e: Id, input: SetSecret, key: Text, strategy: Strategy, selected: set<Text>)
    : Result<Tally, Error>
  {
    var row := FindActive(db0, e, key);
    if !Included(strategy, row.Some?, key in selected) then Ok(t.(skipped := t.skipped + 1))
    else
      var db :- Put(db0, t.db, p, e, input.(key := key));
      Ok(if row == None then t.(db := db, created := t.created + 1) else t.(db := db, updated := t.updated + 1))
  }

  ghost function ImportItems(
    db0: Db, p: Id, e: Id, inputs: seq<SetSecret>, keys: seq<Text>, strategy: Strategy, selected: set<Text>)
    : Result<Tally, Error>
    requires |inputs| == |keys|
  {
    if inputs == [] then Ok(Tally(db0, 0, 0, 0))
    else
      var n := |inputs| - 1;
      var before :- ImportItems(db0, p, e, inputs[..n], keys[..n], strategy, selected);
      ImportItem(db0, before, p, e, inputs[n], keys[n], strategy, selected)
  }

  ghost function ImportBatch(
    db: Db, p: Id, e: Id, inputs: seq<SetSecret>, strategy: Strategy, selected: set<Text>): Result<Tally, Error>
  {
    if !(1 <= |inputs| <= MAX_BULK_ITEMS) then Err(InvalidInput)
    else
      var keys :- ValidateKeys(inputs);
      :- Need(Distinct(keys), InvalidInput);
      :- Need(strategy == Merge ==> selected != {} && forall k :: k in selected ==> k in keys, InvalidInput);
      :- Need(OpenEnvironment(db, p, e), NotFound);
      ImportItems(db, p, e, inputs, keys, strategy, selected)
  }

  // ---- promotion ----

  /** rows answers the query for the active source secrets of the selected keys, in whatever order. */
  ghost predicate IsSelection(db: Db, source: Id, keys: Option<seq<Text>>, rows: seq<Id>) {
    && Distinct(rows)
    && (forall s :: s in rows <==> ActiveSecret(db, s) && db.secrets[s].environmentId == source
                                   && (keys == None || db.secrets[s].key in keys.value))
  }

  function NormalizeKeys(keys: Option<seq<Text>>): Result<Option<seq<Text>>, Error> {
    if keys == None then Ok(None)
    else
      var inputs := seq(|keys.value|, i requires 0 <= i < |keys.value| => SetSecret(keys.value[i], [], None, true));
      var normalized :- ValidateKeys(inputs);
      :- Need(1 <= |normalized| && Distinct(normalized), InvalidInput);
      Ok(Some(normalized))
  }

  /** The source row as an input to the target environment. */
  function Promoted(db0: Db, s: Id): SetSecret
    requires s in db0.secrets && VersionId(s, db0.secrets[s].currentVersion) in db0.versions
  {
    SetSecret(db0.secrets[s].key, CurrentValue(db0, s), Some(db0.secrets[s].notes), true)
  }

  ghost function PromoteItems(db0: Db, p: Id, target: Id, rows: seq<Id>): Result<Db, Error>
    requires forall s :: s in rows ==> s in db0.secrets && VersionId(s, db0.secrets[s].currentVersion) in db0.versions
  {
    if rows == [] then Ok(db0)
    else
      var n := |rows| - 1;
      var before :- PromoteItems(db0, p, target, rows[..n]);
      Put(db0, before, p, target, Promoted(db0, rows[n]))
  }

  /** #authorizePromotion and the check that every selected key was found. */
  ghost function CheckPromotion(db: Db, p: Id, source: Id, target: Id, keys: Option<seq<Text>>, rows: seq<Id>)
    : Result<(), Error>
    requires forall s :: s in rows ==> s in db.secrets
  {
    if source == target then Err(InvalidInput)
    else
      var normalized :- NormalizeKeys(keys);
      :- Need(OpenEnvironment(db, p, source) && OpenEnvironment(db, p, target), NotFound);
      :- Need(normalized == None || forall k :: k in normalized.value ==> exists s :: s in rows && db.secrets[s].key == k,
              NotFound);
      Ok(())
  }

  ghost predicate Readable(db: Db, source: Id, keys: Option<seq<Text>>, rows: seq<Id>) {
    && IsSelection(db, source, if NormalizeKeys(keys).Ok? then NormalizeKeys(keys).value else None, rows)
    && forall s :: s in rows ==> VersionId(s, db.secrets[s].currentVersion) in db.versions
  }

  ghost function Promote(db: Db, p: Id, source: Id, target: Id, keys: Option<seq<Text>>, rows: seq<Id>): Result<Db, Error>
    requires Readable(db, source, keys, rows)
  {
    var _ :- CheckPromotion(db, p, source, target, keys, rows);
    PromoteItems(db, p, target, rows)
  }
}
