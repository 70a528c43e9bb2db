/** The services' statements on mutable tables, one after another, and the transaction around them. */
module Store {
  import opened Wrappers
  import opened Strings
  import opened Database
  import Operations
  import opened Preservation
  import Batches
  import Hierarchy
  import RequestConditions
  import opened WriteEffects
  import opened Transactions

  type Error = Operations.Error
  type Window = Operations.Window
  type SetSecret = Operations.SetSecret
  type Given<T> = Operations.Given<T>

  class Tables {
    var projects: map<Id, Project>
    var environments: map<Id, Environment>
    var secrets: map<Id, Secret>
    var versions: map<VersionId, Text>
    var nextId: Id

    ghost function Contents(): Db
      reads this
    {
      Db(projects, environments, secrets, versions, nextId)
    }

    constructor ()
      ensures Contents() == Empty
    {
      projects, environments, secrets, versions, nextId := map[], map[], map[], map[], 0;
    }

    /** bump_environment_config_version, for one changed row. */
    method BumpConfigVersion(e: Id)
      modifies this`environments
      ensures environments == WithBump(old(environments), e)
    {
      if e in environments {
        environments := environments[e := environments[e].(configVersion := environments[e].configVersion + 1)];
      }
    }

    /** The row trigger: each changed row adds one to the config version of its environment. */
    method FireTriggers(changed: set<Id>, rows: map<Id, Secret>)
      requires changed <= rows.Keys
      modifies this`environments
      ensures environments == Bumped(old(environments), rows, changed)
    {
      hide Bumped, WithBump;
      ghost var start, done: set<Id> := environments, {};
      var todo := changed;
      BumpNone(start, rows);
      while todo != {}
        invariant done <= changed && todo == changed - done
        invariant environments == Bumped(start, rows, done)
        decreases |todo|
      {
        var s :| s in todo;
        BumpConfigVersion(rows[s].environmentId);
        BumpOne(start, rows, done, s);
        todo, done := todo - {s}, done + {s};
      }
      assert done == changed;
    }

    method UpdateSecretRows(rows: map<Id, Secret>)
      modifies this
      ensures Contents() == UpdateSecrets(old(Contents()), rows)
    {
      var changed := set s | s in secrets && s in rows && VersionOrLifeChanged(secrets[s], rows[s]);
      BumpedAll(Contents(), rows, changed);
      secrets := rows;
      FireTriggers(changed, rows);
    }
  
    // ---- queries ----

    method SelectActive(e: Id, key: Text) returns (r: Option<Id>)
      requires Valid(Contents())
      ensures r == FindActive(Contents(), e, key)
    {
      hide Valid;
      OneRow(Contents(), e, key);
      if s :| s in secrets && secrets[s].environmentId == e && secrets[s].key == key && secrets[s].deletedAt == None {
        assert IsRow(Contents(), e, key, s) && ActiveSecret(Contents(), s);
        return Some(s);
      }
      return None;
    }

    method SelectRecoverable(p: Id, e: Id, key: Text) returns (r: Option<Id>)
      requires Valid(Contents())
      ensures r == Operations.FindRecoverable(Contents(), p, e, key)
    {
      hide Valid;
      OneRow(Contents(), e, key);
      if s :| s in secrets && secrets[s].environmentId == e && secrets[s].key == key && secrets[s].projectId == p
              && secrets[s].deletedAt.Some? && secrets[s].byProject == None && secrets[s].byEnvironment == None {
        assert IsRow(Contents(), e, key, s) && Operations.IsRecoverable(Contents(), p, s);
        return Some(s);
      }
      return None;
    }

    predicate IsOpen(p: Id, e: Id)
      reads this
      ensures IsOpen(p, e) <==> OpenEnvironment(Contents(), p, e)
    {
      && e in environments && environments[e].deletedAt == None && environments[e].projectId == p
      && p in projects && projects[p].deletedAt == None
    }

    // ---- projects and environments ----

    /** The insert and its trigger, which adds one environment for each default slug. */
    method CreateProject(slug: Text, slugs: seq<Text>) returns (r: Result<(), Error>)
      modifies this
      ensures Refines(r, Operations.CreateProject(old(Contents()), slug, slugs), Contents())
    {
      if !(1 <= |slugs| <= 20) || !Operations.Distinct(slugs)
         || exists i :: 0 <= i < |slugs| && !Operations.IsSlug(slugs[i]) {
        return Err(Operations.InvalidInput);
      }
      if !Operations.IsSlug(slug) {
        return Err(Operations.InvalidInput);
      }
      if exists p :: p in projects && projects[p].slug == slug {
        return Err(Operations.SlugExists);
      }
      projects := projects[nextId := Project(slug, None, None)];
      InsertDefaults(nextId, slugs);
      nextId := nextId + |slugs| + 1;
      return Ok(());
    }

    /** create_default_project_environments. */
    method InsertDefaults(p: Id, slugs: seq<Text>)
      modifies this`environments
      ensures environments == old(environments) + Operations.DefaultEnvironments(p, slugs)
    {
      hide Operations.DefaultEnvironments;
      for i := 0 to |slugs|
        invariant environments == old(environments) + Operations.DefaultEnvironments(p, slugs[..i])
      {
        DefaultsSnoc(p, slugs, i);
        environments := environments[p + i + 1 := Environment(p, slugs[i], 0, None, None, None)];
      }
      assert slugs[..|slugs|] == slugs;
    }

    method CreateEnvironment(p: Id, slug: Text) returns (r: Result<(), Error>)
      modifies this
      ensures Refines(r, Operations.CreateEnvironment(old(Contents()), p, slug), Contents())
    {
      if p !in projects || projects[p].deletedAt != None {
        return Err(Operations.NotFound);
      }
      var active := set d | d in environments && environments[d].projectId == p && environments[d].deletedAt == None;
      assert active == Operations.ActiveEnvironments(Contents(), p);
      if |active| >= Operations.MAX_ENVIRONMENTS || !Operations.IsSlug(slug) {
        return Err(Operations.InvalidInput);
      }
      if exists e :: e in environments && environments[e].projectId == p && environments[e].slug == slug {
        return Err(Operations.SlugExists);
      }
      environments, nextId := environments[nextId := Environment(p, slug, 0, None, None, None)], nextId + 1;
      return Ok(());
    }

    method DeleteProject(p: Id, now: Time, recovery: Window) returns (r: Result<(), Error>)
      modifies this
      ensures Refines(r, Operations.DeleteProject(old(Contents()), p, now, recovery), Contents())
      ensures r.Ok? <==> ActiveProject(old(Contents()), p)
      ensures r.Ok? ==> Hierarchy.ProjectDeleted(old(Contents()), Contents(), p, now, recovery)
    {
      hide Hierarchy.ProjectDeleted;
      if p !in projects || projects[p].deletedAt != None {
        return Err(Operations.NotFound);
      }
      projects := projects[p := Operations.DropProject(projects[p], now, recovery)];
      environments := map e | e in environments :: Operations.DropEnvironment(environments[e], p, now);
      UpdateSecretRows(map s | s in secrets :: Operations.DropSecret(secrets[s], p, now));
      Hierarchy.DeleteProjectResult(old(Contents()), Contents(), p, now, recovery);
      return Ok(());
    }

    method RestoreProject(p: Id, now: Time) returns (r: Result<(), Error>)
      modifies this
      ensures Refines(r, Operations.RestoreProject(old(Contents()), p, now), Contents())
      ensures r.Ok? <==> RequestConditions.CanRestoreProject(old(Contents()), p, now)
      ensures r.Ok? ==> Hierarchy.ProjectRestored(old(Contents()), Contents(), p)
    {
      hide Hierarchy.ProjectRestored, RequestConditions.CanRestoreProject;
      RequestConditions.RestoreProjectIff(Contents(), p, now);
      if p !in projects || projects[p].deletedAt == None || projects[p].purgeAfter == None {
        return Err(Operations.NotFound);
      }
      if projects[p].purgeAfter.value <= now {
        return Err(Operations.RecoveryExpired);
      }
      var deletedAt := projects[p].deletedAt;
      projects := projects[p := Operations.LiftProject(projects[p])];
      environments := map e | e in environments :: Operations.LiftEnvironment(environments[e], p, deletedAt);
      UpdateSecretRows(map s | s in secrets :: Operations.LiftSecret(secrets[s], p, deletedAt));
      Hierarchy.RestoreProjectResult(old(Contents()), Contents(), p, now);
      return Ok(());
    }

    method DeleteEnvironment(e: Id, confirmSecrets: bool, now: Time, recovery: Window) returns (r: Result<(), Error>)
      modifies this
      ensures Refines(r, Operations.DeleteEnvironment(old(Contents()), e, confirmSecrets, now, recovery), Contents())
      ensures r.Ok? <==> RequestConditions.CanDeleteEnvironment(old(Contents()), e, confirmSecrets)
      ensures r.Ok? ==> Hierarchy.EnvironmentDeleted(old(Contents()), Contents(), e, now, recovery)
    {
      hide Hierarchy.EnvironmentDeleted, RequestConditions.CanDeleteEnvironment;
      RequestConditions.DeleteEnvironmentIff(Contents(), e, confirmSecrets, now, recovery);
      if e !in environments || environments[e].deletedAt != None {
        return Err(Operations.NotFound);
      }
      var p := environments[e].projectId;
      var active := set d | d in environments && environments[d].projectId == p && environments[d].deletedAt == None;
      assert active == Operations.ActiveEnvironments(Contents(), p);
      if |active| <= 1 {
        return Err(Operations.LastEnvironment);
      }
      var inUse := set s | s in secrets && secrets[s].environmentId == e && secrets[s].deletedAt == None;
      assert inUse == Operations.ActiveSecrets(Contents(), e);
      if inUse != {} && !confirmSecrets {
        return Err(Operations.SecretsRequireConfirmation);
      }
      environments := environments[e := environments[e].(deletedAt := Some(now), purgeAfter := Some(now + recovery))];
      UpdateSecretRows(map s | s in secrets :: Operations.DropWithEnvironment(secrets[s], e, now));
      Hierarchy.DeleteEnvironmentResult(old(Contents()), Contents(), e, confirmSecrets, now, recovery);
      return Ok(());
    }

    method RestoreEnvironment(e: Id, now: Time) returns (r: Result<(), Error>)
      modifies this
      ensures Refines(r, Operations.RestoreEnvironment(old(Contents()), e, now), Contents())
      ensures r.Ok? <==> RequestConditions.CanRestoreEnvironment(old(Contents()), e, now)
      ensures r.Ok? ==> Hierarchy.EnvironmentRestored(old(Contents()), Contents(), e)
    {
      hide Hierarchy.EnvironmentRestored, RequestConditions.CanRestoreEnvironment;
      RequestConditions.RestoreEnvironmentIff(Contents(), e, now);
      if e !in environments {
        return Err(Operations.NotFound);
      }
      var env := environments[e];
      if env.deletedAt == None || env.purgeAfter == None || env.purgeAfter.value <= now {
        return Err(Operations.RecoveryExpired);
      }
      if env.byProject != None || env.projectId !in projects || projects[env.projectId].deletedAt != None {
        return Err(Operations.NotFound);
      }
      environments := environments[e := env.(deletedAt := None, purgeAfter := None)];
      UpdateSecretRows(map s | s in secrets :: Operations.LiftWithEnvironment(secrets[s], e, env.deletedAt));
      Hierarchy.RestoreEnvironmentResult(old(Contents()), Contents(), e, now);
      return Ok(());
    }

    // ---- secrets ----

    method WriteVersion(s: Id, before: Secret, value: Text, notes: Given<Option<Text>>) returns (r: Result<(), Error>)
      modifies this
      ensures Refines(r, Operations.WriteVersion(old(Contents()), s, before, value, notes), Contents())
    {
      if Utf8Length(value) > 65536 {
        return Err(Operations.ValueTooLarge);
      }
      var newNotes := if notes == None then Ok(before.notes) else Operations.ValidateNotes(notes);
      if newNotes.Err? {
        return Err(newNotes.error);
      }
      var next := VersionId(s, before.currentVersion + 1);
      if next in versions {
        return Err(Operations.UniqueViolation);
      }
      versions := versions[next := StoredText(value)];
      if s !in secrets || secrets[s].deletedAt != None {
        return Err(Operations.NotFound);
      }
      UpdateSecretRows(secrets[s := secrets[s].(currentVersion := next.version, notes := newNotes.value)]);
      return Ok(());
    }

    method CreateSecret(p: Id, e: Id, input: SetSecret) returns (r: Result<(), Error>)
      requires Valid(Contents())
      modifies this
      ensures Refines(r, Operations.CreateSecret(old(Contents()), p, e, input), Contents())
      ensures Acceptable(input) && OpenEnvironment(old(Contents()), p, e) ==>
                var key := Operations.ValidateKey(input.key, input.allowNonConforming).value;
                && (r.Ok? <==> FindActive(old(Contents()), e, key) == None)
                && (r.Ok? ==> Continues(old(Contents()), Contents(), e, key))
    {
      hide Valid, Operations.WriteVersion, Continues;
      if Acceptable(input) && OpenEnvironment(Contents(), p, e) {
        CreationOutcome(Contents(), p, e, input);
      }
      if !IsOpen(p, e) {
        return Err(Operations.NotFound);
      }
      var key := Operations.ValidateKey(input.key, input.allowNonConforming);
      if key.Err? {
        return Err(key.error);
      }
      var notes := Operations.ValidateNotes(input.notes);
      if notes.Err? {
        return Err(notes.error);
      }
      var recoverable := SelectRecoverable(p, e, key.value);
      if recoverable.Some? {
        var s := recoverable.value;
        var before := secrets[s];
        UpdateSecretRows(secrets[s := before.(deletedAt := None)]);
        r := WriteVersion(s, before, input.value, Some(notes.value));
      } else if s :| s in secrets && secrets[s].environmentId == e && secrets[s].key == key.value {
        assert IsRow(Contents(), e, key.value, s);
        r := Err(Operations.KeyExists);
      } else {
        var s, row := nextId, Secret(p, e, key.value, notes.value, 0, None, None, None);
        secrets, nextId := secrets[s := row], nextId + 1;
        r := WriteVersion(s, row, input.value, Some(notes.value));
      }
    }

    /** The body shared by the batch loops: existing is the row read for the key. */
    method Put(existing: Option<Id>, before: Option<Secret>, p: Id, e: Id, input: SetSecret, ghost db0: Db)
      returns (r: Result<(), Error>)
      requires Valid(Contents())
      requires existing == FindActive(db0, e, input.key)
      requires existing.Some? ==> before == Some(db0.secrets[existing.value])
      modifies this
      ensures Refines(r, Operations.Put(db0, old(Contents()), p, e, input), Contents())
    {
      if existing == None {
        r := CreateSecret(p, e, input);
      } else {
        r := WriteVersion(existing.value, before.value, input.value, input.notes);
      }
    }
  
    method UpdateSecret(s: Id, value: Given<Text>, notes: Given<Option<Text>>, expected: Given<nat>)
      returns (r: Result<(), Error>)
      modifies this
      ensures Refines(r, Operations.UpdateSecret(old(Contents()), s, value, notes, expected), Contents())
      ensures Valid(old(Contents())) ==> (r.Ok? <==> CanUpdate(old(Contents()), s, value, notes, expected))
      ensures Valid(old(Contents())) && r.Ok? ==> IsUpdate(old(Contents()), Contents(), s, value, notes)
    {
      hide Valid, Operations.WriteVersion, Operations.ValidateNotes, Advances;
      if Valid(Contents()) {
        UpdateOutcome(Contents(), s, value, notes, expected);
      }
      if s !in secrets || secrets[s].deletedAt != None {
        return Err(Operations.NotFound);
      }
      var before := secrets[s];
      if !IsOpen(before.projectId, before.environmentId) {
        return Err(Operations.NotFound);
      }
      if expected != None && expected.value != before.currentVersion {
        return Err(Operations.VersionConflict);
      }
      if value != None {
        r := WriteVersion(s, before, value.value, notes);
        return;
      }
      var newNotes := if notes == None then Ok(before.notes) else Operations.ValidateNotes(notes);
      if newNotes.Err? {
        return Err(newNotes.error);
      }
      UpdateSecretRows(secrets[s := before.(notes := newNotes.value)]);
      return Ok(());
    }

    method Rollback(s: Id, target: int, expected: Given<nat>) returns (r: Result<(), Error>)
      modifies this
      ensures Refines(r, Operations.Rollback(old(Contents()), s, target, expected), Contents())
      ensures Valid(old(Contents())) ==> (r.Ok? <==> CanRollBack(old(Contents()), s, target, expected))
      ensures Valid(old(Contents())) && r.Ok? ==> target >= 0 && IsRollback(old(Contents()), Contents(), s, target)
    {
      hide Valid, Operations.WriteVersion, IsRollback;
      if Valid(Contents()) {
        RollbackOutcome(Contents(), s, target, expected);
      }
      if target < 1 {
        return Err(Operations.InvalidInput);
      }
      if s !in secrets || secrets[s].deletedAt != None {
        return Err(Operations.NotFound);
      }
      var before := secrets[s];
      if !IsOpen(before.projectId, before.environmentId) {
        return Err(Operations.NotFound);
      }
      if expected != None && expected.value != before.currentVersion {
        return Err(Operations.VersionConflict);
      }
      if target >= before.currentVersion {
        return Err(Operations.InvalidInput);
      }
      if VersionId(s, target) !in versions {
        return Err(Operations.VersionNotFound);
      }
      r := WriteVersion(s, before, versions[VersionId(s, target)], None);
    }

    method DeleteSecret(s: Id, now: Time) returns (r: Result<(), Error>)
      modifies this
      ensures Refines(r, Operations.DeleteSecret(old(Contents()), s, now), Contents())
      ensures Valid(old(Contents())) ==> (r.Ok? <==> ActiveSecret(old(Contents()), s))
      ensures r.Ok? ==> !ActiveSecret(Contents(), s) && versions == old(versions)
    {
      hide Valid;
      if Valid(Contents()) && ActiveSecret(Contents(), s) {
        ActiveIsOpen(Contents(), s);
      }
      if s !in secrets || secrets[s].deletedAt != None || !IsOpen(secrets[s].projectId, secrets[s].environmentId) {
        return Err(Operations.NotFound);
      }
      UpdateSecretRows(secrets[s := secrets[s].(deletedAt := Some(now))]);
      return Ok(());
    }

    // ---- batches ----

    /** The map of rows read before an import, in step with its inputs. */
    method SelectExisting(e: Id, keys: seq<Text>) returns (rows: seq<Option<Id>>)
      requires Valid(Contents())
      ensures |rows| == |keys| && forall i :: 0 <= i < |keys| ==> rows[i] == FindActive(Contents(), e, keys[i])
    {
      hide Valid, FindActive;
      rows := [];
      for i := 0 to |keys|
        invariant |rows| == i && forall j :: 0 <= j < i ==> rows[j] == FindActive(Contents(), e, keys[j])
      {
        var row := SelectActive(e, keys[i]);
        rows := rows + [row];
      }
    }

    method ImportBatch(p: Id, e: Id, inputs: seq<SetSecret>, strategy: Operations.Strategy, selected: set<Text>)
      returns (r: Result<(nat, nat, nat), Error>)
      requires Valid(Contents())
      modifies this
      ensures ImportRefines(r, Operations.ImportBatch(old(Contents()), p, e, inputs, strategy, selected), Contents())
    {
      if !(1 <= |inputs| <= Operations.MAX_BULK_ITEMS) {
        return Err(Operations.InvalidInput);
      }
      var normalized := Operations.ValidateKeys(inputs);
      if normalized.Err? {
        return Err(normalized.error);
      }
      var keys := normalized.value;
      if !Operations.Distinct(keys)
         || (strategy == Operations.Merge && (selected == {} || exists k :: k in selected && k !in keys)) {
        return Err(Operations.InvalidInput);
      }
      if !IsOpen(p, e) {
        return Err(Operations.NotFound);
      }
      r := ImportLoop(p, e, inputs, keys, strategy, selected);
    }

    method ImportLoop(p: Id, e: Id, inputs: seq<SetSecret>, keys: seq<Text>, strategy: Operations.Strategy,
                      selected: set<Text>)
      returns (r: Result<(nat, nat, nat), Error>)
      requires Valid(Contents()) && |inputs| == |keys| && Operations.ValidateKeys(inputs) == Ok(keys)
      requires Operations.Distinct(keys)
      modifies this
      ensures ImportRefines(r, Operations.ImportItems(old(Contents()), p, e, inputs, keys, strategy, selected),
                            Contents())
    {
      hide Valid, Operations.ImportItems, Operations.ImportItem;
      ghost var db0 := Contents();
      var existing := SelectExisting(e, keys);
      var before := secrets;
      var counts := (0, 0, 0);
      ImportNothing(db0, p, e, inputs[..0], keys[..0], strategy, selected);
      for i := 0 to |inputs|
        invariant Operations.ImportItems(db0, p, e, inputs[..i], keys[..i], strategy, selected)
               == Ok(Operations.Tally(Contents(), counts.0, counts.1, counts.2))
      {
        ImportStep(db0, p, e, inputs, keys, strategy, selected, i);
        var row := if existing[i].Some? then Some(before[existing[i].value]) else None;
        var done := ImportItem(existing[i], row, p, e, inputs[i], keys[i], strategy, selected, counts, db0);
        if done.Err? {
          ImportFailure(db0, p, e, inputs, keys, strategy, selected, i + 1);
          return done;
        }
        counts := done.value;
      }
      assert inputs[..|inputs|] == inputs && keys[..|inputs|] == keys;
      return Ok(counts);
    }

    /** The body of the import loop. */
    method ImportItem(
      existing: Option<Id>, before: Option<Secret>, p: Id, e: Id, input: SetSecret, key: Text,
      strategy: Operations.Strategy, selected: set<Text>, counts: (nat, nat, nat), ghost db0: Db)
      returns (r: Result<(nat, nat, nat), Error>)
      requires Valid(Contents()) && existing == FindActive(db0, e, key)
      requires existing.Some? ==> before == Some(db0.secrets[existing.value])
      modifies this
      ensures ImportRefines(r, Operations.ImportItem(db0, Operations.Tally(old(Contents()), counts.0, counts.1, counts.2),
                                                     p, e, input, key, strategy, selected), Contents())
    {
      hide Valid;
      if !Operations.Included(strategy, existing.Some?, key in selected) {
        return Ok((counts.0, counts.1, counts.2 + 1));
      }
      var done := Put(existing, before, p, e, input.(key := key), db0);
      if done.Err? {
        return Err(done.error);
      }
      return Ok(if existing == None then (counts.0 + 1, counts.1, counts.2) else (counts.0, counts.1 + 1, counts.2));
    }
  
    method BulkSet(p: Id, e: Id, inputs: seq<SetSecret>) returns (r: Result<(), Error>)
      requires Valid(Contents())
      modifies this
      ensures Refines(r, Operations.BulkSet(old(Contents()), p, e, inputs), Contents())
    {
      if !(1 <= |inputs| <= Operations.MAX_BULK_ITEMS) {
        return Err(Operations.InvalidInput);
      }
      var keys := Operations.ValidateKeys(inputs);
      if keys.Err? {
        return Err(keys.error);
      }
      if !Operations.Distinct(keys.value) {
        return Err(Operations.InvalidInput);
      }
      if !IsOpen(p, e) {
        return Err(Operations.NotFound);
      }
      r := BulkLoop(p, e, inputs, keys.value);
    }

    method BulkLoop(p: Id, e: Id, inputs: seq<SetSecret>, keys: seq<Text>) returns (r: Result<(), Error>)
      requires Valid(Contents()) && Operations.ValidateKeys(inputs) == Ok(keys) && |inputs| == |keys|
      modifies this
      ensures Refines(r, Operations.BulkItems(old(Contents()), p, e, inputs, keys), Contents())
    {
      hide Valid, Operations.Put;
      ghost var db0 := Contents();
      for i := 0 to |inputs|
        invariant Operations.BulkItems(db0, p, e, inputs[..i], keys[..i]) == Ok(Contents())
      {
        BulkStep(db0, p, e, inputs, keys, i);
        var existing := SelectActive(e, keys[i]);
        var row := if existing.Some? then Some(secrets[existing.value]) else None;
        var done := Put(existing, row, p, e, inputs[i].(key := keys[i]), Contents());
        if done.Err? {
          BulkFailure(db0, p, e, inputs, keys, i + 1);
          return done;
        }
      }
      assert inputs[..|inputs|] == inputs && keys[..|inputs|] == keys;
      return Ok(());
    }

    method Promote(p: Id, source: Id, target: Id, keys: Option<seq<Text>>, rows: seq<Id>) returns (r: Result<(), Error>)
      requires Valid(Contents()) && Operations.Readable(Contents(), source, keys, rows)
      modifies this
      ensures Refines(r, Operations.Promote(old(Contents()), p, source, target, keys, rows), Contents())
    {
      hide Valid, Operations.PromoteItems;
      if source == target {
        return Err(Operations.InvalidInput);
      }
      var normalized := Operations.NormalizeKeys(keys);
      if normalized.Err? {
        return Err(normalized.error);
      }
      if !IsOpen(p, source) || !IsOpen(p, target) {
        return Err(Operations.NotFound);
      }
      if normalized.value.Some?
         && exists k :: k in normalized.value.value && !exists s :: s in rows && secrets[s].key == k {
        return Err(Operations.NotFound);
      }
      ReadableRows(Contents(), source, keys, rows);
      r := PromoteLoop(p, source, target, rows);
    }

    method PromoteLoop(p: Id, ghost source: Id, target: Id, rows: seq<Id>) returns (r: Result<(), Error>)
      requires Valid(Contents()) && Batches.Sourced(Contents(), source, rows)
      modifies this
      ensures Refines(r, Operations.PromoteItems(old(Contents()), p, target, rows), Contents())
    {
      hide Valid, Operations.PromoteItems, Batches.Sourced;
      ghost var db0 := Contents();
      SourcedRows(db0, source, rows);
      var before, values := secrets, versions;
      forall i | 0 <= i < |rows| ensures rows[i] in before { assert rows[i] in rows; }
      var keys := seq(|rows|, i requires 0 <= i < |rows| && rows[i] in before => before[rows[i]].key);
      var targets := SelectExisting(target, keys);
      PromoteNothing(db0, p, target, rows[..0]);
      for i := 0 to |rows|
        invariant Operations.PromoteItems(db0, p, target, rows[..i]) == Ok(Contents())
      {
        PromoteStep(db0, p, source, target, rows, i);
        var row := before[rows[i]];
        var input := Operations.SetSecret(row.key, values[VersionId(rows[i], row.currentVersion)], Some(row.notes), true);
        var existing := targets[i];
        assert existing == FindActive(db0, target, row.key);
        var done := Put(existing, if existing.Some? then Some(before[existing.value]) else None, p, target, input, db0);
        if done.Err? {
          PromoteFailure(db0, p, target, rows, i + 1);
          return done;
        }
      }
      assert rows[..|rows|] == rows;
      return Ok(());
    }
  
    // ---- the transaction around a call ----

    method Dispatch(op: Op) returns (r: Result<(), Error>)
      requires Valid(Contents()) && (op.OpPromote? ==> Operations.Readable(Contents(), op.source, op.keys, op.rows))
      modifies this
      ensures Refines(r, Step(old(Contents()), op), Contents())
    {
      hide Valid, Operations.CreateProject, Operations.DeleteProject, Operations.RestoreProject, Operations.Rollback,
        Operations.CreateEnvironment, Operations.DeleteEnvironment, Operations.RestoreEnvironment,
        Operations.CreateSecret, Operations.UpdateSecret, Operations.DeleteSecret, Operations.BulkSet,
        Operations.ImportBatch, Operations.Promote, Hierarchy.ProjectDeleted, Hierarchy.ProjectRestored,
        Hierarchy.EnvironmentDeleted, Hierarchy.EnvironmentRestored, IsUpdate, IsRollback, Continues;
      match op {
        case OpCreateProject(slug, slugs) => r := CreateProject(slug, slugs);
        case OpDeleteProject(p, now, recovery) => r := DeleteProject(p, now, recovery);
        case OpRestoreProject(p, now) => r := RestoreProject(p, now);
        case OpCreateEnvironment(p, slug) => r := CreateEnvironment(p, slug);
        case OpDeleteEnvironment(e, confirm, now, recovery) => r := DeleteEnvironment(e, confirm, now, recovery);
        case OpRestoreEnvironment(e, now) => r := RestoreEnvironment(e, now);
        case OpCreateSecret(p, e, input) => r := CreateSecret(p, e, input);
        case OpUpdateSecret(s, value, notes, expected) => r := UpdateSecret(s, value, notes, expected);
        case OpRollback(s, version, expected) => r := Rollback(s, version, expected);
        case OpDeleteSecret(s, now) => r := DeleteSecret(s, now);
        case OpBulkSet(p, e, inputs) => r := BulkSet(p, e, inputs);
        case OpPromote(p, source, target, keys, rows) => r := Promote(p, source, target, keys, rows);
        case OpImport(p, e, inputs, strategy, selected) =>
          var counts := ImportBatch(p, e, inputs, strategy, selected);
          r := if counts.Ok? then Ok(()) else Err(counts.error);
      }
    }

    /** BEGIN, the statements, and COMMIT or ROLLBACK. */
    method Transact(op: Op) returns (r: Result<(), Error>)
      requires Valid(Contents()) && (op.OpPromote? ==> Operations.Readable(Contents(), op.source, op.keys, op.rows))
      modifies this
      ensures r.Ok? <==> Step(old(Contents()), op).Ok?
      ensures Contents() == Commit(old(Contents()), op)
      ensures Valid(Contents()) && Evolves(old(Contents()), Contents())
    {
      hide Valid, Evolves, Step;
      ghost var db := Contents();
      var saved := (projects, environments, secrets, versions, nextId);
      r := Dispatch(op);
      if r.Err? {
        projects, environments, secrets, versions, nextId := saved.0, saved.1, saved.2, saved.3, saved.4;
        Batches.KeepsSelf(db);
      } else {
        StepKeepsTables(db, op);
      }
    }
  }

  lemma DefaultsSnoc(p: Id, slugs: seq<Text>, i: nat)
    requires i < |slugs|
    ensures Operations.DefaultEnvironments(p, slugs[..i + 1])
         == Operations.DefaultEnvironments(p, slugs[..i])[p + i + 1 := Environment(p, slugs[i], 0, None, None, None)]
  {
    assert slugs[..i + 1][..i] == slugs[..i];
  }

  lemma ReadableRows(db: Db, source: Id, keys: Option<seq<Text>>, rows: seq<Id>)
    requires Operations.Readable(db, source, keys, rows)
    ensures Batches.Sourced(db, source, rows)
  {
  }

  lemma SourcedRows(db: Db, source: Id, rows: seq<Id>)
    requires Batches.Sourced(db, source, rows)
    ensures forall s :: s in rows ==> s in db.secrets && VersionId(s, db.secrets[s].currentVersion) in db.versions
  {
  }

  lemma PromoteNothing(db0: Db, p: Id, target: Id, rows: seq<Id>)
    requires rows == []
    ensures Operations.PromoteItems(db0, p, target, rows) == Ok(db0)
  {
  }

  lemma PromoteStep(db0: Db, p: Id, source: Id, target: Id, rows: seq<Id>, i: nat)
    requires Valid(db0) && Batches.Sourced(db0, source, rows) && i < |rows|
    requires forall s :: s in rows ==> s in db0.secrets && VersionId(s, db0.secrets[s].currentVersion) in db0.versions
    requires Operations.PromoteItems(db0, p, target, rows[..i]).Ok?
    ensures rows[i] in rows && Valid(Operations.PromoteItems(db0, p, target, rows[..i]).value)
    ensures Operations.PromoteItems(db0, p, target, rows[..i + 1])
         == Operations.Put(db0, Operations.PromoteItems(db0, p, target, rows[..i]).value, p, target,
                           Operations.Promoted(db0, rows[i]))
  {
    hide Valid, Operations.Put, Operations.ImportItem, Batches.Keeps, Batches.Touches;
    Batches.PromoteItemsKeep(db0, p, source, target, rows[..i]);
    Batches.KeepsIsValid(db0, Operations.PromoteItems(db0, p, target, rows[..i]).value);
    assert rows[..i + 1][..i] == rows[..i];
  }

  lemma {:induction false} PromoteFailure(db0: Db, p: Id, target: Id, rows: seq<Id>, n: nat)
    requires forall s :: s in rows ==> s in db0.secrets && VersionId(s, db0.secrets[s].currentVersion) in db0.versions
    requires n <= |rows| && Operations.PromoteItems(db0, p, target, rows[..n]).Err?
    ensures Operations.PromoteItems(db0, p, target, rows) == Operations.PromoteItems(db0, p, target, rows[..n])
    decreases |rows|
  {
    hide Operations.Put, Operations.ImportItem;
    if n == |rows| {
      assert rows[..n] == rows;
    } else {
      var m := |rows| - 1;
      assert rows[..m][..n] == rows[..n];
      PromoteFailure(db0, p, target, rows[..m], n);
    }
  }

  lemma BulkStep(db0: Db, p: Id, e: Id, inputs: seq<SetSecret>, keys: seq<Text>, i: nat)
    requires Valid(db0) && Operations.ValidateKeys(inputs) == Ok(keys) && i < |inputs| == |keys|
    requires Operations.BulkItems(db0, p, e, inputs[..i], keys[..i]).Ok?
    ensures var db := Operations.BulkItems(db0, p, e, inputs[..i], keys[..i]).value;
            && Valid(db)
            && Operations.BulkItems(db0, p, e, inputs[..i + 1], keys[..i + 1])
            == Operations.Put(db, db, p, e, inputs[i].(key := keys[i]))
  {
    hide Valid, Evolves, Operations.Put, Batches.Keeps, Batches.Touches, Operations.ValidateKey;
    Batches.BulkItemsKeep(db0, p, e, inputs[..i], keys[..i]);
    Batches.KeepsIsValid(db0, Operations.BulkItems(db0, p, e, inputs[..i], keys[..i]).value);
    assert inputs[..i + 1][..i] == inputs[..i] && keys[..i + 1][..i] == keys[..i];
  }

  lemma {:induction false} BulkFailure(db0: Db, p: Id, e: Id, inputs: seq<SetSecret>, keys: seq<Text>, n: nat)
    requires n <= |inputs| == |keys| && Operations.BulkItems(db0, p, e, inputs[..n], keys[..n]).Err?
    ensures Operations.BulkItems(db0, p, e, inputs, keys) == Operations.BulkItems(db0, p, e, inputs[..n], keys[..n])
    decreases |inputs|
  {
    hide Operations.Put, Operations.ImportItem;
    if n == |inputs| {
      assert inputs[..n] == inputs && keys[..n] == keys;
    } else {
      var m := |inputs| - 1;
      assert inputs[..m][..n] == inputs[..n] && keys[..m][..n] == keys[..n];
      BulkFailure(db0, p, e, inputs[..m], keys[..m], n);
    }
  }

  ghost predicate ImportRefines(r: Result<(nat, nat, nat), Error>, spec: Result<Operations.Tally, Error>, now: Db) {
    match spec
    case Ok(t) => r == Ok((t.created, t.updated, t.skipped)) && now == t.db
    case Err(error) => r == Err(error)
  }

  lemma ImportNothing(
    db0: Db, p: Id, e: Id, inputs: seq<SetSecret>, keys: seq<Text>, strategy: Operations.Strategy, selected: set<Text>)
    requires inputs == [] && keys == []
    ensures Operations.ImportItems(db0, p, e, inputs, keys, strategy, selected) == Ok(Operations.Tally(db0, 0, 0, 0))
  {
  }

  /** The next item, and that the tables are still valid when its turn comes. */
  lemma ImportStep(
    db0: Db, p: Id, e: Id, inputs: seq<SetSecret>, keys: seq<Text>, strategy: Operations.Strategy,
    selected: set<Text>, i: nat)
    requires Valid(db0) && Operations.ValidateKeys(inputs) == Ok(keys) && Operations.Distinct(keys)
    requires i < |inputs| == |keys|
    requires Operations.ImportItems(db0, p, e, inputs[..i], keys[..i], strategy, selected).Ok?
    ensures var t := Operations.ImportItems(db0, p, e, inputs[..i], keys[..i], strategy, selected).value;
            && Valid(t.db)
            && Operations.ImportItems(db0, p, e, inputs[..i + 1], keys[..i + 1], strategy, selected)
               == Operations.ImportItem(db0, t, p, e, inputs[i], keys[i], strategy, selected)
  {
    hide Valid, Operations.Put, Operations.ImportItem, Batches.Keeps, Batches.Touches;
    Batches.ImportItemsKeep(db0, p, e, inputs[..i], keys[..i], strategy, selected);
    Batches.KeepsIsValid(db0, Operations.ImportItems(db0, p, e, inputs[..i], keys[..i], strategy, selected).value.db);
    assert inputs[..i + 1][..i] == inputs[..i] && keys[..i + 1][..i] == keys[..i];
  }

  /** A failing prefix fails the whole import with its error. */
  lemma {:induction false} ImportFailure(
    db0: Db, p: Id, e: Id, inputs: seq<SetSecret>, keys: seq<Text>, strategy: Operations.Strategy,
    selected: set<Text>, n: nat)
    requires n <= |inputs| == |keys|
    requires Operations.ImportItems(db0, p, e, inputs[..n], keys[..n], strategy, selected).Err?
    ensures Operations.ImportItems(db0, p, e, inputs, keys, strategy, selected)
         == Operations.ImportItems(db0, p, e, inputs[..n], keys[..n], strategy, selected)
    decreases |inputs|
  {
    hide Operations.Put, Operations.ImportItem;
    if n == |inputs| {
      assert inputs[..n] == inputs && keys[..n] == keys;
    } else {
      var m := |inputs| - 1;
      assert inputs[..m][..n] == inputs[..n] && keys[..m][..n] == keys[..n];
      ImportFailure(db0, p, e, inputs[..m], keys[..m], strategy, selected, n);
    }
  }

  /** A method did what its transaction function says, or failed with its error. */
  ghost predicate Refines(r: Result<(), Error>, spec: Result<Db, Error>, now: Db) {
    match spec
    case Ok(db) => r.Ok? && now == db
    case Err(e) => r == Err(e)
  }

  /** The rows of a set that belong to an environment. */
  ghost function InEnvironment(rows: map<Id, Secret>, ids: set<Id>, e: Id): set<Id>
    requires ids <= rows.Keys
  {
    set s | s in ids && rows[s].environmentId == e
  }

  function WithBump(environments: map<Id, Environment>, e: Id): map<Id, Environment> {
    if e in environments then environments[e := environments[e].(configVersion := environments[e].configVersion + 1)]
    else environments
  }

  /** The environments after the trigger ran for these rows. */
  ghost function Bumped(start: map<Id, Environment>, rows: map<Id, Secret>, ids: set<Id>): map<Id, Environment>
    requires ids <= rows.Keys
  {
    map e | e in start :: start[e].(configVersion := start[e].configVersion + |InEnvironment(rows, ids, e)|)
  }

  lemma BumpOne(start: map<Id, Environment>, rows: map<Id, Secret>, ids: set<Id>, s: Id)
    requires ids <= rows.Keys && s in rows && s !in ids
    ensures WithBump(Bumped(start, rows, ids), rows[s].environmentId) == Bumped(start, rows, ids + {s})
  {
    forall d | d in start
      ensures |InEnvironment(rows, ids + {s}, d)|
           == |InEnvironment(rows, ids, d)| + if d == rows[s].environmentId then 1 else 0
    {
      InEnvironmentMore(rows, ids, s, d);
    }
    hide InEnvironment;
  }

  lemma BumpNone(start: map<Id, Environment>, rows: map<Id, Secret>)
    ensures Bumped(start, rows, {}) == start
  {
    forall e | e in start ensures InEnvironment(rows, {}, e) == {} {}
  }

  lemma InEnvironmentMore(rows: map<Id, Secret>, ids: set<Id>, s: Id, d: Id)
    requires ids <= rows.Keys && s in rows && s !in ids
    ensures |InEnvironment(rows, ids + {s}, d)|
         == |InEnvironment(rows, ids, d)| + if d == rows[s].environmentId then 1 else 0
  {
    assert InEnvironment(rows, ids + {s}, d)
        == InEnvironment(rows, ids, d) + if d == rows[s].environmentId then {s} else {};
  }

  lemma BumpedAll(db: Db, rows: map<Id, Secret>, all: set<Id>)
    requires all <= rows.Keys
    requires all == set s | s in db.secrets && s in rows && VersionOrLifeChanged(db.secrets[s], rows[s])
    ensures db.(secrets := rows, environments := Bumped(db.environments, rows, all)) == UpdateSecrets(db, rows)
  {
    forall e | e in db.environments ensures InEnvironment(rows, all, e) == Changed(db.secrets, rows, e) {}
  }
}
