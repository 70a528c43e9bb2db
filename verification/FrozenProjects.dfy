/** A deleted project is frozen until it is restored, so restoring is exact however much time passes in between. */
module FrozenProjects {
  import opened Wrappers
  import opened Strings
  import opened Database
  import opened Operations
  import opened Preservation
  import opened Hierarchy
  import opened Batches
  import opened Transactions

  /** The rows of project p are as they were, up to config versions, and there are no new ones. */
  ghost predicate Frozen(a: Db, b: Db, p: Id) {
    && p in a.projects && p in b.projects && b.projects[p] == a.projects[p]
    && (forall e :: e in a.environments && a.environments[e].projectId == p ==> EnvironmentIs(b, e, a.environments[e]))
    && (forall e :: e in b.environments && b.environments[e].projectId == p ==>
          e in a.environments && a.environments[e].projectId == p)
    && (forall s :: s in a.secrets && a.secrets[s].projectId == p ==> SecretIs(b, s, a.secrets[s]))
    && (forall s :: s in b.secrets && b.secrets[s].projectId == p ==>
          s in a.secrets && a.secrets[s].projectId == p)
  }

  lemma FrozenTransitive(a: Db, b: Db, c: Db, p: Id)
    requires Frozen(a, b, p) && Frozen(b, c, p)
    ensures Frozen(a, c, p)
  {
    forall e | e in a.environments && a.environments[e].projectId == p ensures EnvironmentIs(c, e, a.environments[e]) {
      assert EnvironmentIs(b, e, a.environments[e]) && EnvironmentIs(c, e, b.environments[e]);
    }
    forall s | s in a.secrets && a.secrets[s].projectId == p ensures SecretIs(c, s, a.secrets[s]) {
      assert SecretIs(b, s, a.secrets[s]) && SecretIs(c, s, b.secrets[s]);
    }
  }

  lemma ProjectDeletedFreezes(a: Db, b: Db, q: Id, now: Time, recovery: Window, p: Id)
    requires ProjectDeleted(a, b, q, now, recovery) && p != q && p in a.projects
    ensures Frozen(a, b, p)
  {
    forall e | e in a.environments && a.environments[e].projectId == p ensures EnvironmentIs(b, e, a.environments[e]) {
      assert EnvironmentIs(b, e, DropEnvironment(a.environments[e], q, now));
    }
    forall s | s in a.secrets && a.secrets[s].projectId == p ensures SecretIs(b, s, a.secrets[s]) {
      assert SecretIs(b, s, DropSecret(a.secrets[s], q, now));
    }
  }

  lemma ProjectRestoredFreezes(a: Db, b: Db, q: Id, p: Id)
    requires ProjectRestored(a, b, q) && p != q && p in a.projects
    ensures Frozen(a, b, p)
  {
    var t := a.projects[q].deletedAt;
    forall e | e in a.environments && a.environments[e].projectId == p ensures EnvironmentIs(b, e, a.environments[e]) {
      assert EnvironmentIs(b, e, LiftEnvironment(a.environments[e], q, t));
    }
    forall s | s in a.secrets && a.secrets[s].projectId == p ensures SecretIs(b, s, a.secrets[s]) {
      assert SecretIs(b, s, LiftSecret(a.secrets[s], q, t));
    }
  }

  /** Every secret's project is its environment's. */
  ghost predicate Nested(db: Db) {
    forall s :: s in db.secrets ==>
      db.secrets[s].environmentId in db.environments
      && db.environments[db.secrets[s].environmentId].projectId == db.secrets[s].projectId
  }

  lemma ValidIsNested(db: Db)
    requires Valid(db)
    ensures Nested(db)
  {
    forall s | s in db.secrets
      ensures db.secrets[s].environmentId in db.environments
      ensures db.environments[db.secrets[s].environmentId].projectId == db.secrets[s].projectId
    {
      assert SecretOk(db, s);
    }
  }

  /** Writes to an open environment leave other projects alone. */
  lemma TouchesElsewhere(a: Db, b: Db, e: Id, keys: set<Text>, p: Id)
    requires Nested(a) && Nested(b) && Evolves(a, b) && Touches(a, b, e, keys)
    requires p in a.projects && e in a.environments && a.environments[e].projectId != p
    ensures Frozen(a, b, p)
  {
    hide EnvironmentEvolves;
    forall s | s in b.secrets && b.secrets[s].projectId == p ensures s in a.secrets && a.secrets[s].projectId == p {
      assert s in a.secrets ==> SecretEvolves(a, b, s);
    }
    hide Evolves;
  }

  lemma EnvironmentDeletedFreezes(a: Db, b: Db, e: Id, now: Time, recovery: Window, p: Id)
    requires EnvironmentDeleted(a, b, e, now, recovery) && Nested(a) && a.environments[e].projectId != p
    requires p in a.projects
    ensures Frozen(a, b, p)
  {
    forall s | s in a.secrets && a.secrets[s].projectId == p ensures SecretIs(b, s, a.secrets[s]) {
      assert SecretIs(b, s, DropWithEnvironment(a.secrets[s], e, now));
    }
  }

  lemma EnvironmentRestoredFreezes(a: Db, b: Db, e: Id, p: Id)
    requires EnvironmentRestored(a, b, e) && Nested(a) && a.environments[e].projectId != p && p in a.projects
    ensures Frozen(a, b, p)
  {
    forall s | s in a.secrets && a.secrets[s].projectId == p ensures SecretIs(b, s, a.secrets[s]) {
      assert SecretIs(b, s, LiftWithEnvironment(a.secrets[s], e, a.environments[e].deletedAt));
    }
  }

  lemma GrownFreezes(a: Db, b: Db, p: Id)
    requires Grown(a, b) && p in a.projects
    requires forall e :: e in b.environments && e !in a.environments ==> b.environments[e].projectId != p
    ensures Frozen(a, b, p)
  {
  }

  lemma CreateProjectFreezes(a: Db, b: Db, slug: Text, slugs: seq<Text>, p: Id)
    requires Valid(a) && p in a.projects && CreateProject(a, slug, slugs) == Ok(b)
    ensures Frozen(a, b, p)
  {
    hide Frozen, Valid, SlugsUnique, IsSlug, Distinct;
    IdsAreUsed(a);
    GrownFreezes(a, b, p);
  }

  lemma CreateEnvironmentFreezes(a: Db, b: Db, q: Id, slug: Text, p: Id)
    requires Valid(a) && p in a.projects && a.projects[p].deletedAt.Some? && CreateEnvironment(a, q, slug) == Ok(b)
    ensures Frozen(a, b, p)
  {
    hide Frozen, Valid, SlugsUnique, IsSlug, SlugTaken, ActiveEnvironments;
    IdsAreUsed(a);
    GrownFreezes(a, b, p);
  }

  lemma DeleteEnvironmentFreezes(a: Db, b: Db, e: Id, confirm: bool, now: Time, recovery: Window, p: Id)
    requires Valid(a) && p in a.projects && a.projects[p].deletedAt.Some?
    requires DeleteEnvironment(a, e, confirm, now, recovery) == Ok(b)
    ensures Frozen(a, b, p)
  {
    assert ActiveProject(a, a.environments[e].projectId) by { assert EnvironmentOk(a, e); }
    hide Valid, Frozen, Nested, EnvironmentDeleted, ActiveEnvironments, ActiveSecrets, UpdateSecrets;
    ValidIsNested(a);
    DeleteEnvironmentResult(a, b, e, confirm, now, recovery);
    EnvironmentDeletedFreezes(a, b, e, now, recovery, p);
  }

  lemma RestoreEnvironmentFreezes(a: Db, b: Db, e: Id, now: Time, p: Id)
    requires Valid(a) && p in a.projects && a.projects[p].deletedAt.Some? && RestoreEnvironment(a, e, now) == Ok(b)
    ensures Frozen(a, b, p)
  {
    hide Valid, Frozen, Nested, EnvironmentRestored, UpdateSecrets;
    ValidIsNested(a);
    RestoreEnvironmentResult(a, b, e, now);
    EnvironmentRestoredFreezes(a, b, e, p);
  }

  predicate IsHierarchyOp(op: Op) {
    || op.OpCreateProject? || op.OpDeleteProject? || op.OpRestoreProject?
    || op.OpCreateEnvironment? || op.OpDeleteEnvironment? || op.OpRestoreEnvironment?
  }

  lemma HierarchyOpsFreeze(a: Db, b: Db, op: Op, p: Id)
    requires Valid(a) && p in a.projects && a.projects[p].deletedAt.Some? && Step(a, op) == Ok(b)
    requires IsHierarchyOp(op) && !(op.OpRestoreProject? && op.p == p)
    ensures Frozen(a, b, p)
  {
    hide Valid, Frozen, CreateProject, CreateEnvironment, DeleteEnvironment, RestoreEnvironment, RestoreProject,
      ProjectDeleted, ProjectRestored, UpdateSecrets;
    match op
    case OpCreateProject(slug, slugs) => CreateProjectFreezes(a, b, slug, slugs, p);
    case OpCreateEnvironment(q, slug) => CreateEnvironmentFreezes(a, b, q, slug, p);
    case OpDeleteProject(q, now, recovery) =>
      DeleteProjectResult(a, b, q, now, recovery);
      ProjectDeletedFreezes(a, b, q, now, recovery, p);
    case OpRestoreProject(q, now) =>
      RestoreProjectResult(a, b, q, now);
      ProjectRestoredFreezes(a, b, q, p);
    case OpDeleteEnvironment(e, confirm, now, recovery) =>
      DeleteEnvironmentFreezes(a, b, e, confirm, now, recovery, p);
    case OpRestoreEnvironment(e, now) => RestoreEnvironmentFreezes(a, b, e, now, p);
  }

  /** The environment a write to secrets goes to. */
  ghost function TargetOf(db: Db, op: Op): Option<Id> {
    match op
    case OpCreateSecret(_, e, _) => Some(e)
    case OpUpdateSecret(s, _, _, _) => if s in db.secrets then Some(db.secrets[s].environmentId) else None
    case OpRollback(s, _, _) => if s in db.secrets then Some(db.secrets[s].environmentId) else None
    case OpDeleteSecret(s, _) => if s in db.secrets then Some(db.secrets[s].environmentId) else None
    case OpBulkSet(_, e, _) => Some(e)
    case OpImport(_, e, _, _, _) => Some(e)
    case OpPromote(_, _, target, _, _) => Some(target)
    case _ => None
  }

  lemma RowUpdateTouches(db: Db, s: Id, row: Secret)
    requires s in db.secrets && row.environmentId == db.secrets[s].environmentId && row.key == db.secrets[s].key
    ensures Touches(db, UpdateSecrets(db, db.secrets[s := row]), row.environmentId, {row.key})
  {
    UpdateOneRow(db, s, row);
  }

  lemma UpdateSecretTouches(a: Db, s: Id, value: Given<Text>, notes: Given<Option<Text>>, expected: Given<nat>)
    requires Valid(a) && UpdateSecret(a, s, value, notes, expected).Ok?
    ensures s in a.secrets
    ensures OpenEnvironment(a, a.secrets[s].projectId, a.secrets[s].environmentId)
    ensures Touches(a, UpdateSecret(a, s, value, notes, expected).value, a.secrets[s].environmentId, {a.secrets[s].key})
  {
    hide Valid, Touches, WriteVersion;
    var row := a.secrets[s];
    if value == None {
      RowUpdateTouches(a, s, row.(notes := if notes == None then row.notes else ValidateNotes(notes).value));
    } else {
      WriteVersionKeeps(a, s, value.value, notes);
    }
  }

  lemma RollbackTouches(a: Db, s: Id, version: int, expected: Given<nat>)
    requires Valid(a) && Rollback(a, s, version, expected).Ok?
    ensures s in a.secrets
    ensures OpenEnvironment(a, a.secrets[s].projectId, a.secrets[s].environmentId)
    ensures Touches(a, Rollback(a, s, version, expected).value, a.secrets[s].environmentId, {a.secrets[s].key})
  {
    hide Valid, Touches, WriteVersion;
    WriteVersionKeeps(a, s, a.versions[VersionId(s, version)], None);
  }

  lemma SecretOpsTouch(a: Db, b: Db, op: Op) returns (keys: set<Text>)
    requires Valid(a) && Step(a, op) == Ok(b)
    requires op.OpUpdateSecret? || op.OpRollback? || op.OpDeleteSecret?
    ensures TargetOf(a, op).Some? && Touches(a, b, TargetOf(a, op).value, keys)
    ensures exists q :: OpenEnvironment(a, q, TargetOf(a, op).value)
  {
    hide Valid, Touches, UpdateSecret, Rollback;
    match op {
      case OpUpdateSecret(s, value, notes, expected) => UpdateSecretTouches(a, s, value, notes, expected);
      case OpRollback(s, version, expected) => RollbackTouches(a, s, version, expected);
      case OpDeleteSecret(s, now) => RowUpdateTouches(a, s, a.secrets[s].(deletedAt := Some(now)));
    }
    var row := a.secrets[op.s];
    assert OpenEnvironment(a, row.projectId, row.environmentId);
    keys := {row.key};
  }

  lemma BatchOpsTouch(a: Db, b: Db, op: Op) returns (keys: set<Text>)
    requires Valid(a) && Step(a, op) == Ok(b)
    requires op.OpCreateSecret? || op.OpBulkSet? || op.OpImport? || op.OpPromote?
    ensures TargetOf(a, op).Some? && Touches(a, b, TargetOf(a, op).value, keys)
    ensures exists q :: OpenEnvironment(a, q, TargetOf(a, op).value)
  {
    hide Touches, Valid, Put, WriteVersion, ImportItem, CreateSecret, BulkItems, ImportItems, PromoteItems, Distinct;
    OpensTarget(a, b, op);
    match op {
      case OpCreateSecret(p, e, input) =>
        CreateSecretKeeps(a, p, e, input);
        keys := {ValidateKey(input.key, input.allowNonConforming).value};
      case OpBulkSet(p, e, inputs) =>
        keys := KeySet(ValidateKeys(inputs).value);
        BulkItemsKeep(a, p, e, inputs, ValidateKeys(inputs).value);
      case OpImport(p, e, inputs, strategy, selected) =>
        keys := WrittenKeys(a, e, ValidateKeys(inputs).value, strategy, selected);
        ImportItemsKeep(a, p, e, inputs, ValidateKeys(inputs).value, strategy, selected);
      case OpPromote(p, source, target, ks, rows) =>
        keys := KeySet(RowKeys(a, rows));
        PromoteItemsKeep(a, p, source, target, rows);
    }
  }

  /** A successful write goes to an open environment. */
  lemma OpensTarget(a: Db, b: Db, op: Op)
    requires Step(a, op) == Ok(b) && (op.OpCreateSecret? || op.OpBulkSet? || op.OpImport? || op.OpPromote?)
    ensures TargetOf(a, op).Some? && OpenEnvironment(a, op.p, TargetOf(a, op).value)
  {
    hide BulkItems, ImportItems, PromoteItems, WriteVersion, ValidateKeys, Distinct;
  }

  /** No transaction but its restoration changes a deleted project. */
  lemma StepFreezes(db: Db, op: Op, p: Id)
    requires Valid(db) && p in db.projects && db.projects[p].deletedAt.Some?
    requires !(op.OpRestoreProject? && op.p == p)
    ensures Frozen(db, Commit(db, op), p)
  {
    if Step(db, op).Ok? {
      var b := Step(db, op).value;
      if IsHierarchyOp(op) {
        hide Valid, Step, Frozen;
        HierarchyOpsFreeze(db, b, op, p);
      } else {
        WritesFreeze(db, b, op, p);
      }
    } else {
      FrozenSelf(db, p);
    }
  }

  lemma WritesFreeze(db: Db, b: Db, op: Op, p: Id)
    requires Valid(db) && p in db.projects && db.projects[p].deletedAt.Some? && Step(db, op) == Ok(b)
    requires !IsHierarchyOp(op)
    ensures Frozen(db, b, p)
  {
    hide Valid, Step, Frozen, Touches, Evolves, Nested, TargetOf;
    StepKeepsTables(db, op);
    var keys;
    if op.OpUpdateSecret? || op.OpRollback? || op.OpDeleteSecret? {
      keys := SecretOpsTouch(db, b, op);
    } else {
      keys := BatchOpsTouch(db, b, op);
    }
    ValidIsNested(db);
    ValidIsNested(b);
    TouchesElsewhere(db, b, TargetOf(db, op).value, keys, p);
  }

  predicate NeverRestores(ops: seq<Op>, p: Id) {
    forall i :: 0 <= i < |ops| ==> !(ops[i].OpRestoreProject? && ops[i].p == p)
  }

  lemma {:induction false} RunFreezes(db: Db, ops: seq<Op>, p: Id)
    requires Valid(db) && p in db.projects && db.projects[p].deletedAt.Some? && NeverRestores(ops, p)
    ensures Frozen(db, Run(db, ops), p)
  {
    hide Valid, Frozen, Step;
    if ops == [] {
      FrozenSelf(db, p);
    } else {
      var n := |ops| - 1;
      RunFreezes(db, ops[..n], p);
      var before := Run(db, ops[..n]);
      RunKeeps(db, ops[..n]);
      KeepsIsValid(db, before);
      FrozenProject(db, before, p);
      StepFreezes(before, ops[n], p);
      FrozenTransitive(db, before, Run(db, ops), p);
    }
  }

  lemma FrozenSelf(a: Db, p: Id)
    requires p in a.projects
    ensures Frozen(a, a, p)
  {
  }

  lemma FrozenProject(a: Db, b: Db, p: Id)
    requires Frozen(a, b, p)
    ensures p in b.projects && b.projects[p] == a.projects[p]
  {
  }

  /**
    Whatever else happens between the deletion of a project and its restoration, the restored project has exactly
    the environments and secrets it had, each as it was: active ones active, deleted ones deleted as before.
   */
  lemma RestoreAfterAnything(db: Db, p: Id, now: Time, recovery: Window, ops: seq<Op>, later: Time)
    requires Valid(db) && ActiveProject(db, p) && NeverRestores(ops, p) && later < now + recovery
    ensures DeleteProject(db, p, now, recovery).Ok?
    ensures var before := Run(DeleteProject(db, p, now, recovery).value, ops);
            RestoreProject(before, p, later).Ok? && Frozen(db, RestoreProject(before, p, later).value, p)
  {
    var b := DeleteProject(db, p, now, recovery).value;
    DeleteProjectResult(db, b, p, now, recovery);
    ProjectDeletedValid(db, b, p, now, recovery);
    ActiveIsUntagged(db, p);
    assert b.projects[p] == DropProject(db.projects[p], now, recovery);
    hide Valid, ProjectDeleted, Untagged, DeleteProject;
    RunFreezes(b, ops, p);
    var c := Run(b, ops);
    FrozenProject(b, c, p);
    RestoreProjectSucceeds(c, p, later);
    var d := RestoreProject(c, p, later).value;
    RestoreProjectResult(c, d, p, later);
    FrozenRestored(db, b, c, d, p, now, recovery);
  }

  lemma FrozenRestored(a: Db, b: Db, c: Db, d: Db, p: Id, now: Time, recovery: Window)
    requires Untagged(a, p) && ProjectDeleted(a, b, p, now, recovery) && Frozen(b, c, p) && ProjectRestored(c, d, p)
    ensures Frozen(a, d, p)
  {
    forall e | e in a.environments && a.environments[e].projectId == p ensures EnvironmentIs(d, e, a.environments[e]) {
      EnvironmentRestoredAs(a, b, c, d, p, now, recovery, e);
    }
    forall s | s in a.secrets && a.secrets[s].projectId == p ensures SecretIs(d, s, a.secrets[s]) {
      SecretRestoredAs(a, b, c, d, p, now, recovery, s);
    }
    hide EnvironmentIs, SecretIs;
  }

  lemma EnvironmentRestoredAs(a: Db, b: Db, c: Db, d: Db, p: Id, now: Time, recovery: Window, e: Id)
    requires Untagged(a, p) && ProjectDeleted(a, b, p, now, recovery) && Frozen(b, c, p) && ProjectRestored(c, d, p)
    requires e in a.environments && a.environments[e].projectId == p
    ensures EnvironmentIs(d, e, a.environments[e])
  {
    assert EnvironmentIs(b, e, DropEnvironment(a.environments[e], p, now)) && EnvironmentIs(c, e, b.environments[e]);
    assert EnvironmentIs(d, e, LiftEnvironment(c.environments[e], p, Some(now)));
  }

  lemma SecretRestoredAs(a: Db, b: Db, c: Db, d: Db, p: Id, now: Time, recovery: Window, s: Id)
    requires Untagged(a, p) && ProjectDeleted(a, b, p, now, recovery) && Frozen(b, c, p) && ProjectRestored(c, d, p)
    requires s in a.secrets && a.secrets[s].projectId == p
    ensures SecretIs(d, s, a.secrets[s])
  {
    assert SecretIs(b, s, DropSecret(a.secrets[s], p, now)) && SecretIs(c, s, b.secrets[s]);
    assert SecretIs(d, s, LiftSecret(c.secrets[s], p, Some(now)));
  }
}
