/** One committed transaction after another: what holds in every reachable state and between any two of them. */
module Transactions {
  import opened Wrappers
  import opened Strings
  import opened Database
  import opened Operations
  import opened Evolution
  import opened Preservation
  import opened Hierarchy
  import opened Batches
  import WriteEffects

  datatype Op =
    | OpCreateProject(slug: Text, slugs: seq<Text>)
    | OpDeleteProject(p: Id, now: Time, recovery: Window)
    | OpRestoreProject(p: Id, now: Time)
    | OpCreateEnvironment(p: Id, slug: Text)
    | OpDeleteEnvironment(e: Id, confirm: bool, now: Time, recovery: Window)
    | OpRestoreEnvironment(e: Id, now: Time)
    | OpCreateSecret(p: Id, e: Id, input: SetSecret)
    | OpUpdateSecret(s: Id, value: Given<Text>, notes: Given<Option<Text>>, expected: Given<nat>)
    | OpRollback(s: Id, version: int, expected: Given<nat>)
    | OpDeleteSecret(s: Id, now: Time)
    | OpBulkSet(p: Id, e: Id, inputs: seq<SetSecret>)
    | OpImport(p: Id, e: Id, inputs: seq<SetSecret>, strategy: Strategy, selected: set<Text>)
    | OpPromote(p: Id, source: Id, target: Id, keys: Option<seq<Text>>, rows: seq<Id>)

  ghost function Step(db: Db, op: Op): Result<Db, Error> {
    match op
    case OpCreateProject(slug, slugs) => CreateProject(db, slug, slugs)
    case OpDeleteProject(p, now, recovery) => DeleteProject(db, p, now, recovery)
    case OpRestoreProject(p, now) => RestoreProject(db, p, now)
    case OpCreateEnvironment(p, slug) => CreateEnvironment(db, p, slug)
    case OpDeleteEnvironment(e, confirm, now, recovery) => DeleteEnvironment(db, e, confirm, now, recovery)
    case OpRestoreEnvironment(e, now) => RestoreEnvironment(db, e, now)
    case OpCreateSecret(p, e, input) => CreateSecret(db, p, e, input)
    case OpUpdateSecret(s, value, notes, expected) => UpdateSecret(db, s, value, notes, expected)
    case OpRollback(s, version, expected) => Rollback(db, s, version, expected)
    case OpDeleteSecret(s, now) => DeleteSecret(db, s, now)
    case OpBulkSet(p, e, inputs) => BulkSet(db, p, e, inputs)
    case OpImport(p, e, inputs, strategy, selected) =>
      var t :- ImportBatch(db, p, e, inputs, strategy, selected);
      Ok(t.db)
    case OpPromote(p, source, target, keys, rows) =>
      :- Need(Readable(db, source, keys, rows), NotFound);
      Promote(db, p, source, target, keys, rows)
  }

  /** A failed transaction is rolled back. */
  ghost function Commit(db: Db, op: Op): Db {
    match Step(db, op)
    case Ok(after) => after
    case Err(_) => db
  }

  ghost function Run(db: Db, ops: seq<Op>): Db {
    if ops == [] then db else Commit(Run(db, ops[..|ops| - 1]), ops[|ops| - 1])
  }

  // ---- each kind of transaction ----

  /** An update of one row that touches only notes or the deletion time. */
  lemma RowUpdateKeeps(db: Db, s: Id, row: Secret)
    requires Valid(db) && ActiveSecret(db, s) && IsNormalized(row.notes)
    requires row == db.secrets[s].(notes := row.notes, deletedAt := row.deletedAt)
    ensures Keeps(db, UpdateSecrets(db, db.secrets[s := row]))
  {
    var b := UpdateSecrets(db, db.secrets[s := row]);
    UpdateOneRow(db, s, row);
    hide SecretOk, EnvironmentOk, ProjectOk, Evolves, SlugsUnique, KeysUnique, VersionsOk;
    SameParentsOk(db, b);
    assert b.secrets == db.secrets[s := row] && b.versions == db.versions;
    RowUpdateSecrets(db, b, s, row);
    UpdateEvolves(db, db.secrets[s := row]);
    assert SameHistory(db, b);
    SameHistoryOk(db, b);
  }

  lemma RowUpdateSecrets(a: Db, b: Db, s: Id, row: Secret)
    requires Valid(a) && ActiveSecret(a, s) && IsNormalized(row.notes)
    requires row == a.secrets[s].(notes := row.notes, deletedAt := row.deletedAt)
    requires b.secrets == a.secrets[s := row] && b.nextId == a.nextId && SameEnvironments(a.environments, b.environments)
    ensures forall t :: t in b.secrets ==> SecretOk(b, t)
  {
    forall t | t in b.secrets ensures SecretOk(b, t) { assert SecretOk(a, s) && SecretOk(a, t); }
  }

  lemma StoredNotesAreNormalized(db: Db, s: Id)
    requires Valid(db) && s in db.secrets
    ensures IsNormalized(db.secrets[s].notes)
  {
    assert SecretOk(db, s);
  }

  lemma NotesUpdateKeeps(db: Db, s: Id, notes: Given<Option<Text>>, expected: Given<nat>)
    requires Valid(db) && UpdateSecret(db, s, None, notes, expected).Ok?
    ensures Keeps(db, UpdateSecret(db, s, None, notes, expected).value)
  {
    hide Keeps, ValidateNotes, UpdateSecrets, IsNormalized, Valid;
    StoredNotesAreNormalized(db, s);
    NotesAreNormalized(notes);
    var before := db.secrets[s];
    RowUpdateKeeps(db, s, before.(notes := if notes == None then before.notes else ValidateNotes(notes).value));
  }

  lemma ValueUpdateKeeps(db: Db, s: Id, value: Text, notes: Given<Option<Text>>, expected: Given<nat>)
    requires Valid(db) && UpdateSecret(db, s, Some(value), notes, expected).Ok?
    ensures Keeps(db, UpdateSecret(db, s, Some(value), notes, expected).value)
  {
    hide Valid, Keeps, WriteVersion, ValidateNotes;
    WriteVersionKeeps(db, s, value, notes);
  }

  lemma UpdateSecretKeeps(db: Db, s: Id, value: Given<Text>, notes: Given<Option<Text>>, expected: Given<nat>)
    requires Valid(db) && UpdateSecret(db, s, value, notes, expected).Ok?
    ensures Keeps(db, UpdateSecret(db, s, value, notes, expected).value)
  {
    hide *;
    match value
    case None => NotesUpdateKeeps(db, s, notes, expected);
    case Some(text) => ValueUpdateKeeps(db, s, text, notes, expected);
  }

  lemma ProjectOpsKeep(db: Db, op: Op)
    requires Valid(db) && Step(db, op).Ok?
    requires op.OpCreateProject? || op.OpDeleteProject? || op.OpRestoreProject?
    ensures Keeps(db, Step(db, op).value)
  {
    var b := Step(db, op).value;
    match op
    case OpCreateProject(slug, slugs) => CreateProjectValid(db, slug, slugs);
    case OpDeleteProject(p, now, recovery) =>
      DeleteProjectResult(db, b, p, now, recovery);
      ProjectDeletedValid(db, b, p, now, recovery);
      DeleteProjectEvolves(db, b, p, now, recovery);
    case OpRestoreProject(p, now) =>
      RestoreProjectResult(db, b, p, now);
      ProjectRestoredValid(db, b, p);
      RestoreProjectEvolves(db, b, p, now);
  }

  lemma EnvironmentOpsKeep(db: Db, op: Op)
    requires Valid(db) && Step(db, op).Ok?
    requires op.OpCreateEnvironment? || op.OpDeleteEnvironment? || op.OpRestoreEnvironment?
    ensures Keeps(db, Step(db, op).value)
  {
    var b := Step(db, op).value;
    match op
    case OpCreateEnvironment(p, slug) => CreateEnvironmentValid(db, p, slug);
    case OpDeleteEnvironment(e, confirm, now, recovery) =>
      DeleteEnvironmentResult(db, b, e, confirm, now, recovery);
      EnvironmentDeletedValid(db, b, e, now, recovery);
      DeleteEnvironmentEvolves(db, b, e, confirm, now, recovery);
    case OpRestoreEnvironment(e, now) =>
      RestoreEnvironmentResult(db, b, e, now);
      EnvironmentRestoredValid(db, b, e);
      RestoreEnvironmentEvolves(db, b, e, now);
  }

  lemma DeleteSecretKeeps(db: Db, s: Id, now: Time)
    requires Valid(db) && DeleteSecret(db, s, now).Ok?
    ensures Keeps(db, DeleteSecret(db, s, now).value)
  {
    hide Keeps;
    assert SecretOk(db, s);
    hide Valid, KeysUnique, SlugsUnique, VersionsOk;
    RowUpdateKeeps(db, s, db.secrets[s].(deletedAt := Some(now)));
  }

  lemma RollbackKeeps(db: Db, s: Id, version: int, expected: Given<nat>)
    requires Valid(db) && Rollback(db, s, version, expected).Ok?
    ensures Keeps(db, Rollback(db, s, version, expected).value)
  {
    hide Valid, Keeps, WriteVersion;
    WriteVersionKeeps(db, s, db.versions[VersionId(s, version)], None);
  }

  lemma SecretOpsKeep(db: Db, op: Op)
    requires Valid(db) && Step(db, op).Ok?
    requires op.OpCreateSecret? || op.OpUpdateSecret? || op.OpRollback? || op.OpDeleteSecret?
    ensures Keeps(db, Step(db, op).value)
  {
    hide Keeps, Valid, CreateSecret, UpdateSecret, Rollback, DeleteSecret;
    match op
    case OpCreateSecret(p, e, input) => CreateSecretKeeps(db, p, e, input);
    case OpUpdateSecret(s, value, notes, expected) => UpdateSecretKeeps(db, s, value, notes, expected);
    case OpRollback(s, version, expected) => RollbackKeeps(db, s, version, expected);
    case OpDeleteSecret(s, now) => DeleteSecretKeeps(db, s, now);
  }

  lemma BatchOpsKeep(db: Db, op: Op)
    requires Valid(db) && Step(db, op).Ok?
    requires op.OpBulkSet? || op.OpImport? || op.OpPromote?
    ensures Keeps(db, Step(db, op).value)
  {
    hide Keeps, Valid, BulkItems, ImportItems, PromoteItems;
    match op
    case OpBulkSet(p, e, inputs) =>
      BulkItemsKeep(db, p, e, inputs, ValidateKeys(inputs).value);
    case OpImport(p, e, inputs, strategy, selected) =>
      ImportItemsKeep(db, p, e, inputs, ValidateKeys(inputs).value, strategy, selected);
    case OpPromote(p, source, target, keys, rows) =>
      PromoteItemsKeep(db, p, source, target, rows);
  }

  lemma StepKeepsTables(db: Db, op: Op)
    requires Valid(db) && Step(db, op).Ok?
    ensures Keeps(db, Step(db, op).value)
  {
    hide *;
    match op
    case OpCreateProject(_, _) => ProjectOpsKeep(db, op);
    case OpDeleteProject(_, _, _) => ProjectOpsKeep(db, op);
    case OpRestoreProject(_, _) => ProjectOpsKeep(db, op);
    case OpCreateEnvironment(_, _) => EnvironmentOpsKeep(db, op);
    case OpDeleteEnvironment(_, _, _, _) => EnvironmentOpsKeep(db, op);
    case OpRestoreEnvironment(_, _) => EnvironmentOpsKeep(db, op);
    case OpCreateSecret(_, _, _) => SecretOpsKeep(db, op);
    case OpUpdateSecret(_, _, _, _) => SecretOpsKeep(db, op);
    case OpRollback(_, _, _) => SecretOpsKeep(db, op);
    case OpDeleteSecret(_, _) => SecretOpsKeep(db, op);
    case OpBulkSet(_, _, _) => BatchOpsKeep(db, op);
    case OpImport(_, _, _, _, _) => BatchOpsKeep(db, op);
    case OpPromote(_, _, _, _, _) => BatchOpsKeep(db, op);
  }

  // ---- runs ----

  lemma {:induction false} RunKeeps(db: Db, ops: seq<Op>)
    requires Valid(db)
    ensures Keeps(db, Run(db, ops))
  {
    if ops == [] {
      KeepsSelf(db);
    } else {
      var n := |ops| - 1;
      RunKeeps(db, ops[..n]);
      var before := Run(db, ops[..n]);
      if Step(before, ops[n]).Ok? {
        StepKeepsTables(before, ops[n]);
        KeepsTransitive(db, before, Run(db, ops));
      }
    }
  }

  lemma {:induction false} RunConcat(db: Db, some: seq<Op>, more: seq<Op>)
    ensures Run(db, some + more) == Run(Run(db, some), more)
  {
    if more == [] {
      assert some + more == some;
    } else {
      var n := |more| - 1;
      RunConcat(db, some, more[..n]);
      assert (some + more)[..|some + more| - 1] == some + more[..n];
    }
  }

  lemma EmptyIsValid()
    ensures Valid(Empty)
  {
  }

  /**
    The hierarchy, uniqueness and version invariants hold in every reachable state, and later states extend
    earlier ones.
   */
  lemma Reachable(ops: seq<Op>, n: nat)
    requires n <= |ops|
    ensures Valid(Run(Empty, ops))
    ensures Evolves(Run(Empty, ops[..n]), Run(Empty, ops))
  {
    EmptyIsValid();
    hide Valid, Evolves, Run;
    RunKeeps(Empty, ops);
    RunKeeps(Empty, ops[..n]);
    assert ops == ops[..n] + ops[n..];
    RunConcat(Empty, ops[..n], ops[n..]);
    RunKeeps(Run(Empty, ops[..n]), ops[n..]);
  }

  /** Equal config versions at any two moments of any run mean equal runtime configurations. */
  lemma ConfigVersionNamesView(ops: seq<Op>, m: nat, n: nat, e: Id)
    requires m <= n <= |ops|
    requires e in Run(Empty, ops[..m]).environments && e in Run(Empty, ops[..n]).environments
    requires Run(Empty, ops[..m]).environments[e].configVersion == Run(Empty, ops[..n]).environments[e].configVersion
    ensures View(Run(Empty, ops[..m]), e) == View(Run(Empty, ops[..n]), e)
  {
    assert ops[..n][..m] == ops[..m];
    Reachable(ops[..n], m);
    assert EnvironmentEvolves(Run(Empty, ops[..m]), Run(Empty, ops[..n]), e);
  }

  /** A recorded plaintext is there for good, and a secret's versions are 1 to its current version. */
  lemma HistoryIsAppendOnly(ops: seq<Op>, n: nat, s: Id, v: nat)
    requires n <= |ops| && s in Run(Empty, ops[..n]).secrets
    requires 1 <= v <= Run(Empty, ops[..n]).secrets[s].currentVersion
    ensures VersionId(s, v) in Run(Empty, ops[..n]).versions && VersionId(s, v) in Run(Empty, ops).versions
    ensures Run(Empty, ops).versions[VersionId(s, v)] == Run(Empty, ops[..n]).versions[VersionId(s, v)]
    ensures s in Run(Empty, ops).secrets && v <= Run(Empty, ops).secrets[s].currentVersion
    ensures VersionId(s, Run(Empty, ops).secrets[s].currentVersion + 1) !in Run(Empty, ops).versions
  {
    hide *;
    Reachable(ops, n);
    Reachable(ops[..n], n);
    VersionsAreKept(Run(Empty, ops[..n]), Run(Empty, ops), s, v);
  }

  lemma VersionsAreKept(past: Db, now: Db, s: Id, v: nat)
    requires Valid(past) && Valid(now) && Evolves(past, now)
    requires s in past.secrets && 1 <= v <= past.secrets[s].currentVersion
    ensures VersionId(s, v) in past.versions && VersionId(s, v) in now.versions
    ensures now.versions[VersionId(s, v)] == past.versions[VersionId(s, v)]
    ensures s in now.secrets && v <= now.secrets[s].currentVersion
    ensures VersionId(s, now.secrets[s].currentVersion + 1) !in now.versions
  {
    assert VersionsOk(past) && VersionsOk(now);
    hide Valid, EnvironmentEvolves;
    assert SecretEvolves(past, now, s);
  }

  // ---- compare and set ----

  /** A request that appends a version of s on condition that the current one is the expected. */
  predicate IsConditionalWrite(op: Op, s: Id, expected: nat) {
    || (op.OpUpdateSecret? && op.s == s && op.value.Some? && op.expected == Some(expected))
    || (op.OpRollback? && op.s == s && op.expected == Some(expected))
  }

  lemma ConditionalWriteAdvances(db: Db, op: Op, s: Id, expected: nat)
    requires Valid(db) && IsConditionalWrite(op, s, expected) && Step(db, op).Ok?
    ensures s in Step(db, op).value.secrets && Step(db, op).value.secrets[s].currentVersion == expected + 1
  {
    hide Valid;
    if op.OpUpdateSecret? {
      WriteVersionWrites(db, s, db.secrets[s], op.value.value, op.notes);
    } else {
      WriteVersionWrites(db, s, db.secrets[s], db.versions[VersionId(s, op.version)], None);
    }
  }

  /**
    A write that expects a version which is not the current one of an active secret gets the version conflict, unless
    it is a rollback to no version at all.
   */
  lemma StaleWriteFails(db: Db, op: Op, s: Id, expected: nat)
    requires Valid(db) && IsConditionalWrite(op, s, expected)
    requires ActiveSecret(db, s) ==> db.secrets[s].currentVersion != expected
    ensures Step(db, op) == Err(
              if op.OpRollback? && op.version < 1 then InvalidInput
              else if ActiveSecret(db, s) then VersionConflict
              else NotFound)
  {
    hide Valid, Rollback, UpdateSecret, ActiveSecret;
    if op.OpUpdateSecret? {
      StaleUpdate(db, s, op.value, op.notes, expected);
    } else {
      StaleRollback(db, s, op.version, expected);
    }
  }

  lemma StaleUpdate(db: Db, s: Id, value: Given<Text>, notes: Given<Option<Text>>, expected: nat)
    requires Valid(db) && (ActiveSecret(db, s) ==> db.secrets[s].currentVersion != expected)
    ensures UpdateSecret(db, s, value, notes, Some(expected))
         == Err(if ActiveSecret(db, s) then VersionConflict else NotFound)
  {
    hide Valid, WriteVersion, ValidateNotes, UpdateSecrets;
    if ActiveSecret(db, s) {
      WriteEffects.ActiveIsOpen(db, s);
    }
  }

  lemma StaleRollback(db: Db, s: Id, target: int, expected: nat)
    requires Valid(db) && (ActiveSecret(db, s) ==> db.secrets[s].currentVersion != expected)
    ensures Rollback(db, s, target, Some(expected))
         == Err(if target < 1 then InvalidInput else if ActiveSecret(db, s) then VersionConflict else NotFound)
  {
    hide Valid, WriteVersion;
    if ActiveSecret(db, s) {
      WriteEffects.ActiveIsOpen(db, s);
    }
  }

  /** Of all writes in a run that expect the same version of a secret, at most one succeeds. */
  lemma AtMostOneWriterWins(ops: seq<Op>, i: nat, j: nat, s: Id, expected: nat)
    requires i < j < |ops| && IsConditionalWrite(ops[i], s, expected) && IsConditionalWrite(ops[j], s, expected)
    ensures Step(Run(Empty, ops[..i]), ops[i]).Err? || Step(Run(Empty, ops[..j]), ops[j]).Err?
  {
    var first := Run(Empty, ops[..i]);
    if Step(first, ops[i]).Ok? {
      Reachable(ops[..i], i);
      assert ops[..i][..i] == ops[..i];
      ConditionalWriteAdvances(first, ops[i], s, expected);
      assert ops[..j][..i + 1] == ops[..i + 1] && ops[..i + 1][..i] == ops[..i];
      Reachable(ops[..j], i + 1);
      var past, now := Run(Empty, ops[..i + 1]), Run(Empty, ops[..j]);
      assert past == Step(first, ops[i]).value;
      assert SecretEvolves(past, now, s);
      StaleWriteFails(now, ops[j], s, expected);
    }
  }
}
