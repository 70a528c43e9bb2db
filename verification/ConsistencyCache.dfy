/** The report cache of ConsistencyService.compute over the tables of module Database. */
module ConsistencyCache {
  import opened Wrappers
  import opened Strings
  import opened Database
  import opened Operations
  import opened Transactions
  import opened Preservation
  import opened Batches
  import opened Consistency

  /** Instants recorded by the rows; nothing here depends on what they are. */
  type Stamp = int

  datatype EnvironmentRow = EnvironmentRow(id: Id, slug: Text, updatedAt: Stamp)

  datatype SecretRow = SecretRow(id: Id, environmentId: Id, key: Text, version: nat, updatedAt: Stamp)

  /** The hashed document; distinct documents are taken to have distinct hashes. */
  datatype Fingerprint = Fingerprint(environments: seq<EnvironmentRow>, secrets: seq<SecretRow>)

  datatype CacheRow = CacheRow(fingerprint: Fingerprint, findings: seq<Finding>)

  /** The fingerprint is made of the answers to the two queries of compute, in whatever order and with whatever stamps. */
  ghost predicate Describes(db: Db, p: Id, f: Fingerprint) {
    && (forall i, j :: 0 <= i < j < |f.environments| ==> f.environments[i].id != f.environments[j].id)
    && (forall i, j :: 0 <= i < j < |f.secrets| ==> f.secrets[i].id != f.secrets[j].id)
    && (forall e :: (exists r :: r in f.environments && r.id == e) <==> e in ActiveEnvironments(db, p))
    && (forall r :: r in f.environments ==> r.id in db.environments && r.slug == db.environments[r.id].slug)
    && (forall s :: (exists r :: r in f.secrets && r.id == s) <==>
          && s in db.secrets && ActiveSecret(db, s) && db.secrets[s].projectId == p
          && ActiveEnvironment(db, db.secrets[s].environmentId))
    && (forall r :: r in f.secrets ==> Matches(db, r) && r.version == db.secrets[r.id].currentVersion)
  }

  /** The row's version is on record for that secret, environment and key. */
  ghost predicate Matches(db: Db, r: SecretRow) {
    && r.id in db.secrets && r.environmentId == db.secrets[r.id].environmentId && r.key == db.secrets[r.id].key
    && VersionId(r.id, r.version) in db.versions
  }

  function EnvironmentIds(f: Fingerprint): set<Id> { set r | r in f.environments :: r.id }

  /** The plaintexts the rows of a fingerprint stand for. */
  function Plaintexts(versions: map<VersionId, Text>, rows: seq<SecretRow>): (values: seq<SecretValue>)
    requires forall r :: r in rows ==> VersionId(r.id, r.version) in versions
    ensures |values| == |rows|
  {
    seq(|rows|, i requires 0 <= i < |rows| =>
      assert rows[i] in rows;
      SecretValue(rows[i].id, rows[i].environmentId, rows[i].key, versions[VersionId(rows[i].id, rows[i].version)]))
  }

  /** A cache row holds the analysis of the plaintexts its fingerprint stands for. */
  ghost predicate RowOk(db: Db, rules: Rules, row: CacheRow) {
    && (forall r :: r in row.fingerprint.secrets ==> Matches(db, r))
    && multiset(row.findings)
    == Analysis(rules, EnvironmentIds(row.fingerprint), Plaintexts(db.versions, row.fingerprint.secrets))
  }

  /** Versions are neither rewritten nor reused, so a cache row stays right whatever is committed. */
  lemma RowStaysOk(a: Db, b: Db, rules: Rules, row: CacheRow)
    requires RowOk(a, rules, row) && Evolves(a, b)
    ensures RowOk(b, rules, row)
  {
    forall r | r in row.fingerprint.secrets ensures Matches(b, r) {
      assert SecretEvolves(a, b, r.id);
    }
    assert Plaintexts(b.versions, row.fingerprint.secrets) == Plaintexts(a.versions, row.fingerprint.secrets) by {
      forall i | 0 <= i < |row.fingerprint.secrets|
        ensures Plaintexts(b.versions, row.fingerprint.secrets)[i] == Plaintexts(a.versions, row.fingerprint.secrets)[i]
      {
        assert row.fingerprint.secrets[i] in row.fingerprint.secrets;
      }
    }
  }

  /** The findings a fresh analysis of the project's current plaintexts would give. */
  ghost predicate AreCurrent(db: Db, p: Id, rules: Rules, f: Fingerprint, findings: seq<Finding>) {
    && Describes(db, p, f)
    && multiset(findings) == Analysis(rules, EnvironmentIds(f), CurrentValues(db, f))
  }

  ghost function CurrentValues(db: Db, f: Fingerprint): (values: seq<SecretValue>)
    requires forall r :: r in f.secrets ==> Matches(db, r) && r.version == db.secrets[r.id].currentVersion
  {
    seq(|f.secrets|, i requires 0 <= i < |f.secrets| =>
      assert f.secrets[i] in f.secrets && Matches(db, f.secrets[i]);
      var s := f.secrets[i].id;
      SecretValue(s, db.secrets[s].environmentId, db.secrets[s].key, CurrentValue(db, s)))
  }

  lemma CurrentArePlaintexts(db: Db, f: Fingerprint)
    requires forall r :: r in f.secrets ==> Matches(db, r) && r.version == db.secrets[r.id].currentVersion
    ensures CurrentValues(db, f) == Plaintexts(db.versions, f.secrets)
  {
    forall i | 0 <= i < |f.secrets| ensures CurrentValues(db, f)[i] == Plaintexts(db.versions, f.secrets)[i] {
      assert f.secrets[i] in f.secrets;
    }
  }

  class ReportCache {
    var rows: map<Id, CacheRow>
    const rules: Rules

    constructor (rules: Rules)
      ensures this.rules == rules && rows == map[]
    {
      this.rules := rules;
      rows := map[];
    }

    /** Every cache row is right for the tables. */
    ghost predicate Valid(db: Db)
      reads this
    {
      forall p :: p in rows ==> RowOk(db, rules, rows[p])
    }

    /** A transaction on the tables leaves the cache valid. */
    lemma Survives(a: Db, b: Db)
      requires Valid(a) && Evolves(a, b)
      ensures Valid(b)
    {
      forall p | p in rows ensures RowOk(b, rules, rows[p]) { RowStaysOk(a, b, rules, rows[p]); }
    }

    /** compute: serve the cached findings when the fingerprint matches, else analyze and store. */
    method Compute(ghost db: Db, versions: map<VersionId, Text>, p: Id, fingerprint: Fingerprint)
      returns (findings: seq<Finding>, cached: bool)
      requires Valid(db) && versions == db.versions && Describes(db, p, fingerprint)
      modifies this
      ensures Valid(db) && p in rows && rows[p] == CacheRow(fingerprint, findings)
      ensures forall q :: q != p ==> (q in rows <==> q in old(rows)) && (q in rows ==> rows[q] == old(rows)[q])
      ensures cached <==> p in old(rows) && old(rows)[p].fingerprint == fingerprint
      ensures AreCurrent(db, p, rules, fingerprint, findings)
    {
      RowsMatch(db, p, fingerprint);
      CurrentArePlaintexts(db, fingerprint);
      hide Describes, Analysis, CurrentValues, Plaintexts;
      if p in rows && rows[p].fingerprint == fingerprint {
        return rows[p].findings, true;
      }
      findings := Recompute(versions, p, fingerprint);
      cached := false;
    }

    method Recompute(versions: map<VersionId, Text>, p: Id, fingerprint: Fingerprint) returns (findings: seq<Finding>)
      requires forall r :: r in fingerprint.secrets ==> VersionId(r.id, r.version) in versions
      modifies this
      ensures rows == old(rows)[p := CacheRow(fingerprint, findings)]
      ensures multiset(findings)
           == Analysis(rules, EnvironmentIds(fingerprint), Plaintexts(versions, fingerprint.secrets))
    {
      hide Analysis;
      var values := Plaintexts(versions, fingerprint.secrets);
      var entries := fingerprint.environments;
      var environments := seq(|entries|, i requires 0 <= i < |entries| => entries[i].id);
      IdsAreIds(fingerprint, environments);
      findings := AnalyzeConsistency(rules, environments, values);
      rows := rows[p := CacheRow(fingerprint, findings)];
    }
  }

  lemma RowsMatch(db: Db, p: Id, f: Fingerprint)
    requires Describes(db, p, f)
    ensures forall r :: r in f.secrets ==> Matches(db, r) && r.version == db.secrets[r.id].currentVersion
  {
  }

  lemma IdsAreIds(f: Fingerprint, ids: seq<Id>)
    requires |ids| == |f.environments| && forall i :: 0 <= i < |ids| ==> ids[i] == f.environments[i].id
    ensures Ids(ids) == EnvironmentIds(f)
  {
    forall e | e in EnvironmentIds(f) ensures e in ids {
      var r :| r in f.environments && r.id == e;
      var i :| 0 <= i < |f.environments| && f.environments[i] == r;
      assert ids[i] == e;
    }
  }

  /**
    Over any run: findings stored when the fingerprint was computed are, whenever the same fingerprint describes the
    project again, those of the plaintexts of that later moment.
   */
  lemma CachedReportIsCurrent(
    ops: seq<Op>, m: nat, p: Id, rules: Rules, fingerprint: Fingerprint, findings: seq<Finding>)
    requires m <= |ops| && AreCurrent(Run(Empty, ops[..m]), p, rules, fingerprint, findings)
    requires Describes(Run(Empty, ops), p, fingerprint)
    ensures AreCurrent(Run(Empty, ops), p, rules, fingerprint, findings)
  {
    var a, b := Run(Empty, ops[..m]), Run(Empty, ops);
    Reachable(ops, m);
    CurrentArePlaintexts(a, fingerprint);
    RowStaysOk(a, b, rules, CacheRow(fingerprint, findings));
    CurrentArePlaintexts(b, fingerprint);
  }
}
