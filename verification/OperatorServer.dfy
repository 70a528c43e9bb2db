/** The secret store as the environment server that the operator polls. */
module OperatorServer {
  import opened Wrappers
  import opened Strings
  import opened Database
  import T = Transactions
  import TargetSecret
  import O = Operator

  /** The value of a key among pairs with distinct keys. */
  ghost function Lookup(view: set<(Text, Text)>, key: Text): (value: Text)
    requires exists pair :: pair in view && pair.0 == key
    ensures (key, value) in view
  {
    var pair :| pair in view && pair.0 == key;
    assert pair == (key, pair.1);
    pair.1
  }

  /** The object that the runtime endpoint answers. */
  ghost function Content(view: set<(Text, Text)>): TargetSecret.Strs {
    map key | key in (set pair | pair in view :: pair.0) :: Lookup(view, key)
  }

  /** In a valid database the answered object holds exactly the active keys with their current values. */
  lemma ContentIsView(db: Db, e: Id, key: Text, value: Text)
    requires Valid(db)
    ensures key in Content(View(db, e)) && Content(View(db, e))[key] == value <==> (key, value) in View(db, e)
  {
    hide Valid;
    var view := View(db, e);
    if (key, value) in view {
      assert key in (set pair | pair in view :: pair.0) by { assert (key, value).0 == key; }
      ViewIsFunctional(db, e, key, value, Lookup(view, key));
    }
  }

  lemma ViewIsFunctional(db: Db, e: Id, key: Text, v: Text, w: Text)
    requires Valid(db) && (key, v) in View(db, e) && (key, w) in View(db, e)
    ensures v == w
  {
    hide ProjectOk, EnvironmentOk, SecretOk, VersionsOk, SlugsUnique;
    var s :| s in db.secrets && ActiveSecret(db, s) && db.secrets[s].environmentId == e
             && VersionId(s, db.secrets[s].currentVersion) in db.versions
             && (db.secrets[s].key, CurrentValue(db, s)) == (key, v);
    var t :| t in db.secrets && ActiveSecret(db, t) && db.secrets[t].environmentId == e
             && VersionId(t, db.secrets[t].currentVersion) in db.versions
             && (db.secrets[t].key, CurrentValue(db, t)) == (key, w);
    assert KeysUnique(db);
    hide Valid;
    assert IsRow(db, db.secrets[s].environmentId, db.secrets[s].key, t);
  }

  /**
    Every transaction of every run moves an environment the way the operator's machine lets a server move: the config
    version and the answered object both stay, or the version rises.
   */
  lemma CommitsMoveServers(ops: seq<T.Op>, n: nat, e: Id, st: O.State, source: TargetSecret.Source)
    requires n < |ops| && e in T.Run(Empty, ops[..n]).environments && source in st.servers
    requires st.servers[source].version == T.Run(Empty, ops[..n]).environments[e].configVersion
    ensures e in T.Run(Empty, ops[..n + 1]).environments
    ensures var a, b := T.Run(Empty, ops[..n]), T.Run(Empty, ops[..n + 1]);
            var version, content := b.environments[e].configVersion, Content(View(b, e));
            if version == a.environments[e].configVersion then content == Content(View(a, e))
            else O.MoveServer(st, source, version, content).Some?
  {
    hide View, Content, Valid, T.Run;
    T.Reachable(ops[..n + 1], n);
    assert ops[..n + 1][..n] == ops[..n];
    assert EnvironmentEvolves(T.Run(Empty, ops[..n]), T.Run(Empty, ops[..n + 1]), e);
  }
}
