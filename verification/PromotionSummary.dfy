/** The counters of a promotion: what its preview announces, what it adds, and what a following preview says. */
module PromotionSummary {
  import opened Wrappers
  import opened Strings
  import opened Database
  import opened Operations
  import opened Batches
  import opened BatchEffects

  datatype Summary = Summary(selected: nat, created: nat, overwritten: nat)

  function CountCreates(items: seq<PromotionItem>): nat {
    if items == [] then 0
    else CountCreates(items[..|items| - 1]) + if items[|items| - 1].overwrite then 0 else 1
  }

  function CountOverwrites(items: seq<PromotionItem>): nat {
    if items == [] then 0
    else CountOverwrites(items[..|items| - 1]) + if items[|items| - 1].overwrite then 1 else 0
  }

  function Summarize(items: seq<PromotionItem>): Summary {
    Summary(|items|, CountCreates(items), CountOverwrites(items))
  }

  ghost predicate AreSecrets(db: Db, rows: seq<Id>) { forall i :: 0 <= i < |rows| ==> rows[i] in db.secrets }

  /** The items of #promotionPreview, in the order of the source rows. */
  ghost function PreviewItems(db: Db, target: Id, rows: seq<Id>): seq<PromotionItem>
    requires Valid(db) && AreSecrets(db, rows)
  {
    seq(|rows|, i requires 0 <= i < |rows| => PreviewItem(db, target, rows[i]))
  }

  lemma {:induction false} SummaryAddsUp(items: seq<PromotionItem>)
    ensures Summarize(items).created + Summarize(items).overwritten == Summarize(items).selected
  {
    if items != [] {
      SummaryAddsUp(items[..|items| - 1]);
    }
  }

  lemma {:induction false} AllOverwrites(items: seq<PromotionItem>)
    requires forall i :: 0 <= i < |items| ==> items[i].overwrite
    ensures Summarize(items) == Summary(|items|, 0, |items|)
  {
    if items != [] {
      AllOverwrites(items[..|items| - 1]);
    }
  }

  lemma PromotionMeans(db: Db, b: Db, source: Id, target: Id, rows: seq<Id>)
    requires IsPromotion(db, b, source, target, rows)
    ensures Valid(b) && Evolves(db, b) && AreSecrets(db, rows)
    ensures Touches(db, b, target, KeySet(RowKeys(db, rows)))
    ensures forall s :: s in rows ==> IsPromoted(db, b, target, s)
  {
    hide Valid, Evolves, Touches, IsPromoted;
    RowsAreSecrets(db, source, rows);
  }

  /** A preview right after a promotion lists the same secrets, all overwrites, none of them changed. */
  lemma FollowingPreviewIsSettled(db: Db, p: Id, source: Id, target: Id, keys: Option<seq<Text>>, rows: seq<Id>)
    requires Valid(db) && Readable(db, source, keys, rows) && Promote(db, p, source, target, keys, rows).Ok?
    ensures var b := Promote(db, p, source, target, keys, rows).value;
            && Valid(b) && AreSecrets(b, rows)
            && Summarize(PreviewItems(b, target, rows)) == Summary(|rows|, 0, |rows|)
            && forall i :: 0 <= i < |rows| ==> !PreviewItems(b, target, rows)[i].changed
  {
    hide *;
    PromotionOutcome(db, p, source, target, keys, rows);
    PromotionMeans(db, Promote(db, p, source, target, keys, rows).value, source, target, rows);
    SettledItems(db, Promote(db, p, source, target, keys, rows).value, target, rows);
  }

  lemma SettledItems(db: Db, b: Db, target: Id, rows: seq<Id>)
    requires Valid(b) && forall s :: s in rows ==> IsPromoted(db, b, target, s)
    ensures AreSecrets(b, rows) && Summarize(PreviewItems(b, target, rows)) == Summary(|rows|, 0, |rows|)
    ensures forall i :: 0 <= i < |rows| ==> !PreviewItems(b, target, rows)[i].changed
  {
    hide Valid, PreviewItem, Mirrored;
    forall i | 0 <= i < |rows|
      ensures rows[i] in b.secrets && PreviewItem(b, target, rows[i]).overwrite
      ensures !PreviewItem(b, target, rows[i]).changed
    {
      assert IsPromoted(db, b, target, rows[i]);
    }
    AllOverwrites(PreviewItems(b, target, rows));
  }

  // ---- the target grows by exactly the announced creations ----

  ghost predicate AreKeysOf(db: Db, rows: seq<Id>, keys: seq<Text>) {
    && |keys| == |rows| && AreSecrets(db, rows)
    && forall i :: 0 <= i < |rows| ==> keys[i] == db.secrets[rows[i]].key
  }

  lemma {:induction false} CreatesAreNewKeys(db: Db, target: Id, rows: seq<Id>, keys: seq<Text>)
    requires Valid(db) && AreKeysOf(db, rows, keys) && Distinct(keys)
    ensures |ExistingKeys(db, target) + KeySet(keys)|
         == |ExistingKeys(db, target)| + Summarize(PreviewItems(db, target, rows)).created
  {
    hide Valid, Distinct, ExistingKeys, PreviewItem, PreviewItems, Summarize, KeySet;
    if rows == [] {
      NothingAnnounced(db, target);
    } else {
      var n := |rows| - 1;
      LastKeyIsNew(keys);
      KeySetSnoc(keys, n);
      assert AreKeysOf(db, rows[..n], keys[..n]) && keys[n] == db.secrets[rows[n]].key;
      hide AreKeysOf;
      CreatesAreNewKeys(db, target, rows[..n], keys[..n]);
      AnnouncedSnoc(db, target, rows);
      ItemCreatesIffFree(db, target, rows[n]);
      OneMore(ExistingKeys(db, target), KeySet(keys[..n]), keys[n]);
    }
  }

  lemma OneMore(a: set<Text>, b: set<Text>, key: Text)
    requires key !in b
    ensures |a + (b + {key})| == |a + b| + if key in a then 0 else 1
  {
    if key in a {
      assert a + (b + {key}) == a + b;
    } else {
      assert key !in a + b && a + (b + {key}) == (a + b) + {key};
    }
  }

  lemma NothingAnnounced(db: Db, target: Id)
    requires Valid(db)
    ensures Summarize(PreviewItems(db, target, [])).created == 0 && KeySet([]) == {}
    ensures ExistingKeys(db, target) + KeySet([]) == ExistingKeys(db, target)
  {
    hide Valid, ExistingKeys, PreviewItem;
    assert KeySet([]) == {};
    assert PreviewItems(db, target, []) == [];
    assert ExistingKeys(db, target) + {} == ExistingKeys(db, target);
  }

  lemma AnnouncedSnoc(db: Db, target: Id, rows: seq<Id>)
    requires Valid(db) && AreSecrets(db, rows) && rows != []
    ensures var n := |rows| - 1;
            && AreSecrets(db, rows[..n]) && rows[n] in db.secrets
            && Summarize(PreviewItems(db, target, rows)).created
            == Summarize(PreviewItems(db, target, rows[..n])).created
               + if PreviewItem(db, target, rows[n]).overwrite then 0 else 1
  {
    hide Valid, PreviewItem;
    var n := |rows| - 1;
    assert PreviewItems(db, target, rows)[..n] == PreviewItems(db, target, rows[..n]);
    CreatesSnoc(PreviewItems(db, target, rows));
  }

  lemma CreatesSnoc(items: seq<PromotionItem>)
    requires items != []
    ensures Summarize(items).created
         == Summarize(items[..|items| - 1]).created + if items[|items| - 1].overwrite then 0 else 1
  {
  }

  lemma LastKeyIsNew(keys: seq<Text>)
    requires keys != [] && Distinct(keys)
    ensures Distinct(keys[..|keys| - 1]) && keys[|keys| - 1] !in KeySet(keys[..|keys| - 1])
  {
  }

  lemma ItemCreatesIffFree(db: Db, target: Id, s: Id)
    requires Valid(db) && s in db.secrets
    ensures PreviewItem(db, target, s).overwrite <==> db.secrets[s].key in ExistingKeys(db, target)
  {
    ExistingMeansFound(db, target, db.secrets[s].key);
    hide Valid, ExistingKeys, FindActive;
  }

  /** The active keys of the target afterwards are the old ones and the promoted ones. */
  lemma KeysAfterPromotion(db: Db, b: Db, target: Id, rows: seq<Id>)
    requires AreSecrets(db, rows) && Touches(db, b, target, KeySet(RowKeys(db, rows))) && Evolves(db, b)
    requires forall s :: s in rows ==> IsPromoted(db, b, target, s)
    ensures ExistingKeys(b, target) == ExistingKeys(db, target) + KeySet(RowKeys(db, rows))
  {
    hide Settled;
    var keys := KeySet(RowKeys(db, rows));
    forall k | k in keys
      ensures k in ExistingKeys(b, target)
    {
      var i :| 0 <= i < |rows| && db.secrets[rows[i]].key == k;
      assert IsPromoted(db, b, target, rows[i]);
      var t :| IsRow(b, target, k, t) && ActiveSecret(b, t);
    }
    forall k | k in ExistingKeys(db, target)
      ensures k in ExistingKeys(b, target) + keys
    {
      var s :| s in db.secrets && ActiveSecret(db, s) && db.secrets[s].environmentId == target && db.secrets[s].key == k;
      assert k in keys || b.secrets[s] == db.secrets[s];
    }
    forall k | k in ExistingKeys(b, target)
      ensures k in ExistingKeys(db, target) + keys
    {
      var s :| s in b.secrets && ActiveSecret(b, s) && b.secrets[s].environmentId == target && b.secrets[s].key == k;
      assert s in db.secrets ==> SecretEvolves(db, b, s);
      assert k in keys || (s in db.secrets && b.secrets[s] == db.secrets[s]);
    }
  }

  /** Conservation: the target gains exactly as many active keys as the preview before the promotion announced. */
  lemma TargetGrowsByCreated(db: Db, p: Id, source: Id, target: Id, keys: Option<seq<Text>>, rows: seq<Id>)
    requires Valid(db) && Readable(db, source, keys, rows) && Promote(db, p, source, target, keys, rows).Ok?
    ensures AreSecrets(db, rows)
    ensures |ExistingKeys(Promote(db, p, source, target, keys, rows).value, target)|
         == |ExistingKeys(db, target)| + Summarize(PreviewItems(db, target, rows)).created
  {
    hide *;
    ReadableIsSourced(db, source, keys, rows);
    PromotionOutcome(db, p, source, target, keys, rows);
    PromotionMeans(db, Promote(db, p, source, target, keys, rows).value, source, target, rows);
    RowsAreSecrets(db, source, rows);
    SelectedKeys(db, source, rows);
    KeysAfterPromotion(db, Promote(db, p, source, target, keys, rows).value, target, rows);
    CreatesAreNewKeys(db, target, rows, RowKeys(db, rows));
  }

  lemma SelectedKeys(db: Db, source: Id, rows: seq<Id>)
    requires Valid(db) && Sourced(db, source, rows)
    ensures Distinct(RowKeys(db, rows)) && AreKeysOf(db, rows, RowKeys(db, rows))
  {
    assert KeysUnique(db);
    hide Valid, KeysUnique, Distinct;
    SourceKeysDistinct(db, source, rows);
    RowsAreSecrets(db, source, rows);
  }

  lemma RowsAreSecrets(db: Db, source: Id, rows: seq<Id>)
    requires Sourced(db, source, rows)
    ensures AreSecrets(db, rows)
  {
    forall i | 0 <= i < |rows| ensures rows[i] in db.secrets { assert rows[i] in rows; }
  }
}
