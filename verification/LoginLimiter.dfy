/** LoginAttemptLimiter of the authentication service. */
module LoginLimiter {
  import opened Wrappers
  import opened Strings
  import opened FixedWindow

  /** The meaning of blocked, from the failures since the identity was last cleared. */
  predicate Blocked(log: Log, identity: Text, now: int, window: Window, max: nat) {
    var bucket := Replay(TimesOf(log, identity), window);
    IsLive(bucket, now) && bucket.value.count >= max
  }

  predicate AnyBlocked(log: Log, identities: seq<Text>, now: int, window: Window, max: nat) {
    exists i :: 0 <= i < |identities| && Blocked(log, identities[i], now, window, max)
  }

  function Record(log: Log, identities: seq<Text>, now: int): Log {
    if identities == [] then log
    else Add(Record(log, identities[..|identities| - 1], now), identities[|identities| - 1], now)
  }

  function Cleared(log: Log, identities: seq<Text>): Log {
    map key | key in log && key !in identities :: log[key]
  }

  /** Without the clock stepping back, what is remembered blocks an identity exactly if all its failures do. */
  lemma BlockedAgrees(log: Log, recent: Log, identity: Text, late: int, now: int, window: Window, max: nat)
    requires Agrees(log, recent, identity, window, late) && (identity in recent || late <= now)
    ensures Blocked(recent, identity, now, window, max) == Blocked(log, identity, now, window, max)
  {
    hide TimesOf;
    assert identity in recent ==> TimesOf(recent, identity) == recent[identity] by { RecentTimes(recent, identity); }
    assert identity !in recent ==> TimesOf(recent, identity) == [] by { RecentTimes(recent, identity); }
  }

  lemma RecentTimes(recent: Log, identity: Text)
    ensures TimesOf(recent, identity) == if identity in recent then recent[identity] else []
  {
  }

  lemma AnyBlockedAgrees(log: Log, recent: Log, identities: seq<Text>, now: int, window: Window, max: nat)
    requires AllAgree(log, recent, window, now) && AreLatest(log, recent)
    ensures AnyBlocked(recent, identities, now, window, max) == AnyBlocked(log, identities, now, window, max)
  {
    hide Blocked, Replay, IsSuffix;
    forall i | 0 <= i < |identities|
      ensures Blocked(recent, identities[i], now, window, max) == Blocked(log, identities[i], now, window, max)
    {
      if identities[i] !in log {
        NoFailures(log, recent, identities[i], window, now);
      }
      BlockedAgrees(log, recent, identities[i], now, now, window, max);
    }
  }

  lemma NoFailures(log: Log, recent: Log, identity: Text, window: Window, now: int)
    requires AreLatest(log, recent) && identity !in log
    ensures Agrees(log, recent, identity, window, now)
  {
  }

  lemma NothingBlocks(before: Log, recent: Log, identity: Text, now: int, window: Window, max: nat)
    requires Forgets(before, recent, window, now) && identity !in recent
    ensures !Blocked(before, identity, now, window, max)
  {
  }

  lemma AgreesLater(log: Log, recent: Log, window: Window, late: int, now: int)
    requires AllAgree(log, recent, window, late) && (late <= now || log == map[])
    ensures AllAgree(log, recent, window, now)
  {
    hide Replay;
    forall key | key in log ensures Agrees(log, recent, key, window, now) {
      assert Agrees(log, recent, key, window, late);
    }
  }

  lemma ForgetNothing(recent: Log, window: Window, now: int)
    ensures Forgets(recent, recent, window, now)
  {
  }

  lemma ForgetsTwice(a: Log, b: Log, c: Log, window: Window, now: int)
    requires Forgets(a, b, window, now) && Forgets(b, c, window, now)
    ensures Forgets(a, c, window, now)
  {
    hide Replay, IsLive;
  }

  lemma ForgettingBlocksAlike(before: Log, after: Log, identities: seq<Text>, now: int, window: Window, max: nat)
    requires Forgets(before, after, window, now)
    ensures AnyBlocked(after, identities, now, window, max) == AnyBlocked(before, identities, now, window, max)
  {
    hide Replay;
    forall i | 0 <= i < |identities|
      ensures Blocked(after, identities[i], now, window, max) == Blocked(before, identities[i], now, window, max)
    {
      if identities[i] !in after {
        NothingBlocks(before, after, identities[i], now, window, max);
        ForgetNothing(after, window, now);
        NothingBlocks(after, after, identities[i], now, window, max);
      }
    }
  }

  lemma ClearNone(log: Log)
    ensures Cleared(log, []) == log
  {
  }

  lemma ClearOne(log: Log, identities: seq<Text>, i: nat)
    requires i < |identities|
    ensures Cleared(log, identities[..i]) - {identities[i]} == Cleared(log, identities[..i + 1])
  {
    assert identities[..i + 1] == identities[..i] + [identities[i]];
  }

  lemma ClearingKeeps(buckets: map<Text, Bucket>, log: Log, recent: Log, identity: Text, window: Window)
    requires Stores(buckets, recent, window) && AreLatest(log, recent)
    ensures Stores(buckets - {identity}, recent - {identity}, window)
    ensures AreLatest(log - {identity}, recent - {identity})
  {
    hide Replay, IsSuffix;
  }

  lemma ClearingAgrees(log: Log, recent: Log, identity: Text, window: Window, now: int)
    requires AllAgree(log, recent, window, now)
    ensures AllAgree(log - {identity}, recent - {identity}, window, now)
  {
    hide Replay;
    forall key | key in log - {identity} ensures Agrees(log - {identity}, recent - {identity}, key, window, now) {
      assert Agrees(log, recent, key, window, now);
    }
  }

  /**
    As long as all failures fell into the window that the first one opened: an identity is blocked from the failure
    that makes them max until that window has passed, and not with one failure less.
   */
  lemma BlockedFromMaxFailures(log: Log, identity: Text, now: int, window: Window, max: nat)
    requires identity in log && log[identity] != [] && max > 0
    requires forall i :: 0 <= i < |log[identity]| ==> log[identity][i] < log[identity][0] + window
    ensures Blocked(log, identity, now, window, max) <==> |log[identity]| >= max && now < log[identity][0] + window
  {
    FirstWindow(log[identity], window);
  }

  class LoginAttemptLimiter {
    const window: Window
    const maxFailures: nat
    var buckets: map<Text, Bucket>
    var operations: nat

    /** The failures since each identity was last cleared, and those that the buckets still count. */
    ghost var log: Log
    ghost var recent: Log

    /** The time of the last call, and whether no call came at an earlier time than the one before it. */
    ghost var last: int
    ghost var steady: bool

    ghost predicate Valid()
      reads this`buckets, this`log, this`recent, this`last, this`steady
    {
      && maxFailures > 0 && Stores(buckets, recent, window) && AreLatest(log, recent)
      && (steady ==> AllAgree(log, recent, window, last))
    }

    constructor (window: Window, maxFailures: nat)
      requires maxFailures > 0
      ensures Valid() && steady && log == recent == map[]
      ensures this.window == window && this.maxFailures == maxFailures
    {
      this.window, this.maxFailures := window, maxFailures;
      buckets, operations, log, recent, last, steady := map[], 0, map[], map[], 0, true;
    }

    /** Forgetting expired buckets leaves a limiter as valid as it was, from their expiry on. */
    lemma ForgettingKeeps(before: Log, now: int)
      requires AreLatest(log, before) && (steady ==> AllAgree(log, before, window, now))
      requires Forgets(before, recent, window, now)
      ensures AreLatest(log, recent) && (steady ==> AllAgree(log, recent, window, now))
    {
      ForgettingIsLatest(log, before, recent, window, now);
      if steady {
        ForgettingAgrees(log, before, recent, window, now);
      }
    }

    /** The check stops at the first blocked identity and deletes expired buckets on its way. */
    method FindBlocked(identities: seq<Text>, now: int) returns (blocked: bool)
      requires Stores(buckets, recent, window)
      modifies this`buckets, this`recent
      ensures Stores(buckets, recent, window) && Forgets(old(recent), recent, window, now)
      ensures forall key :: key in old(recent) && key !in recent ==> key in identities
      ensures blocked == AnyBlocked(old(recent), identities, now, window, maxFailures)
    {
      hide Replay;
      var i := 0;
      while i < |identities|
        invariant 0 <= i <= |identities| && Stores(buckets, recent, window)
        invariant Forgets(old(recent), recent, window, now)
        invariant forall key :: key in old(recent) && key !in recent ==> key in identities
        invariant forall j :: 0 <= j < i ==> !Blocked(old(recent), identities[j], now, window, maxFailures)
      {
        var identity := identities[i];
        if identity in buckets {
          if buckets[identity].resetAt <= now {
            buckets := buckets - {identity};
            recent := recent - {identity};
          } else if buckets[identity].count >= maxFailures {
            assert Blocked(old(recent), identities[i], now, window, maxFailures);
            return true;
          }
        } else {
          NothingBlocks(old(recent), recent, identity, now, window, maxFailures);
        }
        i := i + 1;
      }
      return false;
    }

    /**
      Whatever the clock does, an identity is blocked by its remembered failures, and only expired ones are forgotten;
      unless the clock has stepped back, all its failures block it exactly when those do.
     */
    method IsBlocked(identities: seq<Text>, now: int) returns (blocked: bool)
      requires Valid()
      modifies this`buckets, this`recent, this`last, this`steady
      ensures Valid() && last == now && steady == (old(steady) && (log == map[] || old(last) <= now))
      ensures Forgets(old(recent), recent, window, now)
      ensures forall key :: key in old(recent) && key !in recent ==> key in identities
      ensures blocked == AnyBlocked(old(recent), identities, now, window, maxFailures)
      ensures steady ==> blocked == AnyBlocked(log, identities, now, window, maxFailures)
    {
      hide AllAgree, AreLatest, AnyBlocked, Forgets, Stores;
      steady := steady && (log == map[] || last <= now);
      if steady {
        AgreesLater(log, recent, window, last, now);
        AnyBlockedAgrees(log, recent, identities, now, window, maxFailures);
      }
      last := now;
      blocked := FindBlocked(identities, now);
      ForgettingKeeps(old(recent), now);
    }

    /** Deletes expired buckets; visited in any order. */
    method Sweep(now: int)
      requires Valid() && now == last
      modifies this`buckets, this`recent
      ensures Valid() && Forgets(old(recent), recent, window, now)
    {
      hide AllAgree, AreLatest, Replay;
      var left := buckets.Keys;
      while left != {}
        invariant Stores(buckets, recent, window) && Forgets(old(recent), recent, window, now)
        decreases |left|
      {
        var identity :| identity in left;
        if identity in buckets && buckets[identity].resetAt <= now {
          buckets := buckets - {identity};
          recent := recent - {identity};
        }
        left := left - {identity};
      }
      ForgettingKeeps(old(recent), now);
    }

    method RecordOne(identity: Text, now: int)
      requires Valid() && last == now
      modifies this`buckets, this`log, this`recent
      ensures Valid() && log == Add(old(log), identity, now) && recent == Add(old(recent), identity, now)
    {
      hide AllAgree, AreLatest, Stores, Replay;
      var existing := if identity in buckets then Some(buckets[identity]) else None;
      var bucket :=
        if existing == None || existing.value.resetAt <= now then Bucket(0, now + window) else existing.value;
      bucket := bucket.(count := bucket.count + 1);
      AddStores(buckets, recent, identity, window, now);
      AddIsLatest(log, recent, identity, now);
      if steady {
        AddAgrees(log, recent, identity, window, last, now);
      }
      buckets := buckets[identity := bucket];
      log, recent := Add(log, identity, now), Add(recent, identity, now);
    }

    /** One failure for each identity, in order. */
    method RecordAll(identities: seq<Text>, now: int)
      requires Valid() && last == now
      modifies this`buckets, this`log, this`recent
      ensures Valid() && log == Record(old(log), identities, now) && recent == Record(old(recent), identities, now)
    {
      hide Valid, Add;
      for i := 0 to |identities|
        invariant Valid() && log == Record(old(log), identities[..i], now)
        invariant recent == Record(old(recent), identities[..i], now)
      {
        assert identities[..i + 1][..i] == identities[..i];
        RecordOne(identities[i], now);
      }
      assert identities[..|identities|] == identities;
    }

    /** A failed login counts once for each identity, and the answer is what IsBlocked would say. */
    method RecordFailure(identities: seq<Text>, now: int) returns (blocked: bool)
      requires Valid()
      modifies this
      ensures Valid() && last == now && steady == (old(steady) && (old(log) == map[] || old(last) <= now))
      ensures log == Record(old(log), identities, now)
      ensures Forgets(Record(old(recent), identities, now), recent, window, now)
      ensures blocked == AnyBlocked(Record(old(recent), identities, now), identities, now, window, maxFailures)
      ensures steady ==> blocked == AnyBlocked(log, identities, now, window, maxFailures)
    {
      hide AllAgree, AreLatest, Stores, Forgets, AnyBlocked, Record;
      steady := steady && (log == map[] || last <= now);
      if steady {
        AgreesLater(log, recent, window, last, now);
      }
      last := now;
      RecordAll(identities, now);
      ghost var recorded := recent;
      hide Valid;
      operations := operations + |identities|;
      if operations >= 1000 {
        Sweep(now);
        operations := 0;
      } else {
        ForgetNothing(recorded, window, now);
      }
      ForgettingBlocksAlike(recorded, recent, identities, now, window, maxFailures);
      ghost var swept := recent;
      blocked := IsBlocked(identities, now);
      ForgetsTwice(recorded, swept, recent, window, now);
    }

    /** A successful login forgets the failures of its identities and of no other. */
    method Clear(identities: seq<Text>)
      requires Valid()
      modifies this`buckets, this`log, this`recent
      ensures Valid() && log == Cleared(old(log), identities) && recent == Cleared(old(recent), identities)
    {
      hide Stores, AreLatest, AllAgree, Cleared;
      ClearNone(log);
      ClearNone(recent);
      for i := 0 to |identities|
        invariant Valid()
        invariant log == Cleared(old(log), identities[..i]) && recent == Cleared(old(recent), identities[..i])
      {
        var identity := identities[i];
        ClearOne(old(log), identities, i);
        ClearOne(old(recent), identities, i);
        ClearingKeeps(buckets, log, recent, identity, window);
        if steady {
          ClearingAgrees(log, recent, identity, window, last);
        }
        buckets, log, recent := buckets - {identity}, log - {identity}, recent - {identity};
      }
      assert identities[..|identities|] == identities;
    }
  }
}
