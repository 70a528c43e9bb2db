/** InMemoryRateLimiter of the API. */
module RateLimiter {
  import opened Wrappers
  import opened Strings
  import opened FixedWindow

  datatype Kind = Ip | ApiKey

  datatype Decision = Decision(allowed: bool, limit: nat, remaining: nat, resetAfterSeconds: nat)

  function BucketKey(kind: Kind, identity: Text): Text {
    (match kind case Ip => Ascii("ip:") case ApiKey => Ascii("api_key:")) + identity
  }

  /** Addresses and keys never share a bucket. */
  lemma BucketKeyIsInjective(kind: Kind, identity: Text, kind': Kind, identity': Text)
    requires BucketKey(kind, identity) == BucketKey(kind', identity')
    ensures kind == kind' && identity == identity'
  {
    assert Ascii("ip:")[0] == 'i' as int && Ascii("api_key:")[0] == 'a' as int;
    assert BucketKey(kind, identity)[0] == BucketKey(kind', identity')[0];
    var n := match kind case Ip => 3 case ApiKey => 8;
    assert BucketKey(kind, identity)[n..] == identity && BucketKey(kind', identity')[n..] == identity';
  }

  /** What one identity is told after these events of its own. */
  function Decide(times: seq<int>, window: Window, limit: nat): Decision
    requires times != []
  {
    var bucket := Replay(times, window).value;
    Decision(Allows(times, window, limit), limit, if bucket.count < limit then limit - bucket.count else 0,
             WaitSeconds(bucket, times[|times| - 1]))
  }

  /** In the window that its first event opened, an identity is let through limit times, and told how often is left. */
  lemma DecidedByCount(times: seq<int>, window: Window, limit: nat)
    requires times != [] && forall i :: 0 <= i < |times| ==> times[i] < times[0] + window
    ensures var d := Decide(times, window, limit);
            && (d.allowed <==> |times| <= limit) && d.limit == limit
            && d.remaining == (if |times| <= limit then limit - |times| else 0)
            && 1000 * (d.resetAfterSeconds - 1) < times[0] + window - times[|times| - 1] <= 1000 * d.resetAfterSeconds
  {
    FirstWindow(times, window);
  }

  /** The remembered events decide as all events would, exactly if the bucket was not forgotten too early. */
  lemma DecisionAgrees(log: Log, recent: Log, key: Text, window: Window, late: int, now: int, limit: nat)
    requires Agrees(log, recent, key, window, late) && limit > 0
    ensures Decide(TimesOf(recent, key) + [now], window, limit) == Decide(TimesOf(log, key) + [now], window, limit)
       <==> key in recent || !IsLive(Replay(TimesOf(log, key), window), now)
  {
    NextAgrees(log, recent, key, window, late, now);
    hide Replay, IsLive, Agrees;
  }

  lemma SteadyAgrees(log: Log, recent: Log, key: Text, window: Window, late: int, now: int)
    requires AllAgree(log, recent, window, late) && AreLatest(log, recent)
    ensures Agrees(log, recent, key, window, late)
    ensures late <= now || log == map[] ==> key in recent || !IsLive(Replay(TimesOf(log, key), window), now)
  {
    hide Nondecreasing, IsSuffix;
  }

  /** A memory without the keys whose windows have passed. */
  function Unexpired(recent: Log, window: Window, now: int): Log {
    map key | key in recent && IsLive(Replay(recent[key], window), now) :: recent[key]
  }

  /** A sweep under way: what it has passed is gone if its window has, and what is left is all there. */
  ghost predicate Swept(before: Log, recent: Log, buckets: map<Text, Bucket>, left: set<Text>, window: Window, now: int) {
    && Stores(buckets, recent, window) && Forgets(before, recent, window, now) && left <= recent.Keys
    && forall key :: key in recent && key !in left ==> IsLive(Replay(recent[key], window), now)
  }

  lemma SweepStarts(buckets: map<Text, Bucket>, recent: Log, window: Window, now: int)
    requires Stores(buckets, recent, window)
    ensures Swept(recent, recent, buckets, buckets.Keys, window, now)
  {
  }

  lemma SweepOne(before: Log, recent: Log, buckets: map<Text, Bucket>, left: set<Text>, key: Text, window: Window,
                 now: int)
    requires Swept(before, recent, buckets, left, window, now) && key in left
    ensures key in buckets
    ensures buckets[key].resetAt <= now ==>
              Swept(before, recent - {key}, buckets - {key}, left - {key}, window, now)
    ensures buckets[key].resetAt > now ==> Swept(before, recent, buckets, left - {key}, window, now)
  {
    hide Replay;
  }

  lemma SweepEnds(before: Log, recent: Log, buckets: map<Text, Bucket>, window: Window, now: int)
    requires Swept(before, recent, buckets, {}, window, now)
    ensures Stores(buckets, recent, window) && Forgets(before, recent, window, now)
    ensures recent == Unexpired(before, window, now)
  {
    hide Replay;
  }

  class InMemoryRateLimiter {
    const window: Window
    const perIp: nat
    const perApiKey: nat
    var buckets: map<Text, Bucket>
    var operations: nat

    /** All events so far by key, and those that the buckets still count. */
    ghost var log: Log
    ghost var recent: Log

    /** The time of the last event, and whether no event came at an earlier time than the one before it. */
    ghost var last: int
    ghost var steady: bool

    function LimitOf(kind: Kind): nat { if kind == Ip then perIp else perApiKey }

    ghost predicate Valid()
      reads this`buckets, this`log, this`recent, this`last, this`steady
    {
      && perIp > 0 && perApiKey > 0 && Stores(buckets, recent, window) && AreLatest(log, recent)
      && (steady ==> AllAgree(log, recent, window, last) && InOrder(log, last))
    }

    constructor (window: Window, perIp: nat, perApiKey: nat)
      requires perIp > 0 && perApiKey > 0
      ensures Valid() && steady && log == recent == map[] && operations == 0
      ensures this.window == window && this.perIp == perIp && this.perApiKey == perApiKey
    {
      this.window, this.perIp, this.perApiKey := window, perIp, perApiKey;
      buckets, operations, log, recent, last, steady := map[], 0, map[], map[], 0, true;
    }

    /**
      As long as the clock has not stepped back, every decision was that of the identity's own events, and no identity
      got more than twice its limit in one window's length.
     */
    lemma NeverMoreThanTwice(kind: Kind, identity: Text, low: int)
      requires Valid() && steady
      ensures AllowedIn(TimesOf(log, BucketKey(kind, identity)), window, LimitOf(kind), low, low + window)
           <= 2 * LimitOf(kind)
    {
      AtMostTwiceTheLimit(TimesOf(log, BucketKey(kind, identity)), window, LimitOf(kind), low);
    }

    /** Deletes expired buckets; visited in any order. */
    method Sweep(now: int)
      requires Valid() && now == last
      modifies this`buckets, this`recent
      ensures Valid() && recent == Unexpired(old(recent), window, now)
    {
      hide AreLatest, AllAgree, InOrder, Replay, Stores, Forgets;
      var left := buckets.Keys;
      SweepStarts(buckets, recent, window, now);
      while left != {}
        invariant Swept(old(recent), recent, buckets, left, window, now)
        decreases |left|
      {
        var key :| key in left;
        SweepOne(old(recent), recent, buckets, left, key, window, now);
        if key in buckets && buckets[key].resetAt <= now {
          buckets := buckets - {key};
          recent := recent - {key};
        }
        left := left - {key};
      }
      SweepEnds(old(recent), recent, buckets, window, now);
      ForgettingIsLatest(log, old(recent), recent, window, now);
      if steady {
        ForgettingAgrees(log, old(recent), recent, window, now);
      }
    }

    /** Counts one event in the bucket of a key, which starts anew if its window has passed. */
    method Count(key: Text, now: int) returns (bucket: Bucket)
      requires Valid()
      modifies this`buckets, this`log, this`recent, this`last, this`steady
      ensures Valid() && log == Add(old(log), key, now) && recent == Add(old(recent), key, now)
      ensures last == now && steady == (old(steady) && (old(log) == map[] || old(last) <= now))
      ensures Replay(recent[key], window) == Some(bucket)
    {
      hide AllAgree, AreLatest, InOrder, Stores, Replay;
      var current := if key in buckets then Some(buckets[key]) else None;
      bucket := if current == None || current.value.resetAt <= now then Bucket(0, now + window) else current.value;
      bucket := bucket.(count := bucket.count + 1);
      AddStores(buckets, recent, key, window, now);
      AddIsLatest(log, recent, key, now);
      if steady && (log == map[] || last <= now) {
        AddAgrees(log, recent, key, window, last, now);
        AddInOrder(log, key, last, now);
      }
      buckets := buckets[key := bucket];
      steady := steady && (log == map[] || last <= now);
      log, recent, last := Add(log, key, now), Add(recent, key, now), now;
    }

    /**
      Whatever the clock does, the decision is a function of this identity's remembered events. It is that of all its
      events, other identities, the counter and the sweeps notwithstanding, unless a clock that stepped back returned
      to a window that a sweep had taken for passed.
     */
    method Consume(kind: Kind, identity: Text, now: int) returns (decision: Decision)
      requires Valid()
      modifies this
      ensures Valid() && last == now && operations == old(operations) + 1
      ensures steady == (old(steady) && (old(log) == map[] || old(last) <= now))
      ensures log == Add(old(log), BucketKey(kind, identity), now)
      ensures var kept := Add(old(recent), BucketKey(kind, identity), now);
              recent == if operations % 1000 == 0 then Unexpired(kept, window, now) else kept
      ensures decision == Decide(TimesOf(old(recent), BucketKey(kind, identity)) + [now], window, LimitOf(kind))
      ensures var key, whole := BucketKey(kind, identity), TimesOf(old(log), BucketKey(kind, identity));
              Agrees(old(log), old(recent), key, window, old(last)) ==>
                (decision == Decide(whole + [now], window, LimitOf(kind)) <==>
                 key in old(recent) || !IsLive(Replay(whole, window), now))
      ensures steady ==> decision == Decide(TimesOf(log, BucketKey(kind, identity)), window, LimitOf(kind))
    {
      hide BucketKey, WaitSeconds, Replay, AreLatest, InOrder, IsLive, AllAgree;
      ghost var key := BucketKey(kind, identity);
      if Agrees(log, recent, key, window, last) {
        DecisionAgrees(log, recent, key, window, last, now, LimitOf(kind));
      }
      if steady {
        SteadyAgrees(log, recent, key, window, last, now);
      }
      hide Valid, Agrees;
      var limit := LimitOf(kind);
      var bucket := Count(BucketKey(kind, identity), now);
      operations := operations + 1;
      if operations % 1000 == 0 {
        Sweep(now);
      }
      decision := Decision(bucket.count <= limit, limit, if bucket.count < limit then limit - bucket.count else 0,
                           WaitSeconds(bucket, now));
    }
  }
}
