/** What a fixed-window limiter means for one identity: a count that starts anew once its window has passed. */
module FixedWindow {
  import opened Wrappers
  import opened Strings

  type Window = w: int | 0 < w witness 1

  datatype Bucket = Bucket(count: nat, resetAt: int)

  predicate IsLive(bucket: Option<Bucket>, now: int) { bucket.Some? && bucket.value.resetAt > now }

  /** One more event at a time. */
  function Hit(bucket: Option<Bucket>, now: int, window: Window): Bucket {
    if IsLive(bucket, now) then bucket.value.(count := bucket.value.count + 1) else Bucket(1, now + window)
  }

  /** The bucket that an identity's own events leave, if nothing were ever deleted. */
  function Replay(times: seq<int>, window: Window): Option<Bucket> {
    if times == [] then None else Some(Hit(Replay(times[..|times| - 1], window), times[|times| - 1], window))
  }

  predicate Nondecreasing(times: seq<int>) { forall i, j :: 0 <= i < j < |times| ==> times[i] <= times[j] }

  predicate Allows(times: seq<int>, window: Window, limit: nat)
    requires times != []
  {
    Replay(times, window).value.count <= limit
  }

  /** How many of the events in the closed interval were within the limit. */
  function AllowedIn(times: seq<int>, window: Window, limit: nat, low: int, high: int): nat {
    if times == [] then 0
    else
      AllowedIn(times[..|times| - 1], window, limit, low, high)
      + if low <= times[|times| - 1] <= high && Allows(times, window, limit) then 1 else 0
  }

  function Min(a: nat, b: nat): nat { if a < b then a else b }

  lemma {:induction false} NoneBefore(times: seq<int>, window: Window, limit: nat, low: int, high: int)
    requires forall i :: 0 <= i < |times| ==> times[i] < low
    ensures AllowedIn(times, window, limit, low, high) == 0
  {
    if times != [] {
      NoneBefore(times[..|times| - 1], window, limit, low, high);
    }
  }

  lemma {:induction false} AllBeforeReset(times: seq<int>, window: Window)
    requires times != [] && Nondecreasing(times)
    ensures Replay(times, window).value.count >= 1
    ensures times[|times| - 1] < Replay(times, window).value.resetAt <= times[|times| - 1] + window
  {
    if |times| > 1 {
      AllBeforeReset(times[..|times| - 1], window);
    }
  }

  /** How many windows open after low and not after high. */
  function OpensIn(times: seq<int>, window: Window, low: int, high: int): nat {
    if times == [] then 0
    else
      var before, now := times[..|times| - 1], times[|times| - 1];
      OpensIn(before, window, low, high) + if low < now <= high && !IsLive(Replay(before, window), now) then 1 else 0
  }

  /** Up to the end of the interval: the limit for each window that opened inside, and what the last bucket counts. */
  lemma {:induction false} WithinInterval(times: seq<int>, window: Window, limit: nat, low: int, high: int)
    requires times != [] && Nondecreasing(times) && times[|times| - 1] <= high
    ensures AllowedIn(times, window, limit, low, high)
         <= limit * OpensIn(times, window, low, high) + Min(Replay(times, window).value.count, limit)
  {
    var before, now := times[..|times| - 1], times[|times| - 1];
    if before == [] {
      assert AllowedIn(before, window, limit, low, high) == 0 == OpensIn(before, window, low, high);
      assert AllowedIn(times, window, limit, low, high) <= Min(1, limit);
    } else {
      AllBeforeReset(before, window);
      WithinInterval(before, window, limit, low, high);
      if !IsLive(Replay(before, window), now) {
        if now <= low {
          NoneBefore(before, window, limit, low, high);
        } else {
          OneMore(limit, OpensIn(before, window, low, high));
        }
      }
    }
    assert limit * OpensIn(times, window, low, high) >= 0;
  }

  lemma OneMore(limit: nat, n: nat)
    ensures limit * (n + 1) == limit * n + limit
  {
  }

  /**
    With a monotone clock, an interval lets the limit through once, and once more for every window that opens inside:
    the plain limit holds wherever none does.
   */
  lemma {:induction false} LimitPerOpening(times: seq<int>, window: Window, limit: nat, low: int, high: int)
    requires Nondecreasing(times)
    ensures AllowedIn(times, window, limit, low, high) <= limit * (1 + OpensIn(times, window, low, high))
  {
    if times != [] {
      if times[|times| - 1] <= high {
        WithinInterval(times, window, limit, low, high);
        OneMore(limit, OpensIn(times, window, low, high));
      } else {
        LimitPerOpening(times[..|times| - 1], window, limit, low, high);
      }
    }
  }

  /** No second window opens within one window's length of the first. */
  lemma {:induction false} OpensOnce(times: seq<int>, window: Window, low: int)
    requires Nondecreasing(times)
    ensures OpensIn(times, window, low, low + window) <= 1
    ensures times != [] && Replay(times, window).value.resetAt <= low + window ==>
              OpensIn(times, window, low, low + window) == 0
  {
    if times != [] {
      var before := times[..|times| - 1];
      AllBeforeReset(times, window);
      OpensOnce(before, window, low);
      if before != [] { AllBeforeReset(before, window); }
    }
  }

  /** With a monotone clock, no closed interval of one window's length lets more than twice the limit through. */
  lemma AtMostTwiceTheLimit(times: seq<int>, window: Window, limit: nat, low: int)
    requires Nondecreasing(times)
    ensures AllowedIn(times, window, limit, low, low + window) <= 2 * limit
  {
    LimitPerOpening(times, window, limit, low, low + window);
    OpensOnce(times, window, low);
    assert OpensIn(times, window, low, low + window) == 0 || OpensIn(times, window, low, low + window) == 1;
  }

  /** Until the window that the first event opened has passed, the bucket counts all events. */
  lemma {:induction false} FirstWindow(times: seq<int>, window: Window)
    requires times != [] && forall i :: 0 <= i < |times| ==> times[i] < times[0] + window
    ensures Replay(times, window) == Some(Bucket(|times|, times[0] + window))
  {
    if |times| > 1 {
      FirstWindow(times[..|times| - 1], window);
    }
  }

  function Burst(now: int, n: nat): seq<int> { seq(n, _ => now) }

  lemma {:induction false} BurstReplays(
    before: seq<int>, now: int, n: nat, window: Window, limit: nat, low: int, high: int)
    requires !IsLive(Replay(before, window), now) && low <= now <= high
    ensures n > 0 ==> Replay(before + Burst(now, n), window) == Some(Bucket(n, now + window))
    ensures n <= limit ==>
              AllowedIn(before + Burst(now, n), window, limit, low, high)
              == AllowedIn(before, window, limit, low, high) + n
  {
    var times := before + Burst(now, n);
    if n == 0 {
      assert times == before;
    } else {
      BurstReplays(before, now, n - 1, window, limit, low, high);
      assert times[..|times| - 1] == before + Burst(now, n - 1);
      if n == 1 { assert before + Burst(now, 0) == before; }
    }
  }

  /** The bound is reached, by a full burst at each end of the interval. */
  lemma TwiceTheLimitIsReached(window: Window, limit: nat, low: int)
    requires limit > 0
    ensures var times := Burst(low, limit) + Burst(low + window, limit);
            Nondecreasing(times) && AllowedIn(times, window, limit, low, low + window) == 2 * limit
  {
    var first := Burst(low, limit);
    assert [] + first == first;
    BurstReplays([], low, limit, window, limit, low, low + window);
    assert AllowedIn([], window, limit, low, low + window) == 0;
    hide AllowedIn, Replay;
    BurstReplays(first, low + window, limit, window, limit, low, low + window);
  }

  // ---- the reported wait ----

  /** Math.ceil of a number of milliseconds in seconds, and at least 1. */
  function WaitSeconds(bucket: Bucket, now: int): nat {
    var seconds := (bucket.resetAt - now + 999) / 1000;
    if seconds < 1 then 1 else seconds
  }

  /** An identity that waits as long as it was told is let through next. */
  lemma WaitingIsEnough(times: seq<int>, now: int, next: int, window: Window, limit: nat)
    requires limit > 0
    requires next >= now + 1000 * WaitSeconds(Replay(times + [now], window).value, now)
    ensures Allows(times + [now] + [next], window, limit)
  {
    var all := times + [now] + [next];
    assert all[..|all| - 1] == times + [now];
    var bucket := Replay(times + [now], window).value;
    assert bucket.resetAt <= now + 1000 * WaitSeconds(bucket, now);
  }

  /** For a refused event the wait is at most a second longer than needed: a second earlier is still refused. */
  lemma WaitingLessIsNotEnough(times: seq<int>, now: int, next: int, window: Window, limit: nat)
    requires Nondecreasing(times + [now]) && !Allows(times + [now], window, limit)
    requires next <= now + 1000 * (WaitSeconds(Replay(times + [now], window).value, now) - 1)
    ensures !Allows(times + [now] + [next], window, limit)
  {
    var all := times + [now] + [next];
    assert all[..|all| - 1] == times + [now];
    AllBeforeReset(times + [now], window);
  }

  // ---- what a limiter remembers ----

  /** For every key the times of its events. */
  type Log = map<Text, seq<int>>

  function TimesOf(log: Log, key: Text): seq<int> { if key in log then log[key] else [] }

  function Add(log: Log, key: Text, now: int): Log { log[key := TimesOf(log, key) + [now]] }

  predicate IsSuffix(end: seq<int>, times: seq<int>) { |end| <= |times| && times[|times| - |end|..] == end }

  /** What is remembered of each key are its latest events. */
  ghost predicate AreLatest(log: Log, recent: Log) {
    recent.Keys <= log.Keys && forall key :: key in recent ==> IsSuffix(recent[key], log[key])
  }

  /** Every key's events came in order of time, none after the last. */
  ghost predicate InOrder(log: Log, last: int) {
    forall key :: key in log ==> Nondecreasing(log[key]) && forall i :: 0 <= i < |log[key]| ==> log[key][i] <= last
  }

  /** The buckets are the replays of the remembered events. */
  ghost predicate Stores(buckets: map<Text, Bucket>, recent: Log, window: Window) {
    && buckets.Keys == recent.Keys
    && forall key :: key in recent ==> Replay(recent[key], window) == Some(buckets[key])
  }

  /** What is left of a memory from which some keys were dropped whose windows had passed. */
  ghost predicate Forgets(before: Log, after: Log, window: Window, now: int) {
    && (forall key :: key in after ==> key in before && after[key] == before[key])
    && (forall key :: key in before && key !in after ==> !IsLive(Replay(before[key], window), now))
  }

  /** Forgetting made no difference to this key, and cannot make one from now on unless the clock steps back. */
  predicate Agrees(log: Log, recent: Log, key: Text, window: Window, now: int) {
    var whole := Replay(TimesOf(log, key), window);
    if key in recent then Replay(recent[key], window) == whole else !IsLive(whole, now)
  }

  ghost predicate AllAgree(log: Log, recent: Log, window: Window, now: int) {
    forall key :: key in log ==> Agrees(log, recent, key, window, now)
  }

  lemma ReplayOne(times: seq<int>, now: int, window: Window)
    ensures Replay(times + [now], window) == Some(Hit(Replay(times, window), now, window))
  {
    assert (times + [now])[..|times|] == times;
  }

  lemma {:induction false} CountsFromOne(times: seq<int>, window: Window)
    requires times != []
    ensures Replay(times, window).value.count >= 1
  {
    var before, now := times[..|times| - 1], times[|times| - 1];
    if before != [] { CountsFromOne(before, window); }
  }

  /** The next event finds the whole bucket exactly if it was not forgotten too early for this event. */
  lemma NextAgrees(log: Log, recent: Log, key: Text, window: Window, late: int, now: int)
    requires Agrees(log, recent, key, window, late)
    ensures var told, due := Replay(TimesOf(recent, key) + [now], window), Replay(TimesOf(log, key) + [now], window);
            && (told == due <==> key in recent || !IsLive(Replay(TimesOf(log, key), window), now))
            && (told != due ==> told.value.count == 1 < due.value.count)
    ensures late <= now ==> key in recent || !IsLive(Replay(TimesOf(log, key), window), now)
  {
    ReplayOne(TimesOf(recent, key), now, window);
    ReplayOne(TimesOf(log, key), now, window);
    if TimesOf(log, key) != [] { CountsFromOne(TimesOf(log, key), window); }
  }

  lemma AddStores(buckets: map<Text, Bucket>, recent: Log, key: Text, window: Window, now: int)
    requires Stores(buckets, recent, window)
    ensures var bucket := Hit(if key in buckets then Some(buckets[key]) else None, now, window);
            && Stores(buckets[key := bucket], Add(recent, key, now), window)
            && Replay(Add(recent, key, now)[key], window) == Some(bucket)
  {
    ReplayOne(TimesOf(recent, key), now, window);
    assert key !in recent ==> Replay(TimesOf(recent, key), window) == None;
    hide Replay;
  }

  lemma AddIsLatest(log: Log, recent: Log, key: Text, now: int)
    requires AreLatest(log, recent)
    ensures AreLatest(Add(log, key, now), Add(recent, key, now))
  {
    var end, times := TimesOf(recent, key), TimesOf(log, key);
    assert IsSuffix(end, times);
    assert (times + [now])[|times| - |end|..] == times[|times| - |end|..] + [now];
  }

  lemma AddInOrder(log: Log, key: Text, last: int, now: int)
    requires InOrder(log, last) && (last <= now || log == map[])
    ensures InOrder(Add(log, key, now), now)
  {
  }

  lemma ForgettingIsLatest(log: Log, recent: Log, after: Log, window: Window, now: int)
    requires AreLatest(log, recent) && Forgets(recent, after, window, now)
    ensures AreLatest(log, after)
  {
    hide Replay, IsSuffix;
  }

  lemma AddAgrees(log: Log, recent: Log, key: Text, window: Window, late: int, now: int)
    requires AllAgree(log, recent, window, late) && AreLatest(log, recent) && (late <= now || log == map[])
    ensures AllAgree(Add(log, key, now), Add(recent, key, now), window, now)
  {
    if key in log {
      NextAgrees(log, recent, key, window, late, now);
    }
    forall k | k in Add(log, key, now) ensures Agrees(Add(log, key, now), Add(recent, key, now), k, window, now) {
      assert k in log ==> Agrees(log, recent, k, window, late);
    }
  }

  lemma ForgettingAgrees(log: Log, recent: Log, after: Log, window: Window, now: int)
    requires AllAgree(log, recent, window, now) && AreLatest(log, recent) && Forgets(recent, after, window, now)
    ensures AllAgree(log, after, window, now)
  {
    hide Replay;
    forall key | key in log ensures Agrees(log, after, key, window, now) {
      assert Agrees(log, recent, key, window, now);
    }
  }
}
