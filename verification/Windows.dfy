/** Lists of timestamps pruned to a sliding window. */
module Windows {

  type Time = real

  function Filter(ts: seq<Time>, keep: Time -> bool): seq<Time> {
    if |ts| == 0 then []
    else
      var front := Filter(ts[..|ts| - 1], keep);
      if keep(ts[|ts| - 1]) then front + [ts[|ts| - 1]] else front
  }

  function After(cutoff: Time): Time -> bool { (t: Time) => t > cutoff }

  function Between(lo: Time, hi: Time): Time -> bool { (t: Time) => lo < t <= hi }

  predicate Sorted(ts: seq<Time>) {
    forall i, j :: 0 <= i < j < |ts| ==> ts[i] <= ts[j]
  }

  /** The last n elements, or all of them: Python's ts[-n:]. */
  function Last(ts: seq<Time>, n: nat): seq<Time> {
    if |ts| <= n then ts else ts[|ts| - n..]
  }

  lemma {:induction false} FilterCountMonotone(ts: seq<Time>, p: Time -> bool, q: Time -> bool)
    requires forall t :: t in ts && p(t) ==> q(t)
    ensures |Filter(ts, p)| <= |Filter(ts, q)|
  {
    if |ts| != 0 {
      var front, last := ts[..|ts| - 1], ts[|ts| - 1];
      assert last in ts && forall t :: t in front ==> t in ts;
      FilterCountMonotone(front, p, q);
    }
  }

  lemma {:induction false} FilterIn(ts: seq<Time>, p: Time -> bool)
    ensures forall t :: t in Filter(ts, p) ==> t in ts && p(t)
    ensures |Filter(ts, p)| <= |ts|
  {
    if |ts| != 0 {
      FilterIn(ts[..|ts| - 1], p);
      assert ts == ts[..|ts| - 1] + [ts[|ts| - 1]];
    }
  }

  /** Pruning an already pruned list to a later window is pruning the full list. */
  lemma {:induction false} FilterTwice(ts: seq<Time>, early: Time, late: Time)
    requires early <= late
    ensures Filter(Filter(ts, After(early)), After(late)) == Filter(ts, After(late))
  {
    if |ts| != 0 {
      var front, last := ts[..|ts| - 1], ts[|ts| - 1];
      FilterTwice(front, early, late);
      if last > early {
        var kept := Filter(front, After(early));
        assert (kept + [last])[..|kept|] == kept;
      }
    }
  }

  lemma FilterAppend(ts: seq<Time>, t: Time, p: Time -> bool)
    ensures Filter(ts + [t], p) == if p(t) then Filter(ts, p) + [t] else Filter(ts, p)
  {
    assert (ts + [t])[..|ts|] == ts;
  }

  /** What is after a cutoff is the tail that starts at m, when m separates the list. */
  lemma {:induction false} FilterAt(ts: seq<Time>, m: nat, cutoff: Time)
    requires m <= |ts|
    requires forall i :: 0 <= i < m ==> ts[i] <= cutoff
    requires forall i :: m <= i < |ts| ==> ts[i] > cutoff
    ensures Filter(ts, After(cutoff)) == ts[m..]
  {
    if |ts| != 0 {
      var n := |ts| - 1;
      if m <= n {
        FilterAt(ts[..n], m, cutoff);
        assert ts[..n][m..] + [ts[n]] == ts[m..];
      } else {
        FilterAt(ts[..n], n, cutoff);
      }
    }
  }

  /** A sorted list has such a separating point. */
  lemma {:induction false} CutPoint(ts: seq<Time>, cutoff: Time) returns (m: nat)
    requires Sorted(ts)
    ensures m <= |ts|
    ensures forall i :: 0 <= i < m ==> ts[i] <= cutoff
    ensures forall i :: m <= i < |ts| ==> ts[i] > cutoff
  {
    if |ts| == 0 || ts[|ts| - 1] <= cutoff {
      m := |ts|;
    } else {
      m := CutPoint(ts[..|ts| - 1], cutoff);
    }
  }

  lemma TailSorted(ts: seq<Time>, m: nat)
    requires Sorted(ts) && m <= |ts|
    ensures Sorted(ts[m..])
  {
  }

  lemma TailOfTail(ts: seq<Time>, a: nat, b: nat)
    requires a + b <= |ts|
    ensures ts[a..][b..] == ts[a + b..]
  {
  }

  lemma CapAt(ts: seq<Time>, cap: nat, cutoff: Time, m: nat)
    requires m <= |ts| && cap < |ts|
    requires forall i :: 0 <= i < m ==> ts[i] <= cutoff
    requires forall i :: m <= i < |ts| ==> ts[i] > cutoff
    ensures Filter(ts[|ts| - cap..], After(cutoff)) == Last(ts[m..], cap)
  {
    var cut := |ts| - cap;
    var tail := ts[cut..];
    assert forall i :: 0 <= i < cap ==> tail[i] == ts[cut + i];
    if m <= cut {
      FilterAt(tail, 0, cutoff);
      TailOfTail(ts, m, cut - m);
    } else {
      FilterAt(tail, m - cut, cutoff);
      TailOfTail(ts, cut, m - cut);
    }
  }

  /** Pruning a capped list and capping a pruned list are the same for sorted lists. */
  lemma CapThenPrune(ts: seq<Time>, cap: nat, cutoff: Time)
    requires Sorted(ts)
    ensures Filter(Last(ts, cap), After(cutoff)) == Last(Filter(ts, After(cutoff)), cap)
  {
    var m := CutPoint(ts, cutoff);
    FilterAt(ts, m, cutoff);
    if |ts| > cap {
      CapAt(ts, cap, cutoff, m);
    }
  }
}

/** The API gateway's SimpleRateLimiter (services/api-gateway/main.py). */
module RateLimiter {
  import opened Basics
  import opened Windows

  /** API keys are only compared. */
  type ApiKey = nat

  datatype Call = Call(key: ApiKey, now: Time)

  /** The decision a limiter that never forgets would take. */
  predicate Allowed(accepted: seq<Time>, now: Time, window: Time, maxRequests: int) {
    |Filter(accepted, After(now - window))| < maxRequests
  }

  /** Its list of accepted timestamps after one more call. */
  function Accept(accepted: seq<Time>, now: Time, window: Time, maxRequests: int): seq<Time> {
    if Allowed(accepted, now, window, maxRequests) then accepted + [now] else accepted
  }

  /** All the timestamps that limiter accepted for one key, in order. */
  function History(calls: seq<Call>, key: ApiKey, window: Time, maxRequests: int): seq<Time> {
    if |calls| == 0 then []
    else
      var h, c := History(calls[..|calls| - 1], key, window, maxRequests), calls[|calls| - 1];
      if c.key == key then Accept(h, c.now, window, maxRequests) else h
  }

  /** No window of the configured length, wherever it starts, holds more accepted calls of a key than the limit. */
  lemma {:induction false} WindowBound(calls: seq<Call>, key: ApiKey, window: Time, maxRequests: nat, start: Time)
    ensures |Filter(History(calls, key, window, maxRequests), Between(start, start + window))| <= maxRequests
  {
    if |calls| != 0 {
      var n := |calls| - 1;
      var c, h := calls[n], History(calls[..n], key, window, maxRequests);
      var inside := Between(start, start + window);
      WindowBound(calls[..n], key, window, maxRequests, start);
      if c.key == key && Allowed(h, c.now, window, maxRequests) {
        FilterAppend(h, c.now, inside);
        if inside(c.now) {
          AcceptedFits(h, c.now, window, maxRequests, start);
        }
      }
    }
  }

  lemma AcceptedFits(h: seq<Time>, now: Time, window: Time, maxRequests: nat, start: Time)
    requires Allowed(h, now, window, maxRequests) && start < now <= start + window
    ensures |Filter(h, Between(start, start + window))| < maxRequests
  {
    FilterCountMonotone(h, Between(start, start + window), After(now - window));
  }

  /** The time of a key's last call, if it had one. */
  function LastCall(calls: seq<Call>, key: ApiKey): Option<Time> {
    if |calls| == 0 then None
    else if calls[|calls| - 1].key == key then Some(calls[|calls| - 1].now)
    else LastCall(calls[..|calls| - 1], key)
  }

  /** A stored bucket agrees with a key's full history: it is the history cut to the window of the key's last call. */
  predicate Agrees(bucket: seq<Time>, full: seq<Time>, last: Option<Time>, window: Time) {
    match last
    case None => bucket == [] && full == []
    case Some(t) => bucket == Filter(full, After(t - window))
  }

  function NextBucket(bucket: seq<Time>, now: Time, window: Time, maxRequests: int): seq<Time> {
    var kept := Prune(bucket, now - window);
    if |kept| < maxRequests then kept + [now] else kept
  }

  /** One call on an agreeing bucket takes the decision of the full history and leaves an agreeing bucket. */
  lemma CallAgrees(bucket: seq<Time>, full: seq<Time>, last: Option<Time>, now: Time, window: Time, maxRequests: int)
    requires Agrees(bucket, full, last, window) && (last.Some? ==> last.value <= now) && window > 0.0
    ensures |Prune(bucket, now - window)| < maxRequests <==> Allowed(full, now, window, maxRequests)
    ensures NextBucket(bucket, now, window, maxRequests)
         == Filter(Accept(full, now, window, maxRequests), After(now - window))
  {
    if last.Some? {
      FilterTwice(full, last.value - window, now - window);
    }
    FilterAppend(full, now, After(now - window));
  }

  /** A call adds to the history and last-call time of its own key only. */
  lemma LogStep(log: seq<Call>, c: Call, key: ApiKey, window: Time, maxRequests: int)
    ensures History(log + [c], key, window, maxRequests)
         == (var h := History(log, key, window, maxRequests);
             if c.key == key then Accept(h, c.now, window, maxRequests) else h)
    ensures LastCall(log + [c], key) == if c.key == key then Some(c.now) else LastCall(log, key)
  {
    assert (log + [c])[..|log|] == log;
  }

  function BucketOf(buckets: map<ApiKey, seq<Time>>, key: ApiKey): seq<Time> {
    if key in buckets then buckets[key] else []
  }

  predicate Tracks(bucket: seq<Time>, log: seq<Call>, key: ApiKey, window: Time, maxRequests: int) {
    Agrees(bucket, History(log, key, window, maxRequests), LastCall(log, key), window)
  }

  ghost predicate AllAgree(buckets: map<ApiKey, seq<Time>>, log: seq<Call>, window: Time, maxRequests: int) {
    forall key :: Tracks(BucketOf(buckets, key), log, key, window, maxRequests)
  }

  lemma CallKeepsAgreement(buckets: map<ApiKey, seq<Time>>, log: seq<Call>, c: Call, window: Time, maxRequests: int)
    requires AllAgree(buckets, log, window, maxRequests) && window > 0.0
    requires LastCall(log, c.key).Some? ==> LastCall(log, c.key).value <= c.now
    ensures |Prune(BucketOf(buckets, c.key), c.now - window)| < maxRequests
       <==> Allowed(History(log, c.key, window, maxRequests), c.now, window, maxRequests)
    ensures AllAgree(buckets[c.key := NextBucket(BucketOf(buckets, c.key), c.now, window, maxRequests)],
                     log + [c], window, maxRequests)
    ensures NextBucket(BucketOf(buckets, c.key), c.now, window, maxRequests)
         == Filter(History(log + [c], c.key, window, maxRequests), After(c.now - window))
  {
    var buckets' := buckets[c.key := NextBucket(BucketOf(buckets, c.key), c.now, window, maxRequests)];
    OwnKey(BucketOf(buckets, c.key), log, c, window, maxRequests);
    forall key ensures Tracks(BucketOf(buckets', key), log + [c], key, window, maxRequests) {
      if key != c.key {
        OtherKey(BucketOf(buckets, key), log, c, key, window, maxRequests);
      }
    }
  }

  lemma OwnKey(bucket: seq<Time>, log: seq<Call>, c: Call, window: Time, maxRequests: int)
    requires Tracks(bucket, log, c.key, window, maxRequests) && window > 0.0
    requires LastCall(log, c.key).Some? ==> LastCall(log, c.key).value <= c.now
    ensures |Prune(bucket, c.now - window)| < maxRequests
       <==> Allowed(History(log, c.key, window, maxRequests), c.now, window, maxRequests)
    ensures Tracks(NextBucket(bucket, c.now, window, maxRequests), log + [c], c.key, window, maxRequests)
    ensures NextBucket(bucket, c.now, window, maxRequests)
         == Filter(History(log + [c], c.key, window, maxRequests), After(c.now - window))
  {
    CallAgrees(bucket, History(log, c.key, window, maxRequests), LastCall(log, c.key), c.now, window, maxRequests);
    LogStep(log, c, c.key, window, maxRequests);
  }

  lemma OtherKey(bucket: seq<Time>, log: seq<Call>, c: Call, key: ApiKey, window: Time, maxRequests: int)
    requires key != c.key && Tracks(bucket, log, key, window, maxRequests)
    ensures Tracks(bucket, log + [c], key, window, maxRequests)
  {
    LogStep(log, c, key, window, maxRequests);
  }

  /** Prune a bucket to the window, compare its length, and append the call if it fits. */
  method Decide(bucket: seq<Time>, now: Time, window: Time, maxRequests: int) returns (allowed: bool, kept: seq<Time>)
    ensures allowed <==> |Prune(bucket, now - window)| < maxRequests
    ensures kept == NextBucket(bucket, now, window, maxRequests)
  {
    kept := Prune(bucket, now - window);
    allowed := |kept| < maxRequests;
    if allowed {
      kept := kept + [now];
    }
  }

  /** What follows for the caller from one decision on an agreeing set of buckets. */
  lemma Decided(buckets: map<ApiKey, seq<Time>>, log: seq<Call>, c: Call, window: Time, maxRequests: int,
                allowed: bool, kept: seq<Time>)
    requires AllAgree(buckets, log, window, maxRequests) && window > 0.0
    requires LastCall(log, c.key).Some? ==> LastCall(log, c.key).value <= c.now
    requires allowed <==> |Prune(BucketOf(buckets, c.key), c.now - window)| < maxRequests
    requires kept == NextBucket(BucketOf(buckets, c.key), c.now, window, maxRequests)
    ensures AllAgree(buckets[c.key := kept], log + [c], window, maxRequests)
    ensures allowed <==>
      |Filter(History(log, c.key, window, maxRequests), After(c.now - window))| < maxRequests
    ensures BucketOf(buckets[c.key := kept], c.key)
         == Filter(History(log + [c], c.key, window, maxRequests), After(c.now - window))
  {
    CallKeepsAgreement(buckets, log, c, window, maxRequests);
  }

  /** The full history of a key grows by exactly its allowed calls. */
  lemma HistoryGrows(log: seq<Call>, c: Call, window: Time, maxRequests: int, allowed: bool, key: ApiKey)
    requires allowed <==> |Filter(History(log, c.key, window, maxRequests), After(c.now - window))| < maxRequests
    ensures History(log + [c], key, window, maxRequests)
         == History(log, key, window, maxRequests) + (if allowed && key == c.key then [c.now] else [])
  {
    LogStep(log, c, key, window, maxRequests);
  }

  class SimpleRateLimiter {
    const window: Time
    const maxRequests: int
    var buckets: map<ApiKey, seq<Time>>
    ghost var log: seq<Call>

    /** Every pruned bucket agrees with the full history of its key. */
    ghost predicate Valid()
      reads this
    {
      window > 0.0 && AllAgree(buckets, log, window, maxRequests)
    }

    constructor (window: Time, maxRequests: int)
      requires window > 0.0
      ensures Valid() && log == [] && this.window == window && this.maxRequests == maxRequests
    {
      this.window, this.maxRequests, this.buckets, this.log := window, maxRequests, map[], [];
    }

    /** is_allowed: prune, compare, append.  Every decision is the one the full history gives. */
    method IsAllowed(key: ApiKey, now: Time) returns (allowed: bool)
      requires Valid()
      requires LastCall(log, key).Some? ==> LastCall(log, key).value <= now
      modifies this
      ensures Valid() && log == old(log) + [Call(key, now)]
      ensures allowed <==>
        |Filter(History(old(log), key, window, maxRequests), After(now - window))| < maxRequests
      ensures BucketOf(buckets, key) == Filter(History(log, key, window, maxRequests), After(now - window))
      ensures forall k :: Extends(History(log, k, window, maxRequests),
                                  History(old(log), k, window, maxRequests), allowed && k == key, now)
    {
      var kept;
      allowed, kept := Decide(BucketOf(buckets, key), now, window, maxRequests);
      Decided(buckets, log, Call(key, now), window, maxRequests, allowed, kept);
      buckets := buckets[key := kept];
      log := log + [Call(key, now)];
      forall k ensures Extends(History(log, k, window, maxRequests), History(old(log), k, window, maxRequests),
                               allowed && k == key, now) {
        HistoryGrows(old(log), Call(key, now), window, maxRequests, allowed, k);
      }
    }
  }

  predicate Extends(after: seq<Time>, before: seq<Time>, grown: bool, t: Time) {
    after == before + (if grown then [t] else [])
  }

  /** The list comprehension of the purge. */
  function Prune(bucket: seq<Time>, cutoff: Time): seq<Time> { Filter(bucket, After(cutoff)) }
}

/** The compliance monitor's velocity rule (services/compliance-monitor/main.py). */
module Velocity {
  import opened Windows

  type AccountId = nat

  const CAP: nat := 100
  const LIMIT: nat := 20
  const HOUR: Time := 3600.0

  /** What the rule means: the calls of the account that fall in the hour that ends now. */
  function InLastHour(times: seq<Time>, now: Time): seq<Time> {
    Filter(times, After(now - HOUR))
  }

  /** One call on the stored list: the filtered and extended list the rule counts. */
  function Recent(stored: seq<Time>, now: Time): seq<Time> {
    Filter(stored, After(now - HOUR)) + [now]
  }

  /** The stored list is the tail of the in-window part of the account's full history, as of its last call. */
  predicate Agrees(stored: seq<Time>, times: seq<Time>) {
    && Sorted(times)
    && stored == if |times| == 0 then [] else Last(InLastHour(times, times[|times| - 1]), CAP)
  }

  /** One call keeps the stored list equal to the capped in-window history, and the count crosses the limit exactly when
      the count over the full, uncapped history does. */
  lemma CapIsHarmless(times: seq<Time>, stored: seq<Time>, now: Time)
    requires Agrees(stored, times) && (|times| > 0 ==> times[|times| - 1] <= now)
    ensures Agrees(Last(Recent(stored, now), CAP), times + [now])
    ensures |Recent(stored, now)| > LIMIT <==> |InLastHour(times + [now], now)| > LIMIT
  {
    FilterAppend(times, now, After(now - HOUR));
    var kept := Filter(times, After(now - HOUR));
    assert Filter(stored, After(now - HOUR)) == Last(kept, CAP) by {
      PruneStored(times, stored, now);
    }
    assert Last(Last(kept, CAP) + [now], CAP) == Last(kept + [now], CAP);
  }

  lemma PruneStored(times: seq<Time>, stored: seq<Time>, now: Time)
    requires Agrees(stored, times) && (|times| > 0 ==> times[|times| - 1] <= now)
    ensures Filter(stored, After(now - HOUR)) == Last(Filter(times, After(now - HOUR)), CAP)
  {
    if |times| > 0 {
      var last := times[|times| - 1];
      var m := CutPoint(times, last - HOUR);
      FilterAt(times, m, last - HOUR);
      TailSorted(times, m);
      CapThenPrune(times[m..], CAP, now - HOUR);
      FilterTwice(times, last - HOUR, now - HOUR);
    }
  }

  datatype Call = Call(account: AccountId, now: Time)

  function CallsOf(log: seq<Call>, account: AccountId): seq<Time> {
    if |log| == 0 then []
    else
      var front, c := CallsOf(log[..|log| - 1], account), log[|log| - 1];
      if c.account == account then front + [c.now] else front
  }

  lemma CallsOfStep(log: seq<Call>, c: Call, account: AccountId)
    ensures CallsOf(log + [c], account) == CallsOf(log, account) + (if c.account == account then [c.now] else [])
  {
    assert (log + [c])[..|log|] == log;
  }

  function StoredFor(tracker: map<AccountId, seq<Time>>, account: AccountId): seq<Time> {
    if account in tracker then tracker[account] else []
  }

  ghost predicate AllAgree(tracker: map<AccountId, seq<Time>>, log: seq<Call>) {
    forall account :: Agrees(StoredFor(tracker, account), CallsOf(log, account))
  }

  lemma CallKeepsAgreement(tracker: map<AccountId, seq<Time>>, log: seq<Call>, c: Call)
    requires AllAgree(tracker, log)
    requires forall t :: t in CallsOf(log, c.account) ==> t <= c.now
    ensures AllAgree(tracker[c.account := Last(Recent(StoredFor(tracker, c.account), c.now), CAP)], log + [c])
    ensures |Recent(StoredFor(tracker, c.account), c.now)| > LIMIT
       <==> |InLastHour(CallsOf(log + [c], c.account), c.now)| > LIMIT
  {
    var stored := StoredFor(tracker, c.account);
    var tracker' := tracker[c.account := Last(Recent(stored, c.now), CAP)];
    assert Agrees(stored, CallsOf(log, c.account));
    OwnAccount(stored, log, c);
    forall other ensures Agrees(StoredFor(tracker', other), CallsOf(log + [c], other)) {
      if other != c.account {
        CallsOfStep(log, c, other);
        assert Agrees(StoredFor(tracker, other), CallsOf(log, other));
      }
    }
  }

  lemma OwnAccount(stored: seq<Time>, log: seq<Call>, c: Call)
    requires Agrees(stored, CallsOf(log, c.account))
    requires forall t :: t in CallsOf(log, c.account) ==> t <= c.now
    ensures Agrees(Last(Recent(stored, c.now), CAP), CallsOf(log + [c], c.account))
    ensures |Recent(stored, c.now)| > LIMIT <==> |InLastHour(CallsOf(log + [c], c.account), c.now)| > LIMIT
  {
    var times := CallsOf(log, c.account);
    CallsOfStep(log, c, c.account);
    assert |times| > 0 ==> times[|times| - 1] in times;
    CapIsHarmless(times, stored, c.now);
  }

  class VelocityTracker {
    var tracker: map<AccountId, seq<Time>>
    ghost var log: seq<Call>

    ghost predicate Valid()
      reads this
    {
      AllAgree(tracker, log)
    }

    constructor ()
      ensures Valid() && log == []
    {
      tracker, log := map[], [];
    }

    /** _check_velocity: the flag is raised exactly when more than twenty calls of the account, this one included,
        fall in the last hour of its full history. */
    method CheckVelocity(account: AccountId, now: Time) returns (flagged: bool)
      requires Valid()
      requires forall t :: t in CallsOf(log, account) ==> t <= now
      modifies this
      ensures Valid() && log == old(log) + [Call(account, now)]
      ensures flagged <==> |Filter(CallsOf(log, account), After(now - 3600.0))| > 20
      ensures |StoredFor(tracker, account)| <= 100
      ensures forall a :: CallsOf(log, a) == CallsOf(old(log), a) + (if a == account then [now] else [])
    {
      CallKeepsAgreement(tracker, log, Call(account, now));
      var recent := Recent(StoredFor(tracker, account), now);
      tracker := tracker[account := Last(recent, CAP)];
      flagged := |recent| > LIMIT;
      log := log + [Call(account, now)];
      forall a ensures CallsOf(log, a) == CallsOf(old(log), a) + (if a == account then [now] else []) {
        CallsOfStep(old(log), Call(account, now), a);
      }
    }
  }
}
