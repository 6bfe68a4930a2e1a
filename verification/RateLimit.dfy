/** The sliding-window limiter over two fixed buckets and its in-process fallback counter, which callers
    with different limits and windows share.  Time is in integer ticks of any length, so the weighted
    comparison is exact; `who` stands for scope and identity. */
module RateLimit {
  import opened Ids
  import opened Wrappers

  datatype Key = Key(who: Id, bucket: int)

  /** One increment of a bucket, at a clock reading, and how long it keeps the bucket alive. */
  datatype Tick = Tick(key: Key, time: int, ttl: int)
  {
    function Expiry(): int
    {
      time + ttl
    }
  }

  const MAX_KEYS := 20_000

  // ----------------------------------------------------- what was really counted

  function Occurrences(log: seq<Tick>, k: Key): nat
  {
    if log == [] then 0 else Occurrences(log[..|log| - 1], k) + if log[|log| - 1].key == k then 1 else 0
  }

  function Latest(log: seq<Tick>, k: Key): Option<Tick>
  {
    if log == [] then None
    else if log[|log| - 1].key == k then Some(log[|log| - 1])
    else Latest(log[..|log| - 1], k)
  }

  /** The last increment of k has not expired at `now`. */
  predicate Alive(log: seq<Tick>, k: Key, now: int)
  {
    Latest(log, k).Some? && Latest(log, k).value.Expiry() >= now
  }

  /** The increments of k since it last expired. */
  function Live(log: seq<Tick>, k: Key): nat
  {
    if log == [] then 0
    else
      var front, t := log[..|log| - 1], log[|log| - 1];
      if t.key != k then Live(front, k) else (if Alive(front, k, t.time) then Live(front, k) else 0) + 1
  }

  /** Counted up no later than in the bucket after its own, and kept for two windows. */
  predicate InTime(window: int, t: Tick)
  {
    t.ttl == 2 * window && t.key.bucket * window <= t.time < (t.key.bucket + 2) * window
  }

  /** All requests of `who` are in time for its window. */
  ghost predicate AllInTime(window: int, who: Id, log: seq<Tick>)
  {
    forall t :: t in log && t.key.who == who ==> InTime(window, t)
  }

  lemma {:induction false} LatestInTime(window: int, log: seq<Tick>, k: Key)
    requires AllInTime(window, k.who, log)
    ensures Latest(log, k).Some? <==> Occurrences(log, k) > 0
    ensures Latest(log, k).Some? ==> Latest(log, k).value.key == k && InTime(window, Latest(log, k).value)
  {
    if log != [] {
      assert log[|log| - 1] in log;
      LatestInTime(window, log[..|log| - 1], k);
    }
  }

  /** No increment of a bucket expires before the next increment of the same bucket. */
  lemma {:induction false} NothingExpires(window: int, log: seq<Tick>, k: Key)
    requires window > 0 && AllInTime(window, k.who, log)
    ensures Live(log, k) == Occurrences(log, k)
  {
    if log != [] {
      var front, t := log[..|log| - 1], log[|log| - 1];
      assert t in log;
      NothingExpires(window, front, k);
      LatestInTime(window, front, k);
      if t.key == k && Latest(front, k).Some? { CloseInTime(window, Latest(front, k).value, t); }
    }
  }

  lemma CloseInTime(window: int, s: Tick, t: Tick)
    requires window > 0 && s.key == t.key && InTime(window, s) && InTime(window, t)
    ensures t.time < s.Expiry()
  {
  }

  /** Whatever is stored for k is the count since it last expired, and it is not forgotten before it expires. */
  ghost predicate KeyTrue(buckets: map<Key, nat>, expiry: map<Key, int>, log: seq<Tick>, clock: int, k: Key)
  {
    if k in buckets then
      && k in expiry && Latest(log, k).Some?
      && buckets[k] == Live(log, k) && expiry[k] == Latest(log, k).value.Expiry()
    else
      k !in expiry && !Alive(log, k, clock)
  }

  lemma {:induction false} LogGrows(log: seq<Tick>, t: Tick, k: Key)
    ensures Occurrences(log + [t], k) == Occurrences(log, k) + if t.key == k then 1 else 0
    ensures Latest(log + [t], k) == if t.key == k then Some(t) else Latest(log, k)
    ensures Live(log + [t], k) ==
            if t.key != k then Live(log, k) else (if Alive(log, k, t.time) then Live(log, k) else 0) + 1
  {
  }

  class InProcessCounter {
    var buckets: map<Key, nat>
    var expiry: map<Key, int>
    ghost var log: seq<Tick>
    ghost var clock: int

    constructor ()
      ensures Valid() && log == [] && clock == 0
    {
      buckets, expiry, log, clock := map[], map[], [], 0;
    }

    ghost predicate Valid()
      reads this
    {
      && clock >= 0
      && (forall t :: t in log ==> t.time <= clock)
      && (forall k :: KeyTrue(buckets, expiry, log, clock, k))
    }

    /** Drop what has expired. */
    method Evict(now: int)
      requires Valid() && clock <= now
      modifies `buckets, `expiry, `clock
      ensures Valid() && clock == now
    {
      var expired := set k | k in expiry && expiry[k] < now;
      forall k ensures KeyTrue(buckets - expired, expiry - expired, log, now, k) {
        assert KeyTrue(buckets, expiry, log, clock, k);
      }
      clock, buckets, expiry := now, buckets - expired, expiry - expired;
    }

    /** Count up a bucket: the answer is the number of increments since it last expired. */
    method Incr(key: Key, ttl: int, now: int) returns (count: nat)
      requires Valid() && clock <= now
      modifies this
      ensures Valid() && clock == now && log == old(log) + [Tick(key, now, ttl)]
      ensures count == Live(log, key)
      ensures forall window :: window > 0 && AllInTime(window, key.who, log) ==> count == Occurrences(log, key)
    {
      if |buckets| > MAX_KEYS { Evict(now); }
      assert KeyTrue(buckets, expiry, log, clock, key);
      ghost var b, e := buckets, expiry;
      var stale := (if key in expiry then expiry[key] else 0) < now;
      if stale || key !in buckets { buckets := buckets[key := 0]; }
      buckets := buckets[key := buckets[key] + 1];
      expiry := expiry[key := now + ttl];
      count := buckets[key];
      forall k | k != key ensures KeyTrue(buckets, expiry, log, clock, k) { assert KeyTrue(b, e, log, clock, k); }
      Counted(Tick(key, now, ttl));
      log, clock := log + [Tick(key, now, ttl)], now;
      forall window | window > 0 && AllInTime(window, key.who, log) ensures count == Occurrences(log, key) {
        NothingExpires(window, log, key);
      }
    }

    lemma Counted(t: Tick)
      requires forall k :: k != t.key ==> KeyTrue(buckets, expiry, log, clock, k)
      requires t.key in buckets && t.key in expiry && expiry[t.key] == t.Expiry()
      requires buckets[t.key] == (if Alive(log, t.key, t.time) then Live(log, t.key) else 0) + 1
      requires clock <= t.time
      ensures forall k :: KeyTrue(buckets, expiry, log + [t], t.time, k)
      ensures Live(log + [t], t.key) == buckets[t.key]
    {
      forall k ensures KeyTrue(buckets, expiry, log + [t], t.time, k) {
        LogGrows(log, t, k);
        assert k != t.key ==> KeyTrue(buckets, expiry, log, clock, k);
      }
      LogGrows(log, t, t.key);
    }

    /** The answer is the count since the bucket last expired, and zero once it has. */
    method Get(key: Key, now: int) returns (count: nat)
      requires Valid() && clock <= now
      modifies `clock
      ensures Valid() && clock == now
      ensures count == LiveAt(log, key, now)
    {
      assert KeyTrue(buckets, expiry, log, clock, key);
      if (if key in expiry then expiry[key] else 0) < now {
        count := 0;
      } else {
        count := if key in buckets then buckets[key] else 0;
      }
      forall k ensures KeyTrue(buckets, expiry, log, now, k) {
        assert KeyTrue(buckets, expiry, log, clock, k);
      }
      clock := now;
    }

    /** Count the request in its bucket and read the bucket before. */
    method Consume(who: Id, index: int, ttl: int, t1: int, t2: int) returns (current: nat, previous: nat)
      requires Valid() && clock <= t1 <= t2
      modifies this
      ensures Valid() && clock == t2 && log == old(log) + [Tick(Key(who, index), t1, ttl)]
      ensures current == Live(log, Key(who, index)) && previous == LiveAt(log, Key(who, index - 1), t2)
    {
      current := Incr(Key(who, index), ttl, t1);
      previous := Get(Key(who, index - 1), t2);
    }

    /** One request of `who`, whose requests so far are `hits`, with its three clock readings: the one the
        keys are made from, the increment's and the read's.  Answered within the bucket it began in, it is
        decided by the whole history; answered later, the previous bucket may have expired and then counts
        for nothing. */
    method CheckRateLimit(who: Id, limit: int, window: int, t0: int, t1: int, t2: int, ghost hits: seq<Hit>)
      returns (allowed: bool, remaining: int, ghost more: seq<Hit>)
      requires Valid() && window > 0 && t0 <= t1 <= t2 && clock <= t1
      modifies this
      ensures Valid() && clock == t2 && log == old(log) + [Tick(Key(who, t0 / window), t1, 2 * window)]
      ensures more == hits + [Hit(t0, allowed)]
      ensures allowed <==> PermittedBy(window, limit, Live(log, Key(who, t0 / window)),
          LiveAt(log, Key(who, t0 / window - 1), t2), t0)
      ensures !allowed ==> remaining == 0
      ensures (forall x :: x in hits ==> x.time <= old(clock)) ==>
                && (forall x :: x in more ==> x.time <= clock)
                && (t1 < (t0 / window + 1) * window && InBucketOrder(window, hits) ==> InBucketOrder(window, more))
      ensures Kept(window, who, hits, old(log)) && t1 < (t0 / window + 2) * window ==>
                Kept(window, who, more, log) && RightlyDecided(window, limit, who, hits, old(log), t2, Hit(t0, allowed))
    {
      var index := t0 / window;
      var current, previous := Consume(who, index, 2 * window, t1, t2);
      BucketOf(window, t0);
      allowed, remaining := Decide(window, limit, current, previous, t0 % window);
      more := hits + [Hit(t0, allowed)];
      Answered(window, limit, who, hits, old(log), Hit(t0, allowed), t1, t2);
    }

    /** The weighted sum of both counts against the limit; what is left is rounded down. */
    method Decide(window: int, limit: int, current: nat, previous: nat, within: nat)
      returns (allowed: bool, remaining: int)
      requires 0 <= within < window
      ensures allowed <==> current * window + previous * (window - within) <= limit * window
      ensures !allowed ==> remaining == 0
      ensures allowed ==> var left := limit * window - (current * window + previous * (window - within));
                          remaining * window <= left < (remaining + 1) * window
    {
      var used := current * window + previous * (window - within);
      allowed := used <= limit * window;
      remaining := if limit * window > used then (limit * window - used) / window else 0;
      BucketOf(window, limit * window - used);
    }
  }

  function LiveAt(log: seq<Tick>, k: Key, now: int): nat
  {
    if Alive(log, k, now) then Live(log, k) else 0
  }

  // ------------------------------------------------- the requests of one caller

  datatype Hit = Hit(time: int, allowed: bool)

  function Requests(window: int, hits: seq<Hit>, bucket: int): nat
    requires window > 0
  {
    if hits == [] then 0
    else Requests(window, hits[..|hits| - 1], bucket) + if hits[|hits| - 1].time / window == bucket then 1 else 0
  }

  /** The sliding window: the requests of this bucket with the present one, and of those of the bucket
      before the share the window still reaches back to, are within the limit.  Refused requests count
      too. */
  predicate Permitted(window: int, limit: int, hits: seq<Hit>, t: int)
    requires window > 0
  {
    PermittedBy(window, limit, Requests(window, hits, t / window) + 1, Requests(window, hits, t / window - 1), t)
  }

  predicate PermittedBy(window: int, limit: int, current: nat, previous: nat, t: int)
    requires window > 0
  {
    current * window + previous * (window - t % window) <= limit * window
  }

  /** The log holds exactly the requests of `who`, each counted in time for its window. */
  ghost predicate Kept(window: int, who: Id, hits: seq<Hit>, log: seq<Tick>)
    requires window > 0
  {
    AllInTime(window, who, log) && forall bucket :: Occurrences(log, Key(who, bucket)) == Requests(window, hits, bucket)
  }

  /** The request h, answered at t2, was decided by the requests before it: all of its own bucket, and all
      of the previous one unless that had expired; so by the sliding window if answered within its bucket. */
  ghost predicate RightlyDecided(window: int, limit: int, who: Id, hits: seq<Hit>, log: seq<Tick>, t2: int, h: Hit)
    requires window > 0
  {
    var index := h.time / window;
    var previous := if Alive(log, Key(who, index - 1), t2) then Requests(window, hits, index - 1) else 0;
    && (h.allowed <==> PermittedBy(window, limit, Requests(window, hits, index) + 1, previous, h.time))
    && (Admitted(window, limit, hits) ==> Admitted(window, limit, hits + [h]))
    && (t2 < (index + 1) * window ==>
          (h.allowed <==> Permitted(window, limit, hits, h.time)) &&
              (Decided(window, limit, hits) ==> Decided(window, limit, hits + [h])))
  }

  lemma KeptGrows(window: int, who: Id, hits: seq<Hit>, log: seq<Tick>, h: Hit, t1: int)
    requires window > 0 && Kept(window, who, hits, log) && h.time <= t1 < (h.time / window + 2) * window
    ensures Kept(window, who, hits + [h], log + [Tick(Key(who, h.time / window), t1, 2 * window)])
  {
    var tick := Tick(Key(who, h.time / window), t1, 2 * window);
    BucketOf(window, h.time);
    assert InTime(window, tick);
    forall bucket ensures Occurrences(log + [tick], Key(who, bucket)) == Requests(window, hits + [h], bucket) {
      LogGrows(log, tick, Key(who, bucket));
      assert (hits + [h])[..|hits|] == hits;
    }
  }

  /** A request of somebody else leaves the books of `who` alone. */
  lemma OthersKeep(window: int, who: Id, hits: seq<Hit>, log: seq<Tick>, t: Tick)
    requires window > 0 && Kept(window, who, hits, log) && t.key.who != who
    ensures Kept(window, who, hits, log + [t])
  {
    forall bucket ensures Occurrences(log + [t], Key(who, bucket)) == Requests(window, hits, bucket) {
      LogGrows(log, t, Key(who, bucket));
    }
  }

  /** Both counters' answers in terms of the requests. */
  lemma CountsMean(window: int, who: Id, hits: seq<Hit>, log: seq<Tick>, h: Hit, t1: int, t2: int)
    requires window > 0 && Kept(window, who, hits, log) && h.time <= t1 < (h.time / window + 2) * window
    ensures var index := h.time / window;
            var longer, before := log + [Tick(Key(who, index), t1, 2 * window)], Key(who, index - 1);
            && Live(longer, Key(who, index)) == Requests(window, hits, index) + 1
            && LiveAt(longer, before, t2) == (if Alive(log, before, t2) then Requests(window, hits, index - 1) else 0)
            && (t2 < (index + 1) * window ==> LiveAt(longer, before, t2) == Requests(window, hits, index - 1))
  {
    var index := h.time / window;
    var tick, before := Tick(Key(who, index), t1, 2 * window), Key(who, index - 1);
    KeptGrows(window, who, hits, log, h, t1);
    NothingExpires(window, log + [tick], Key(who, index));
    NothingExpires(window, log + [tick], before);
    LogGrows(log, tick, Key(who, index));
    LogGrows(log, tick, before);
    if t2 < (index + 1) * window { PreviousAlive(window, log, before, t2); }
  }

  /** A decision taken from the two answers is the one the requests call for. */
  lemma Decision(window: int, limit: int, who: Id, hits: seq<Hit>, log: seq<Tick>, h: Hit, t1: int, t2: int)
    requires window > 0 && Kept(window, who, hits, log) && h.time <= t1 < (h.time / window + 2) * window
    requires var index := h.time / window;
             var longer := log + [Tick(Key(who, index), t1, 2 * window)];
             h.allowed <==> PermittedBy(window, limit, Live(longer, Key(who, index)),
                 LiveAt(longer, Key(who, index - 1), t2), h.time)
    ensures RightlyDecided(window, limit, who, hits, log, t2, h)
  {
    CountsMean(window, who, hits, log, h, t1, t2);
    var p := LiveAt(log + [Tick(Key(who, h.time / window), t1, 2 * window)], Key(who, h.time / window - 1), t2);
    if Admitted(window, limit, hits) { AdmittedGrows(window, limit, hits, h, p); }
    if Decided(window, limit, hits) && (h.allowed <==> Permitted(window, limit, hits, h.time)) {
      DecidedGrows(window, limit, hits, h);
    }
  }

  /** The history and the counter go on together. */
  lemma Answered(window: int, limit: int, who: Id, hits: seq<Hit>, log: seq<Tick>, h: Hit, t1: int, t2: int)
    requires window > 0 && h.time <= t1 <= t2
    requires var index := h.time / window;
             var longer := log + [Tick(Key(who, index), t1, 2 * window)];
             h.allowed <==> PermittedBy(window, limit, Live(longer, Key(who, index)),
                 LiveAt(longer, Key(who, index - 1), t2), h.time)
    ensures t1 < (h.time / window + 1) * window && (forall x :: x in hits ==> x.time <= t1) ==>
              (InBucketOrder(window, hits) ==> InBucketOrder(window, hits + [h]))
    ensures Kept(window, who, hits, log) && t1 < (h.time / window + 2) * window ==>
              && Kept(window, who, hits + [h], log + [Tick(Key(who, h.time / window), t1, 2 * window)])
              && RightlyDecided(window, limit, who, hits, log, t2, h)
  {
    if t1 < (h.time / window + 1) * window && forall x :: x in hits ==> x.time <= t1 {
      OrderGrows(window, hits, h, t1);
    }
    if Kept(window, who, hits, log) && t1 < (h.time / window + 2) * window {
      KeptGrows(window, who, hits, log, h, t1);
      Decision(window, limit, who, hits, log, h, t1, t2);
    }
  }

  lemma BucketOf(window: int, t: int)
    requires window > 0
    ensures (t / window) * window <= t < (t / window + 1) * window
  {
  }

  /** No increment of a bucket has expired before the next bucket ends. */
  lemma PreviousAlive(window: int, log: seq<Tick>, k: Key, now: int)
    requires window > 0 && AllInTime(window, k.who, log) && now < (k.bucket + 2) * window
    ensures Occurrences(log, k) > 0 <==> Alive(log, k, now)
  {
    LatestInTime(window, log, k);
    assert (k.bucket + 2) * window == k.bucket * window + 2 * window;
  }

  /** Requests come in the order of their buckets. */
  ghost predicate InBucketOrder(window: int, hits: seq<Hit>)
    requires window > 0
  {
    forall i, j :: 0 <= i < j < |hits| ==> NotLater(window, hits[i], hits[j])
  }

  predicate NotLater(window: int, a: Hit, b: Hit)
    requires window > 0
  {
    a.time / window <= b.time / window
  }

  /** Requests counted within their buckets come in order. */
  lemma OrderGrows(window: int, hits: seq<Hit>, h: Hit, now: int)
    requires window > 0 && now < (h.time / window + 1) * window && forall x :: x in hits ==> x.time <= now
    ensures InBucketOrder(window, hits) ==> InBucketOrder(window, hits + [h])
  {
    forall i | 0 <= i < |hits| ensures NotLater(window, hits[i], h) {
      assert hits[i] in hits;
      BucketOf(window, hits[i].time);
      MulOrder(h.time / window + 1, hits[i].time / window, window);
    }
  }

  /** Every request was answered within its bucket: decided by the sliding window. */
  ghost predicate Decided(window: int, limit: int, hits: seq<Hit>)
    requires window > 0
  {
    forall i :: 0 <= i < |hits| ==> DecidedAt(window, limit, hits, i)
  }

  ghost predicate DecidedAt(window: int, limit: int, hits: seq<Hit>, i: nat)
    requires window > 0 && i < |hits|
  {
    hits[i].allowed <==> Permitted(window, limit, hits[..i], hits[i].time)
  }

  /** Whenever it was answered: every allowed request was within the limit, the previous bucket counting for
      nothing at best. */
  ghost predicate Admitted(window: int, limit: int, hits: seq<Hit>)
    requires window > 0
  {
    forall i :: 0 <= i < |hits| ==> AdmittedAt(window, limit, hits, i)
  }

  ghost predicate AdmittedAt(window: int, limit: int, hits: seq<Hit>, i: nat)
    requires window > 0 && i < |hits|
  {
    hits[i].allowed ==> PermittedBy(window, limit, Requests(window, hits[..i], hits[i].time / window) + 1, 0,
        hits[i].time)
  }

  lemma DecidedGrows(window: int, limit: int, hits: seq<Hit>, h: Hit)
    requires window > 0 && Decided(window, limit, hits) && (h.allowed <==> Permitted(window, limit, hits, h.time))
    ensures Decided(window, limit, hits + [h])
  {
    var more := hits + [h];
    forall i | 0 <= i < |more| ensures DecidedAt(window, limit, more, i) {
      assert more[..i] == if i < |hits| then hits[..i] else hits;
      if i < |hits| { assert DecidedAt(window, limit, hits, i); }
    }
  }

  lemma AdmittedGrows(window: int, limit: int, hits: seq<Hit>, h: Hit, p: nat)
    requires window > 0 && Admitted(window, limit, hits)
    requires h.allowed ==> PermittedBy(window, limit, Requests(window, hits, h.time / window) + 1, p, h.time)
    ensures Admitted(window, limit, hits + [h])
  {
    var more := hits + [h];
    if h.allowed { CountsForSomething(window, limit, Requests(window, hits, h.time / window) + 1, p, h.time); }
    forall i | 0 <= i < |more| ensures AdmittedAt(window, limit, more, i) {
      assert more[..i] == if i < |hits| then hits[..i] else hits;
      if i < |hits| { assert AdmittedAt(window, limit, hits, i); }
    }
  }

  lemma DecidedIsAdmitted(window: int, limit: int, hits: seq<Hit>)
    requires window > 0 && Decided(window, limit, hits)
    ensures Admitted(window, limit, hits)
  {
    forall i | 0 <= i < |hits| ensures AdmittedAt(window, limit, hits, i) {
      assert DecidedAt(window, limit, hits, i);
      if hits[i].allowed {
        var b := hits[i].time / window;
        CountsForSomething(window, limit, Requests(window, hits[..i], b) + 1, Requests(window, hits[..i], b - 1),
            hits[i].time);
      }
    }
  }

  lemma CountsForSomething(window: int, limit: int, current: nat, previous: nat, t: int)
    requires window > 0 && PermittedBy(window, limit, current, previous, t)
    ensures PermittedBy(window, limit, current, 0, t)
  {
  }

  function Allowed(window: int, hits: seq<Hit>, bucket: int): nat
    requires window > 0
  {
    if hits == [] then 0
    else
      var h := hits[|hits| - 1];
      Allowed(window, hits[..|hits| - 1], bucket) + if h.allowed && h.time / window == bucket then 1 else 0
  }

  lemma FirstDecided(window: int, limit: int, hits: seq<Hit>, n: nat)
    requires window > 0 && n <= |hits| && Decided(window, limit, hits)
    ensures Decided(window, limit, hits[..n])
  {
    var front := hits[..n];
    forall i | 0 <= i < |front| ensures DecidedAt(window, limit, front, i) {
      assert front[..i] == hits[..i] && front[i] == hits[i];
      assert DecidedAt(window, limit, hits, i);
    }
  }

  lemma FirstAdmitted(window: int, limit: int, hits: seq<Hit>, n: nat)
    requires window > 0 && n <= |hits| && Admitted(window, limit, hits)
    ensures Admitted(window, limit, hits[..n])
  {
    var front := hits[..n];
    forall i | 0 <= i < |front| ensures AdmittedAt(window, limit, front, i) {
      assert front[..i] == hits[..i] && front[i] == hits[i];
      assert AdmittedAt(window, limit, hits, i);
    }
  }

  lemma MulOrder(a: int, b: int, w: int)
    requires w > 0
    ensures a <= b <==> a * w <= b * w
  {
  }

  lemma WithinLimit(window: int, limit: int, c: nat, p: nat, rest: nat)
    requires window > 0 && (c + 1) * window + p * rest <= limit * window
    ensures c + 1 <= limit
  {
  }

  /** At most `limit` requests of a caller are allowed in a bucket, however late they are answered. */
  lemma {:induction false} AtMostLimitPerBucket(window: int, limit: int, hits: seq<Hit>, bucket: int)
    requires window > 0 && Admitted(window, limit, hits)
    ensures Allowed(window, hits, bucket) <= Requests(window, hits, bucket)
    ensures Allowed(window, hits, bucket) <= if limit < 0 then 0 else limit
  {
    if hits != [] {
      FirstAdmitted(window, limit, hits, |hits| - 1);
      AtMostLimitPerBucket(window, limit, hits[..|hits| - 1], bucket);
      if hits[|hits| - 1].allowed { LastWithinLimit(window, limit, hits); }
    }
  }

  lemma LastWithinLimit(window: int, limit: int, hits: seq<Hit>)
    requires window > 0 && hits != [] && Admitted(window, limit, hits) && hits[|hits| - 1].allowed
    ensures Requests(window, hits[..|hits| - 1], hits[|hits| - 1].time / window) + 1 <= limit
  {
    var front, h := hits[..|hits| - 1], hits[|hits| - 1];
    assert AdmittedAt(window, limit, hits, |hits| - 1);
    WithinLimit(window, limit, Requests(window, front, h.time / window), 0, window - h.time % window);
  }

  /** The allowed requests at or after a moment. */
  function AllowedSince(hits: seq<Hit>, since: int): nat
  {
    if hits == [] then 0
    else
      AllowedSince(hits[..|hits| - 1], since)
      + if hits[|hits| - 1].allowed && hits[|hits| - 1].time >= since then 1 else 0
  }

  lemma {:induction false} SinceIsTwoBuckets(window: int, hits: seq<Hit>, since: int, bucket: int)
    requires window > 0 && since >= (bucket - 1) * window
    requires forall h :: h in hits ==> h.time / window <= bucket
    ensures AllowedSince(hits, since) <= Allowed(window, hits, bucket) + Allowed(window, hits, bucket - 1)
  {
    if hits != [] {
      var front, h := hits[..|hits| - 1], hits[|hits| - 1];
      assert h in hits;
      SinceIsTwoBuckets(window, front, since, bucket);
      if h.time >= since { AtLeastBucket(window, h.time, bucket - 1); }
    }
  }

  lemma AtLeastBucket(window: int, t: int, bucket: int)
    requires window > 0 && t >= bucket * window
    ensures t / window >= bucket
  {
    BucketOf(window, t);
    MulOrder(t / window + 1, bucket, window);
  }

  lemma Weighted(window: int, limit: int, c: nat, p: nat, m: nat, f: nat)
    requires window > 0 && f < window && m <= p && m <= limit
    requires c * window + p * (window - f) <= limit * window
    ensures (c + m) * window <= limit * (window + f)
  {
  }

  lemma FirstInOrder(window: int, hits: seq<Hit>, n: nat)
    requires window > 0 && n <= |hits| && InBucketOrder(window, hits)
    ensures InBucketOrder(window, hits[..n])
  {
  }

  lemma NoneLater(window: int, hits: seq<Hit>)
    requires window > 0 && hits != [] && InBucketOrder(window, hits)
    ensures forall h :: h in hits ==> h.time / window <= hits[|hits| - 1].time / window
  {
    forall h | h in hits ensures h.time / window <= hits[|hits| - 1].time / window {
      var i :| 0 <= i < |hits| && hits[i] == h;
      if i < |hits| - 1 { assert NotLater(window, hits[i], hits[|hits| - 1]); }
    }
  }

  lemma LastWindowIsBounded(window: int, limit: int, hits: seq<Hit>, since: int)
    requires window > 0 && hits != [] && Decided(window, limit, hits) && InBucketOrder(window, hits)
    requires hits[|hits| - 1].allowed && hits[|hits| - 1].time < since + window
    ensures AllowedSince(hits, since) * window <= limit * (window + hits[|hits| - 1].time % window)
  {
    var front, last := hits[..|hits| - 1], hits[|hits| - 1];
    var b, f := last.time / window, last.time % window;
    var c, p := Requests(window, front, b) + 1, Requests(window, front, b - 1);
    assert DecidedAt(window, limit, hits, |hits| - 1);
    DecidedIsAdmitted(window, limit, hits);
    SpanStart(window, last.time, since);
    NoneLater(window, hits);
    SinceIsTwoBuckets(window, hits, since, b);
    AtMostLimitPerBucket(window, limit, hits, b);
    AtMostLimitPerBucket(window, limit, hits, b - 1);
    LastWithinLimit(window, limit, hits);
    var a, m := AllowedSince(hits, since), Allowed(window, hits, b - 1);
    Weighted(window, limit, c, p, m, f);
    MulOrder(a, c + m, window);
  }

  /** Any request allowed at fraction f / window of its bucket: with it, at most limit * (1 + f / window)
      requests have been allowed in a span of one window length that contains it. */
  lemma OneWindowIsBounded(window: int, limit: int, hits: seq<Hit>, i: nat, since: int)
    requires window > 0 && i < |hits| && Decided(window, limit, hits) && InBucketOrder(window, hits)
    requires hits[i].allowed && hits[i].time < since + window
    ensures AllowedSince(hits[..i + 1], since) * window <= limit * (window + hits[i].time % window)
  {
    FirstDecided(window, limit, hits, i + 1);
    FirstInOrder(window, hits, i + 1);
    LastWindowIsBounded(window, limit, hits[..i + 1], since);
  }

  predicate Within(window: int, since: int, h: Hit)
  {
    since <= h.time < since + window
  }

  /** The allowed requests in a span of one window length. */
  function AllowedIn(window: int, hits: seq<Hit>, since: int): nat
  {
    if hits == [] then 0
    else
      var h := hits[|hits| - 1];
      AllowedIn(window, hits[..|hits| - 1], since) + if h.allowed && Within(window, since, h) then 1 else 0
  }

  lemma {:induction false} InIsSince(window: int, hits: seq<Hit>, since: int)
    ensures AllowedIn(window, hits, since) <= AllowedSince(hits, since)
  {
    if hits != [] { InIsSince(window, hits[..|hits| - 1], since); }
  }

  /** Wherever the window is laid, fewer than twice the limit are allowed in it. */
  lemma {:induction false} AnyWindowIsBounded(window: int, limit: int, hits: seq<Hit>, since: int)
    requires window > 0 && Decided(window, limit, hits) && InBucketOrder(window, hits)
    ensures AllowedIn(window, hits, since) == 0 || AllowedIn(window, hits, since) < 2 * limit
  {
    if hits != [] {
      var h := hits[|hits| - 1];
      if h.allowed && Within(window, since, h) {
        LastInWindow(window, limit, hits, since);
      } else {
        FirstDecided(window, limit, hits, |hits| - 1);
        FirstInOrder(window, hits, |hits| - 1);
        AnyWindowIsBounded(window, limit, hits[..|hits| - 1], since);
      }
    }
  }

  lemma LastInWindow(window: int, limit: int, hits: seq<Hit>, since: int)
    requires window > 0 && hits != [] && Decided(window, limit, hits) && InBucketOrder(window, hits)
    requires hits[|hits| - 1].allowed && Within(window, since, hits[|hits| - 1])
    ensures AllowedIn(window, hits, since) < 2 * limit
  {
    LastWindowIsBounded(window, limit, hits, since);
    InIsSince(window, hits, since);
    DecidedIsAdmitted(window, limit, hits);
    LastWithinLimit(window, limit, hits);
    BelowTwice(AllowedSince(hits, since), window, limit, hits[|hits| - 1].time % window);
  }

  lemma BelowTwice(n: nat, window: int, limit: int, f: nat)
    requires f < window && limit > 0 && n * window <= limit * (window + f)
    ensures n < 2 * limit
  {
    assert limit * (window + f) <= limit * (2 * window - 1);
    assert limit * (2 * window - 1) < 2 * limit * window;
    MulOrder(2 * limit, n, window);
  }

  lemma SpanStart(window: int, t: int, since: int)
    requires window > 0 && t < since + window
    ensures (t / window - 1) * window <= since
  {
  }

  // ------------------------------------------------------------- late answers

  lemma {:induction false} SpanIsTwoBuckets(window: int, hits: seq<Hit>, since: int)
    requires window > 0
    ensures AllowedIn(window, hits, since) <= Allowed(window, hits, since / window) +
        Allowed(window, hits, since / window + 1)
  {
    if hits != [] {
      SpanIsTwoBuckets(window, hits[..|hits| - 1], since);
      if Within(window, since, hits[|hits| - 1]) { TwoBuckets(window, since, hits[|hits| - 1].time); }
    }
  }

  lemma TwoBuckets(window: int, since: int, t: int)
    requires window > 0 && since <= t < since + window
    ensures t / window == since / window || t / window == since / window + 1
  {
    BucketOf(window, since);
    BucketOf(window, t);
    MulOrder(since / window + 1, t / window + 1, window);
    MulOrder(t / window, since / window + 1, window);
    if t / window < since / window { MulOrder(t / window + 1, since / window, window); }
    if since / window + 1 < t / window { MulOrder(since / window + 2, t / window, window); }
  }

  /** Whatever the order of the requests and however late the answers, at most twice the limit are allowed in
      a span of one window length. */
  lemma LateAnswersAreBounded(window: int, limit: int, hits: seq<Hit>, since: int)
    requires window > 0 && Admitted(window, limit, hits)
    ensures AllowedIn(window, hits, since) <= if limit < 0 then 0 else 2 * limit
  {
    SpanIsTwoBuckets(window, hits, since);
    AtMostLimitPerBucket(window, limit, hits, since / window);
    AtMostLimitPerBucket(window, limit, hits, since / window + 1);
  }

  // ------------------------------------------------- what the weighting stands for

  /** All requests from `from` on, allowed or not. */
  function Seen(hits: seq<Hit>, from: int): nat
  {
    if hits == [] then 0 else Seen(hits[..|hits| - 1], from) + if hits[|hits| - 1].time >= from then 1 else 0
  }

  /** The times of a bucket's requests. */
  function Times(window: int, hits: seq<Hit>, bucket: int): seq<int>
    requires window > 0
  {
    if hits == [] then []
    else
      var front, h := Times(window, hits[..|hits| - 1], bucket), hits[|hits| - 1];
      if h.time / window == bucket then front + [h.time] else front
  }

  /** One in each of as many equal parts of the bucket. */
  ghost predicate Evenly(window: int, times: seq<int>, start: int)
  {
    forall i :: 0 <= i < |times| ==> InPart(window, times, start, i)
  }

  predicate InPart(window: int, times: seq<int>, start: int, i: nat)
    requires i < |times|
  {
    i * window <= (times[i] - start) * |times| < (i + 1) * window
  }

  function Late(times: seq<int>, from: int): nat
  {
    if times == [] then 0 else Late(times[..|times| - 1], from) + if times[|times| - 1] >= from then 1 else 0
  }

  lemma {:induction false} SeenIsBoth(window: int, hits: seq<Hit>, t: int)
    requires window > 0 && forall h :: h in hits ==> h.time <= t
    ensures var b := t / window;
            Seen(hits, t - window) == Requests(window, hits, b) + Late(Times(window, hits, b - 1), t - window)
    ensures |Times(window, hits, t / window - 1)| == Requests(window, hits, t / window - 1)
  {
    if hits != [] {
      var front, h := hits[..|hits| - 1], hits[|hits| - 1];
      assert h in hits;
      SeenIsBoth(window, front, t);
      WhichBucket(window, h.time, t);
    }
  }

  /** A time up to t is in the window if it is in the bucket of t, and is not if it is before the one before. */
  lemma WhichBucket(window: int, x: int, t: int)
    requires window > 0 && x <= t
    ensures x / window <= t / window
    ensures x / window == t / window ==> x >= t - window
    ensures x / window < t / window - 1 ==> x < t - window
  {
    BucketOf(window, x);
    BucketOf(window, t);
    MulOrder(x / window, t / window, window);
    if x / window > t / window { MulOrder(t / window + 1, x / window, window); }
    if x / window < t / window - 1 { MulOrder(x / window + 2, t / window, window); }
  }

  lemma TimesAscend(window: int, times: seq<int>, start: int, i: nat, j: nat)
    requires window > 0 && Evenly(window, times, start) && i < j < |times|
    ensures times[i] < times[j]
  {
    assert InPart(window, times, start, i) && InPart(window, times, start, j);
    MulOrder(i + 1, j, window);
    if times[j] - start <= times[i] - start { MulOrder(times[j] - start, times[i] - start, |times|); }
  }

  /** The first n times are early and the rest late. */
  ghost predicate SplitAt(times: seq<int>, from: int, n: nat)
  {
    && n <= |times|
    && (forall i :: 0 <= i < n ==> times[i] < from) && (forall i :: n <= i < |times| ==> times[i] >= from)
  }

  lemma {:induction false} LateAfter(times: seq<int>, from: int) returns (n: nat)
    requires forall i, j :: 0 <= i < j < |times| ==> times[i] < times[j]
    ensures SplitAt(times, from, n) && Late(times, from) == |times| - n
  {
    if times == [] {
      n := 0;
    } else {
      n := LateAfter(times[..|times| - 1], from);
      if times[|times| - 1] < from { n := |times|; }
    }
  }

  /** Evenly spread, the requests in the part of the bucket that is left are its share of them, up to less than
      one. */
  lemma ShareIsCount(window: int, times: seq<int>, start: int, gone: int)
    requires window > 0 && 0 <= gone < window && Evenly(window, times, start)
    ensures -window < Late(times, start + gone) * window - |times| * (window - gone) < window
  {
    forall i, j | 0 <= i < j < |times| ensures times[i] < times[j] { TimesAscend(window, times, start, i, j); }
    var n := LateAfter(times, start + gone);
    if n > 0 {
      assert InPart(window, times, start, n - 1);
      MulOrder(times[n - 1] - start + 1, gone, |times|);
      assert (times[n - 1] - start + 1) * |times| == (times[n - 1] - start) * |times| + |times|;
    }
    if n < |times| {
      assert InPart(window, times, start, n);
      MulOrder(gone, times[n] - start, |times|);
    } else {
      LessThanFull(|times|, gone, window);
    }
    Difference(|times|, n, window, gone);
  }

  lemma LessThanFull(p: nat, gone: int, window: int)
    requires 0 <= gone < window
    ensures gone * p <= p * window < (p + 1) * window
  {
    if p > 0 { MulOrder(gone, window, p); }
    assert (p + 1) * window == p * window + window;
  }

  lemma Difference(p: int, n: int, window: int, gone: int)
    ensures (p - n) * window - p * (window - gone) == gone * p - n * window
    ensures (n - 1) * window == n * window - window && (n + 1) * window == n * window + window
  {
  }

  lemma Together(window: int, limit: int, c: int, late: int, p: int, rest: int)
    requires window > 0 && -window < late * window - p * rest < window
    ensures c * window + p * rest <= limit * window ==> c + late <= limit
    ensures c * window + p * rest > limit * window ==> c + late >= limit
  {
    assert (c + late) * window == c * window + late * window;
    assert (limit + 1) * window == limit * window + window && (limit - 1) * window == limit * window - window;
    if c + late >= limit + 1 { MulOrder(limit + 1, c + late, window); }
    if c + late <= limit - 1 { MulOrder(c + late, limit - 1, window); }
  }

  /** The weighted count is the sliding window for requests that came evenly spread over the previous bucket: one
      is allowed only if the window up to now holds at most the limit, this one included, and refused only if it
      holds at least the limit. */
  lemma SlidingWindow(window: int, limit: int, hits: seq<Hit>, t: int)
    requires window > 0 && forall h :: h in hits ==> h.time <= t
    requires var previous := t / window - 1;
             Evenly(window, Times(window, hits, previous), previous * window)
    ensures Permitted(window, limit, hits, t) ==> Seen(hits, t - window) + 1 <= limit
    ensures !Permitted(window, limit, hits, t) ==> Seen(hits, t - window) + 1 >= limit
  {
    var previous, gone := t / window - 1, t % window;
    var times := Times(window, hits, previous);
    SeenIsBoth(window, hits, t);
    ShareIsCount(window, times, previous * window, gone);
    assert previous * window + gone == t - window;
    Together(window, limit, Requests(window, hits, t / window) + 1, Late(times, t - window), |times|, window - gone);
  }
}
