/** The fixed-window rate limiter: what one request does to the bucket table, and what holds over
    every run of requests whose clock never goes back. */
module RateLimit {
  import opened SetSizes

  type ClientKey = string

  const CLEANUP_INTERVAL: nat := 128
  const UNKNOWN_SOCKET_KEY: ClientKey := "__alaya_rate_limit_unknown_socket__"

  datatype Config = Config(maxRequests: int, windowMs: int, maxBuckets: int)

  datatype Bucket = Bucket(startedAtMs: int, count: int)

  datatype Decision = Allow | Limited(retryAfterSeconds: int) | IdentityUnavailable

  datatype Request = Request(key: ClientKey, now: int)

  datatype Table = Table(buckets: map<ClientKey, Bucket>, sinceCleanup: nat)

  // ---------- one request ----------

  predicate Live(b: Bucket, now: int, c: Config)
  {
    now - b.startedAtMs < c.windowMs
  }

  function LiveOnly(buckets: map<ClientKey, Bucket>, now: int, c: Config): map<ClientKey, Bucket>
  {
    map k | k in buckets && Live(buckets[k], now, c) :: buckets[k]
  }

  /** The table while the cleanup has looked at the keys in `done`. */
  ghost function Kept(buckets: map<ClientKey, Bucket>, done: set<ClientKey>, now: int, c: Config)
    : map<ClientKey, Bucket>
  {
    map k | k in buckets && (k in done ==> Live(buckets[k], now, c)) :: buckets[k]
  }

  ghost function SetOf(s: seq<ClientKey>): set<ClientKey>
  {
    set k | k in s
  }

  function Swept(t: Table, now: int, c: Config): Table
  {
    if t.sinceCleanup + 1 >= CLEANUP_INTERVAL then Table(LiveOnly(t.buckets, now, c), 0)
    else Table(t.buckets, t.sinceCleanup + 1)
  }

  /** `Math.ceil(ms / 1000)`, at least 1. */
  function RetryAfter(c: Config, now: int, startedAtMs: int): int
  {
    var seconds := (c.windowMs - (now - startedAtMs) + 999) / 1000;
    if seconds < 1 then 1 else seconds
  }

  predicate Refused(buckets: map<ClientKey, Bucket>, key: ClientKey, c: Config)
  {
    key !in buckets && |buckets| >= c.maxBuckets
  }

  function BucketFor(buckets: map<ClientKey, Bucket>, key: ClientKey, now: int, c: Config): Bucket
  {
    if key in buckets && Live(buckets[key], now, c) then buckets[key] else Bucket(now, 0)
  }

  function Decided(t: Table, key: ClientKey, now: int, c: Config): (Table, Decision)
  {
    if key == UNKNOWN_SOCKET_KEY then (t, IdentityUnavailable)
    else if Refused(t.buckets, key, c) then (t, Limited(1))
    else
      var b := BucketFor(t.buckets, key, now, c);
      if b.count >= c.maxRequests then (t.(buckets := t.buckets[key := b]), Limited(RetryAfter(c, now, b.startedAtMs)))
      else (t.(buckets := t.buckets[key := b.(count := b.count + 1)]), Allow)
  }

  function Consumed(t: Table, r: Request, c: Config): (Table, Decision)
  {
    Decided(Swept(t, r.now, c), r.key, r.now, c)
  }

  // ---------- the least-recently-used table ----------

  predicate Distinct(s: seq<ClientKey>)
  {
    forall i, j :: 0 <= i < j < |s| ==> s[i] != s[j]
  }

  function Without(s: seq<ClientKey>, k: ClientKey): (r: seq<ClientKey>)
    ensures k !in r && forall x :: x in r <==> x in s && x != k
  {
    if s == [] then []
    else
      var rest := Without(s[..|s| - 1], k);
      assert s == s[..|s| - 1] + [s[|s| - 1]];
      if s[|s| - 1] == k then rest else rest + [s[|s| - 1]]
  }

  lemma {:induction false} WithoutDistinct(s: seq<ClientKey>, k: ClientKey)
    requires Distinct(s)
    ensures Distinct(Without(s, k))
    decreases |s|
  {
    if s != [] {
      var rest, last := s[..|s| - 1], s[|s| - 1];
      WithoutDistinct(rest, k);
      assert last !in rest;
      DistinctSnoc(Without(rest, k), last);
    }
  }

  lemma DistinctSnoc(s: seq<ClientKey>, x: ClientKey)
    requires Distinct(s) && x !in s
    ensures Distinct(s + [x])
  {
  }

  /** A map that remembers insertion order; reading an entry makes it the newest. */
  class LruCache {
    var entries: map<ClientKey, Bucket>
    var order: seq<ClientKey>
    const maxEntries: int

    ghost predicate Valid()
      reads this
    {
      Distinct(order) && forall k :: k in order <==> k in entries
    }

    constructor (maxEntries: int)
      ensures Valid() && entries == map[] && order == [] && this.maxEntries == maxEntries
    {
      this.maxEntries := maxEntries;
      entries := map[];
      order := [];
    }

    method Get(key: ClientKey) returns (found: bool, b: Bucket)
      requires Valid()
      modifies this
      ensures Valid() && entries == old(entries)
      ensures found <==> key in entries
      ensures found ==> b == entries[key] && order == Without(old(order), key) + [key]
      ensures !found ==> order == old(order)
    {
      found, b := key in entries, Bucket(0, 0);
      if found {
        b := entries[key];
        WithoutDistinct(order, key);
        order := Without(order, key) + [key];
      }
    }

    /** The oldest entry makes room for a new one in a full table. */
    method Set(key: ClientKey, b: Bucket)
      requires Valid()
      modifies this
      ensures Valid()
      ensures key in old(entries) || |old(order)| < maxEntries || old(order) == [] ==> entries == old(entries)[key := b]
      ensures !(key in old(entries) || |old(order)| < maxEntries || old(order) == []) ==>
        entries == (old(entries) - {old(order)[0]})[key := b]
      ensures order != [] && order[|order| - 1] == key
    {
      if key in entries {
        WithoutDistinct(order, key);
        order := Without(order, key);
      } else if |order| >= maxEntries && order != [] {
        assert order == [order[0]] + order[1..];
        entries := entries - {order[0]};
        order := order[1..];
      }
      entries := entries[key := b];
      order := order + [key];
    }

    method Delete(key: ClientKey)
      requires Valid()
      modifies this
      ensures Valid() && entries == old(entries) - {key} && order == Without(old(order), key)
    {
      WithoutDistinct(order, key);
      entries := entries - {key};
      order := Without(order, key);
    }
  }

  lemma {:induction false} DistinctSize(s: seq<ClientKey>)
    requires Distinct(s)
    ensures |SetOf(s)| == |s|
    decreases |s|
  {
    if s != [] {
      var rest, last := s[..|s| - 1], s[|s| - 1];
      DistinctSize(rest);
      assert s == rest + [last];
      assert SetOf(s) == SetOf(rest) + {last};
    } else {
      assert SetOf(s) == {};
    }
  }

  lemma OrderSize(entries: map<ClientKey, Bucket>, order: seq<ClientKey>)
    requires Distinct(order) && forall k :: k in order <==> k in entries
    ensures |order| == |entries|
  {
    DistinctSize(order);
    assert SetOf(order) == entries.Keys;
  }

  lemma NextKey(keys: seq<ClientKey>, i: nat)
    requires Distinct(keys) && i < |keys|
    ensures SetOf(keys[..i + 1]) == SetOf(keys[..i]) + {keys[i]} && keys[i] !in SetOf(keys[..i])
  {
    assert keys[..i + 1] == keys[..i] + [keys[i]];
  }

  /** Looking at one more key drops its bucket if that has expired. */
  lemma KeptNext(buckets: map<ClientKey, Bucket>, done: set<ClientKey>, key: ClientKey, now: int, c: Config)
    requires key in buckets && key !in done
    ensures var kept := Kept(buckets, done, now, c);
      && key in kept && kept[key] == buckets[key]
      && Kept(buckets, done + {key}, now, c) == if Live(buckets[key], now, c) then kept else kept - {key}
  {
  }

  // ---------- the limiter ----------

  class FixedWindowRateLimiter {
    const buckets: LruCache
    const config: Config
    var requestsSinceCleanup: nat

    ghost predicate Valid()
      reads this, buckets
    {
      buckets.Valid() && buckets.maxEntries == config.maxBuckets
    }

    ghost function Now(): Table
      reads this, buckets
    {
      Table(buckets.entries, requestsSinceCleanup)
    }

    constructor (config: Config)
      ensures Valid() && fresh(buckets) && this.config == config && Now() == Table(map[], 0)
    {
      this.config := config;
      buckets := new LruCache(config.maxBuckets);
      requestsSinceCleanup := 0;
    }

    method CleanupExpiredBuckets(now: int)
      requires Valid()
      modifies buckets
      ensures Valid()
      ensures buckets.entries ==
        if requestsSinceCleanup < CLEANUP_INTERVAL then old(buckets.entries)
          else LiveOnly(old(buckets.entries), now, config)
    {
      if requestsSinceCleanup < CLEANUP_INTERVAL { return; }
      hide Kept, SetOf;
      ghost var was, done := buckets.entries, {};
      var keys := buckets.order;
      for i := 0 to |keys|
        invariant Valid()
        invariant done == SetOf(keys[..i])
        invariant buckets.entries == Kept(was, done, now, config)
      {
        var key := keys[i];
        NextKey(keys, i);
        KeptNext(was, done, key, now, config);
        if now - buckets.entries[key].startedAtMs >= config.windowMs {
          buckets.Delete(key);
        }
        done := done + {key};
      }
      assert keys[..|keys|] == keys;
      assert done == was.Keys;
    }

    method Sweep(now: int)
      requires Valid()
      modifies this, buckets
      ensures Valid() && Now() == Swept(old(Now()), now, config)
    {
      requestsSinceCleanup := requestsSinceCleanup + 1;
      CleanupExpiredBuckets(now);
      if requestsSinceCleanup >= CLEANUP_INTERVAL {
        requestsSinceCleanup := 0;
      }
    }

    /** The key's bucket, opened afresh where it is missing or expired; nothing for a new key in a
        full table. Nothing is ever evicted to make room. */
    method ReadBucket(key: ClientKey, now: int) returns (found: bool, b: Bucket)
      requires Valid()
      modifies buckets
      ensures Valid() && (found <==> !Refused(old(buckets.entries), key, config))
      ensures found ==> b == BucketFor(old(buckets.entries), key, now, config)
      ensures found ==> buckets.entries == old(buckets.entries)[key := b]
      ensures !found ==> buckets.entries == old(buckets.entries)
    {
      found, b := buckets.Get(key);
      if found && now - b.startedAtMs < config.windowMs { return; }
      OrderSize(buckets.entries, buckets.order);
      if !found && |buckets.order| >= config.maxBuckets { return; }
      found, b := true, Bucket(now, 0);
      buckets.Set(key, b);
    }

    method Decide(key: ClientKey, now: int) returns (d: Decision)
      requires Valid()
      modifies buckets
      ensures Valid() && (Now(), d) == Decided(old(Now()), key, now, config)
    {
      if key == UNKNOWN_SOCKET_KEY { return IdentityUnavailable; }
      var found, b := ReadBucket(key, now);
      if !found { return Limited(1); }
      if b.count >= config.maxRequests { return Limited(RetryAfter(config, now, b.startedAtMs)); }
      ghost var was := old(buckets.entries);
      assert was[key := b][key := b.(count := b.count + 1)] == was[key := b.(count := b.count + 1)];
      buckets.entries := buckets.entries[key := b.(count := b.count + 1)];
      d := Allow;
    }

    method Consume(key: ClientKey, now: int) returns (d: Decision)
      requires Valid()
      modifies this, buckets
      ensures Valid() && (Now(), d) == Consumed(old(Now()), Request(key, now), config)
    {
      Sweep(now);
      d := Decide(key, now);
    }
  }

  // ---------- what one request keeps ----------

  /** A bucket inside its window is never dropped or reset, and only its own key's allowed request
      counts in it. */
  lemma LiveBucketKept(t: Table, r: Request, c: Config, k: ClientKey)
    requires k in t.buckets && Live(t.buckets[k], r.now, c)
    ensures var (t', d) := Consumed(t, r, c);
      && k in t'.buckets && t'.buckets[k].startedAtMs == t.buckets[k].startedAtMs
      && t'.buckets[k].count == t.buckets[k].count + (if r.key == k && d == Allow then 1 else 0)
  {
  }

  /** A live bucket alone decides its key's request: no other client's traffic can change it. */
  lemma OwnBucketDecides(t: Table, u: Table, r: Request, c: Config)
    requires r.key in t.buckets && r.key in u.buckets && t.buckets[r.key] == u.buckets[r.key] &&
      Live(t.buckets[r.key], r.now, c)
    ensures Consumed(t, r, c).1 == Consumed(u, r, c).1
    ensures r.key != UNKNOWN_SOCKET_KEY ==> (Consumed(t, r, c).1 == Allow <==> t.buckets[r.key].count < c.maxRequests)
  {
  }

  lemma LiveOnlySmaller(buckets: map<ClientKey, Bucket>, now: int, c: Config)
    ensures |LiveOnly(buckets, now, c)| <= |buckets|
  {
    var kept := LiveOnly(buckets, now, c);
    SubsetSize(kept.Keys, buckets.Keys);
    assert |kept.Keys| == |kept| && |buckets.Keys| == |buckets|;
  }

  /** A limit below zero admits no client at all. */
  function Limit(c: Config): nat
  {
    if c.maxBuckets < 0 then 0 else c.maxBuckets
  }

  /** The table never grows past its limit. */
  lemma TableStaysWithin(t: Table, r: Request, c: Config)
    requires |t.buckets| <= Limit(c)
    ensures |Consumed(t, r, c).0.buckets| <= Limit(c)
  {
    LiveOnlySmaller(t.buckets, r.now, c);
    var s := Swept(t, r.now, c);
    var t' := Consumed(t, r, c).0;
    if t' != s {
      assert t'.buckets.Keys == s.buckets.Keys + {r.key};
      assert |t'.buckets.Keys| == |t'.buckets| && |s.buckets.Keys| == |s.buckets|;
      if r.key in s.buckets { assert t'.buckets.Keys == s.buckets.Keys; }
    }
  }

  /** A client told to retry after n seconds finds its bucket expired once n seconds have passed;
      a shorter whole number of seconds (but at least one) would not do. */
  lemma RetryAfterExact(c: Config, now: int, b: Bucket, seconds: int)
    requires Live(b, now, c) && seconds >= 1
    ensures !Live(b, now + 1000 * seconds, c) <==> seconds >= RetryAfter(c, now, b.startedAtMs)
  {
  }

  /** The buckets a request finds: on every 128th request those still inside their window, else all. */
  ghost function Found(t: Table, now: int, c: Config): map<ClientKey, Bucket>
  {
    if t.sinceCleanup >= 127 then map k | k in t.buckets && now - t.buckets[k].startedAtMs < c.windowMs :: t.buckets[k]
    else t.buckets
  }

  /** Every decision. The unknown socket is refused; a client with a live bucket is allowed while its
      quota lasts and then told to wait the rest of the window; a client without one is allowed with a
      fresh bucket if it had an expired one or the table has room, and else told to wait a second. */
  lemma DecisionExact(t: Table, r: Request, c: Config)
    ensures var (t', d) := Consumed(t, r, c); var found := Found(t, r.now, c); var k := r.key;
      if k == "__alaya_rate_limit_unknown_socket__" then d == IdentityUnavailable && t'.buckets == found
      else if k in found && r.now - found[k].startedAtMs < c.windowMs then
        if found[k].count < c.maxRequests then
          d == Allow && t'.buckets == found[k := Bucket(found[k].startedAtMs, found[k].count + 1)]
        else d.Limited? && t'.buckets == found
      else if k in found || |found| < c.maxBuckets then
        if c.maxRequests >= 1 then d == Allow && t'.buckets == found[k := Bucket(r.now, 1)]
        else d.Limited? && t'.buckets == found[k := Bucket(r.now, 0)]
      else d == Limited(1) && t'.buckets == found
  {
    assert Found(t, r.now, c) == Swept(t, r.now, c).buckets;
    hide RetryAfter;
  }

  /** A client whose quota is spent is told the least whole number of seconds, from 1, after which its
      bucket has expired. */
  lemma SpentQuotaWaits(t: Table, r: Request, c: Config, seconds: int)
    requires r.key != UNKNOWN_SOCKET_KEY && r.key in t.buckets && Live(t.buckets[r.key], r.now, c)
    requires t.buckets[r.key].count >= c.maxRequests && seconds >= 1
    ensures var d := Consumed(t, r, c).1;
      && d.Limited? && d.retryAfterSeconds >= 1
      && (seconds >= d.retryAfterSeconds <==> !Live(t.buckets[r.key], r.now + 1000 * seconds, c))
  {
    RetryAfterExact(c, r.now, t.buckets[r.key], seconds);
    hide RetryAfter;
  }

  // ---------- runs ----------

  function TableAfter(rs: seq<Request>, c: Config): Table
  {
    if rs == [] then Table(map[], 0) else Consumed(TableAfter(rs[..|rs| - 1], c), rs[|rs| - 1], c).0
  }

  /** The decision on the last request of a run. */
  function LastDecision(rs: seq<Request>, c: Config): Decision
    requires rs != []
  {
    Consumed(TableAfter(rs[..|rs| - 1], c), rs[|rs| - 1], c).1
  }

  /** How many of a key's requests with a time in `from <= now < from + windowMs` a run allowed. */
  function AllowsIn(rs: seq<Request>, c: Config, k: ClientKey, from: int): nat
  {
    if rs == [] then 0
    else
      var r := rs[|rs| - 1];
      AllowsIn(rs[..|rs| - 1], c, k, from)
      + if r.key == k && from <= r.now < from + c.windowMs && LastDecision(rs, c) == Allow then 1 else 0
  }

  ghost predicate ClockForward(rs: seq<Request>)
  {
    forall i, j :: 0 <= i < j < |rs| ==> rs[i].now <= rs[j].now
  }

  /** The cleanup comes with every 128th request, and leaves no other client's expired bucket. */
  lemma {:induction false} CleanupHappens(rs: seq<Request>, c: Config)
    ensures TableAfter(rs, c).sinceCleanup == |rs| % 128
    ensures rs != [] && |rs| % 128 == 0 ==>
      var last := rs[|rs| - 1]; var t := TableAfter(rs, c);
      forall k :: k in t.buckets && k != last.key ==> last.now - t.buckets[k].startedAtMs < c.windowMs
    decreases |rs|
  {
    if rs != [] {
      CleanupHappens(rs[..|rs| - 1], c);
      hide Decided, TableAfter;
      var t, last := TableAfter(rs[..|rs| - 1], c), rs[|rs| - 1];
      var s := Swept(t, last.now, c);
      TableLast(rs, c);
      DecisionOnOwn(s, last, c);
    }
  }

  lemma TableLast(rs: seq<Request>, c: Config)
    requires rs != []
    ensures var last := rs[|rs| - 1];
      TableAfter(rs, c) == Decided(Swept(TableAfter(rs[..|rs| - 1], c), last.now, c), last.key, last.now, c).0
  {
    hide Decided, Swept;
  }

  lemma DecisionOnOwn(t: Table, r: Request, c: Config)
    ensures var t' := Decided(t, r.key, r.now, c).0;
      && t'.sinceCleanup == t.sinceCleanup
      && forall k :: k != r.key ==>
        (k in t'.buckets <==> k in t.buckets) && (k in t.buckets ==> t'.buckets[k] == t.buckets[k])
  {
  }

  lemma TableSnoc(rs: seq<Request>, r: Request, c: Config)
    ensures TableAfter(rs + [r], c) == Consumed(TableAfter(rs, c), r, c).0
  {
    assert (rs + [r])[..|rs|] == rs;
  }

  /** How many of a key's requests `more`, coming after `rs`, are allowed. */
  function AllowedAfter(rs: seq<Request>, more: seq<Request>, c: Config, k: ClientKey): nat
  {
    if more == [] then 0
    else
      var rest, r := more[..|more| - 1], more[|more| - 1];
      AllowedAfter(rs, rest, c, k) + if r.key == k && LastDecision(rs + more, c) == Allow then 1 else 0
  }

  /** A bucket lasts: as long as no request comes later than its window, and whatever requests of
      whatever clients come, every table of the run keeps the bucket's start, and its count is what it
      was plus its own key's allowed requests since. */
  lemma {:induction false} BucketLasts(rs: seq<Request>, more: seq<Request>, c: Config, k: ClientKey)
    requires var t := TableAfter(rs, c); k in t.buckets && forall r :: r in more ==> Live(t.buckets[k], r.now, c)
    ensures var b := TableAfter(rs, c).buckets[k]; var t := TableAfter(rs + more, c);
      && k in t.buckets && t.buckets[k] == Bucket(b.startedAtMs, b.count + AllowedAfter(rs, more, c, k))
    decreases |more|
  {
    hide Consumed, TableAfter;
    if more == [] {
      assert rs + more == rs;
    } else {
      var rest, r := more[..|more| - 1], more[|more| - 1];
      BucketLasts(rs, rest, c, k);
      assert rs + more == rs + rest + [r] && (rs + more)[..|rs + more| - 1] == rs + rest;
      TableSnoc(rs + rest, r, c);
      LiveBucketKept(TableAfter(rs + rest, c), r, c, k);
    }
  }

  /** With a clock that never goes back it is enough that the last request is inside the window. */
  lemma BucketLastsUntil(rs: seq<Request>, more: seq<Request>, c: Config, k: ClientKey)
    requires ClockForward(rs + more) && k in TableAfter(rs, c).buckets
    requires more != [] ==> Live(TableAfter(rs, c).buckets[k], more[|more| - 1].now, c)
    ensures forall i :: 0 <= i <= |more| ==> (
      var t := TableAfter(rs + more[..i], c);
      k in t.buckets && t.buckets[k].startedAtMs == TableAfter(rs, c).buckets[k].startedAtMs)
  {
    hide TableAfter;
    var b := TableAfter(rs, c).buckets[k];
    forall i | 0 <= i <= |more|
      ensures var t := TableAfter(rs + more[..i], c); k in t.buckets && t.buckets[k].startedAtMs == b.startedAtMs
    {
      forall r | r in more[..i]
        ensures Live(b, r.now, c)
      {
        var j :| 0 <= j < i && more[j] == r;
        assert (rs + more)[|rs| + j] == r && (rs + more)[|rs + more| - 1] == more[|more| - 1];
      }
      BucketLasts(rs, more[..i], c, k);
    }
  }

  // ---------- windows of one key ----------

  /** An allowed request: when, and the start of the window it counted in. */
  datatype Admission = Admission(time: int, start: int)

  function Log(rs: seq<Request>, c: Config, k: ClientKey): seq<Admission>
  {
    if rs == [] then []
    else
      var before := Log(rs[..|rs| - 1], c, k);
      var r := rs[|rs| - 1];
      if r.key == k && LastDecision(rs, c) == Allow then
        before + [Admission(r.now,
          BucketFor(Swept(TableAfter(rs[..|rs| - 1], c), r.now, c).buckets, k, r.now, c).startedAtMs)]
      else before
  }

  function CountStart(log: seq<Admission>, s: int): nat
  {
    if log == [] then 0 else CountStart(log[..|log| - 1], s) + if log[|log| - 1].start == s then 1 else 0
  }

  function CountWindow(log: seq<Admission>, from: int, w: int): nat
  {
    if log == [] then 0
    else CountWindow(log[..|log| - 1], from, w) + if from <= log[|log| - 1].time < from + w then 1 else 0
  }

  lemma {:induction false} LogCounts(rs: seq<Request>, c: Config, k: ClientKey, from: int)
    ensures AllowsIn(rs, c, k, from) == CountWindow(Log(rs, c, k), from, c.windowMs)
    decreases |rs|
  {
    if rs != [] {
      hide LastDecision, TableAfter, BucketFor, Swept;
      LogCounts(rs[..|rs| - 1], c, k, from);
      var before, now := Log(rs[..|rs| - 1], c, k), Log(rs, c, k);
      if now != before { assert now[..|now| - 1] == before; }
    }
  }

  /** Whole windows: every admission lies in its window, windows do not overlap, each opens with an
      admission and holds at most `maxRequests`. */
  ghost predicate Windows(log: seq<Admission>, c: Config)
  {
    InOwnWindow(log, c) && Separate(log, c) && OpenedAndCounted(log, c)
  }

  ghost predicate InOwnWindow(log: seq<Admission>, c: Config)
  {
    forall e :: e in log ==> e.start <= e.time < e.start + c.windowMs
  }

  ghost predicate Separate(log: seq<Admission>, c: Config)
  {
    forall i, j :: 0 <= i < j < |log| ==> log[i].start == log[j].start || log[i].start + c.windowMs <= log[j].start
  }

  ghost predicate OpenedAndCounted(log: seq<Admission>, c: Config)
  {
    forall e :: e in log ==> Admission(e.start, e.start) in log && CountStart(log, e.start) <= c.maxRequests
  }

  /** How the log of one key stands to its bucket at a time. */
  ghost predicate Tied(log: seq<Admission>, buckets: map<ClientKey, Bucket>, k: ClientKey, now: int, c: Config)
  {
    if k in buckets then
      var b := buckets[k];
      && b.startedAtMs <= now && b.count == CountStart(log, b.startedAtMs)
      && (b.count > 0 || c.maxRequests <= 0)
      && forall e :: e in log ==> e.start == b.startedAtMs || e.start + c.windowMs <= b.startedAtMs
    else forall e :: e in log ==> e.start + c.windowMs <= now
  }

  lemma TiedLater(log: seq<Admission>, buckets: map<ClientKey, Bucket>, k: ClientKey, now: int, later: int, c: Config)
    requires Tied(log, buckets, k, now, c) && now <= later
    ensures Tied(log, buckets, k, later, c)
  {
  }

  lemma SweptTied(log: seq<Admission>, t: Table, k: ClientKey, now: int, c: Config)
    requires Tied(log, t.buckets, k, now, c) && c.windowMs > 0
    ensures Tied(log, Swept(t, now, c).buckets, k, now, c)
  {
  }

  lemma {:induction false} CountAbsent(log: seq<Admission>, s: int)
    requires forall e :: e in log ==> e.start != s
    ensures CountStart(log, s) == 0
    decreases |log|
  {
    if log != [] { CountAbsent(log[..|log| - 1], s); }
  }

  lemma CountSnoc(log: seq<Admission>, e: Admission, s: int)
    ensures CountStart(log + [e], s) == CountStart(log, s) + if e.start == s then 1 else 0
  {
    assert (log + [e])[..|log|] == log;
  }

  lemma StaysSeparate(log: seq<Admission>, e: Admission, c: Config)
    requires Separate(log, c) && forall x :: x in log ==> x.start == e.start || x.start + c.windowMs <= e.start
    ensures Separate(log + [e], c)
  {
  }

  lemma StaysOpened(log: seq<Admission>, e: Admission, c: Config)
    requires OpenedAndCounted(log, c) && CountStart(log, e.start) < c.maxRequests
    requires CountStart(log, e.start) == 0 ==> e.time == e.start
    ensures OpenedAndCounted(log + [e], c)
  {
    var log' := log + [e];
    assert e in log';
    forall x | x in log'
      ensures Admission(x.start, x.start) in log' && CountStart(log', x.start) <= c.maxRequests
    {
      CountSnoc(log, e, x.start);
      if x.start == e.start && CountStart(log, e.start) > 0 { SomeWithStart(log, e.start); }
    }
  }

  /** Admitting one more request into the key's bucket. */
  lemma AdmissionKeepsWindows(log: seq<Admission>, now: int, b: Bucket, c: Config)
    requires Windows(log, c) && Fits(log, now, b, c) && now < b.startedAtMs + c.windowMs
    requires b.count < c.maxRequests && (b.count == 0 ==> now == b.startedAtMs)
    ensures Windows(log + [Admission(now, b.startedAtMs)], c)
  {
    hide Separate, OpenedAndCounted, CountStart;
    var e := Admission(now, b.startedAtMs);
    StaysSeparate(log, e, c);
    StaysOpened(log, e, c);
  }

  lemma {:induction false} SomeWithStart(log: seq<Admission>, s: int)
    requires CountStart(log, s) > 0
    ensures exists e :: e in log && e.start == s
  {
    if forall e :: e in log ==> e.start != s { CountAbsent(log, s); }
  }

  ghost predicate KeyInv(rs: seq<Request>, c: Config, k: ClientKey, now: int)
  {
    Windows(Log(rs, c, k), c) && Tied(Log(rs, c, k), TableAfter(rs, c).buckets, k, now, c)
  }

  /** A decision leaves every bucket but the request's own. */
  lemma OthersUntouched(t: Table, r: Request, c: Config, k: ClientKey)
    requires r.key != k || k == UNKNOWN_SOCKET_KEY || Refused(t.buckets, k, c)
    ensures var (t', d) := Decided(t, r.key, r.now, c);
      && (k in t'.buckets <==> k in t.buckets) && (k in t.buckets ==> t'.buckets[k] == t.buckets[k])
      && (r.key == k ==> d != Allow)
  {
  }

  lemma SameBucketTied(log: seq<Admission>, a: map<ClientKey, Bucket>, b: map<ClientKey, Bucket>, k: ClientKey,
                       now: int, c: Config)
    requires Tied(log, a, k, now, c) && (k in b <==> k in a) && (k in a ==> b[k] == a[k])
    ensures Tied(log, b, k, now, c)
  {
  }

  lemma OwnDecision(log: seq<Admission>, t: Table, now: int, c: Config, k: ClientKey)
    requires c.windowMs > 0 && Windows(log, c) && Tied(log, t.buckets, k, now, c)
    requires k != UNKNOWN_SOCKET_KEY && !Refused(t.buckets, k, c)
    ensures var (t', d) := Decided(t, k, now, c);
      var log' := if d == Allow then log + [Admission(now, BucketFor(t.buckets, k, now, c).startedAtMs)] else log;
      Windows(log', c) && Tied(log', t'.buckets, k, now, c)
  {
    hide BucketFor, Tied, Windows, Fits;
    var b := BucketFor(t.buckets, k, now, c);
    BucketTied(log, t.buckets, k, now, c);
    if b.count < c.maxRequests {
      AdmissionKeepsWindows(log, now, b, c);
      AdmittedTied(log, t.buckets, k, now, b, c);
    } else {
      LimitedTied(log, t.buckets, k, now, b, c);
    }
  }

  /** What a decision does to one key's log and bucket. */
  lemma DecisionKeeps(log: seq<Admission>, t: Table, r: Request, c: Config, k: ClientKey)
    requires c.windowMs > 0 && Windows(log, c) && Tied(log, t.buckets, k, r.now, c)
    ensures var (t', d) := Decided(t, r.key, r.now, c);
      var log' := if r.key == k &&
        d == Allow then log + [Admission(r.now, BucketFor(t.buckets, k, r.now, c).startedAtMs)] else log;
      Windows(log', c) && Tied(log', t'.buckets, k, r.now, c)
  {
    hide BucketFor, Tied, Windows, Decided, Refused;
    if r.key == k && k != UNKNOWN_SOCKET_KEY && !Refused(t.buckets, k, c) {
      OwnDecision(log, t, r.now, c, k);
    } else {
      OthersUntouched(t, r, c, k);
      SameBucketTied(log, t.buckets, Decided(t, r.key, r.now, c).0.buckets, k, r.now, c);
    }
  }

  ghost predicate Fits(log: seq<Admission>, now: int, b: Bucket, c: Config)
  {
    && b.startedAtMs <= now && b.count == CountStart(log, b.startedAtMs)
    && forall e :: e in log ==> e.start == b.startedAtMs || e.start + c.windowMs <= b.startedAtMs
  }

  lemma AdmittedTied(log: seq<Admission>, buckets: map<ClientKey, Bucket>, k: ClientKey, now: int, b: Bucket, c: Config)
    requires Fits(log, now, b, c)
    ensures Tied(log + [Admission(now, b.startedAtMs)], buckets[k := b.(count := b.count + 1)], k, now, c)
  {
    CountSnoc(log, Admission(now, b.startedAtMs), b.startedAtMs);
  }

  lemma LimitedTied(log: seq<Admission>, buckets: map<ClientKey, Bucket>, k: ClientKey, now: int, b: Bucket, c: Config)
    requires Fits(log, now, b, c) && b.count >= c.maxRequests
    ensures Tied(log, buckets[k := b], k, now, c)
  {
  }

  lemma BucketTied(log: seq<Admission>, buckets: map<ClientKey, Bucket>, k: ClientKey, now: int, c: Config)
    requires c.windowMs > 0 && Tied(log, buckets, k, now, c)
    ensures var b := BucketFor(buckets, k, now, c);
      && Fits(log, now, b, c) && now < b.startedAtMs + c.windowMs
      && (b.count == 0 ==> now == b.startedAtMs || c.maxRequests <= 0)
  {
    if !(k in buckets && Live(buckets[k], now, c)) { CountAbsent(log, now); }
  }

  lemma {:induction false} KeyInvHolds(rs: seq<Request>, c: Config, k: ClientKey, now: int)
    requires c.windowMs > 0 && ClockForward(rs) && (rs != [] ==> rs[|rs| - 1].now <= now)
    ensures KeyInv(rs, c, k, now)
    decreases |rs|
  {
    if rs != [] {
      var before, r := rs[..|rs| - 1], rs[|rs| - 1];
      KeyInvHolds(before, c, k, r.now);
      var log, t := Log(before, c, k), TableAfter(before, c);
      SweptTied(log, t, k, r.now, c);
      hide Windows, Tied, Swept, Decided, BucketFor;
      DecisionKeeps(log, Swept(t, r.now, c), r, c, k);
      TiedLater(Log(rs, c, k), TableAfter(rs, c).buckets, k, r.now, now, c);
    }
  }

  // ---------- the bound ----------

  ghost predicate InWindow(e: Admission, from: int, w: int)
  {
    from <= e.time < from + w
  }

  /** Admissions inside the interval all count in one of two windows. */
  lemma {:induction false} TwoStarts(log: seq<Admission>, from: int, w: int, s1: int, s2: int)
    requires forall e :: e in log && InWindow(e, from, w) ==> e.start == s1 || e.start == s2
    ensures CountWindow(log, from, w) <= CountStart(log, s1) + CountStart(log, s2)
    decreases |log|
  {
    if log != [] { TwoStarts(log[..|log| - 1], from, w, s1, s2); }
  }

  /** One admission of the first window outside the interval leaves one fewer inside. */
  lemma {:induction false} TwoStartsButOne(log: seq<Admission>, from: int, w: int, s1: int, s2: int, out: Admission)
    requires forall e :: e in log && InWindow(e, from, w) ==> e.start == s1 || e.start == s2
    requires out in log && out.start == s1 && !InWindow(out, from, w)
    ensures CountWindow(log, from, w) + 1 <= CountStart(log, s1) + CountStart(log, s2)
    decreases |log|
  {
    var rest := log[..|log| - 1];
    assert log == rest + [log[|log| - 1]];
    if log[|log| - 1] == out {
      TwoStarts(rest, from, w, s1, s2);
    } else {
      TwoStartsButOne(rest, from, w, s1, s2, out);
    }
  }

  lemma {:induction false} OneStart(log: seq<Admission>, from: int, w: int, s: int)
    requires forall e :: e in log && InWindow(e, from, w) ==> e.start == s
    ensures CountWindow(log, from, w) <= CountStart(log, s)
    decreases |log|
  {
    if log != [] { OneStart(log[..|log| - 1], from, w, s); }
  }

  lemma {:induction false} NoneInside(log: seq<Admission>, from: int, w: int)
    requires forall e :: e in log ==> !InWindow(e, from, w)
    ensures CountWindow(log, from, w) == 0
    decreases |log|
  {
    if log != [] {
      assert !InWindow(log[|log| - 1], from, w);
      NoneInside(log[..|log| - 1], from, w);
    }
  }

  lemma WindowsBound(log: seq<Admission>, c: Config, from: int)
    requires Windows(log, c) && c.maxRequests >= 1
    ensures CountWindow(log, from, c.windowMs) <= 2 * c.maxRequests - 1
  {
    var w := c.windowMs;
    if e1 :| e1 in log && InWindow(e1, from, w) {
      if e2 :| e2 in log && InWindow(e2, from, w) && e2.start != e1.start {
        var a, b := if e1.start < e2.start then e1 else e2, if e1.start < e2.start then e2 else e1;
        Apart(log, c, a, b);
        var out := Admission(a.start, a.start);
        forall e | e in log && InWindow(e, from, w)
          ensures e.start == a.start || e.start == b.start
        {
          Apart(log, c, a, e);
          Apart(log, c, b, e);
        }
        TwoStartsButOne(log, from, w, a.start, b.start, out);
      } else {
        OneStart(log, from, w, e1.start);
      }
    } else {
      NoneInside(log, from, w);
    }
  }

  /** Windows of a single tick: an interval of that length meets one window only. */
  lemma OneTickBound(log: seq<Admission>, c: Config, from: int)
    requires Windows(log, c) && c.maxRequests >= 0 && c.windowMs == 1
    ensures CountWindow(log, from, 1) <= c.maxRequests
  {
    hide Separate;
    if e :| e in log && InWindow(e, from, 1) {
      assert e.start == from;
      assert forall x :: x in log && InWindow(x, from, 1) ==> x.start == from;
      OneStart(log, from, 1, from);
    } else {
      NoneInside(log, from, 1);
    }
  }

  lemma Apart(log: seq<Admission>, c: Config, a: Admission, b: Admission)
    requires Windows(log, c) && a in log && b in log
    ensures a.start == b.start || a.start + c.windowMs <= b.start || b.start + c.windowMs <= a.start
  {
    var i :| 0 <= i < |log| && log[i] == a;
    var j :| 0 <= j < |log| && log[j] == b;
  }

  lemma {:induction false} NothingAdmitted(rs: seq<Request>, c: Config, k: ClientKey, from: int)
    requires c.windowMs <= 0
    ensures AllowsIn(rs, c, k, from) == 0
    decreases |rs|
  {
    if rs != [] {
      hide LastDecision;
      NothingAdmitted(rs[..|rs| - 1], c, k, from);
    }
  }

  lemma {:induction false} NoneAllowed(rs: seq<Request>, c: Config, k: ClientKey, from: int)
    requires c.maxRequests <= 0
    ensures AllowsIn(rs, c, k, from) == 0 && Counts(TableAfter(rs, c))
    decreases |rs|
  {
    if rs != [] {
      NoneAllowed(rs[..|rs| - 1], c, k, from);
      NoneAllowedStep(TableAfter(rs[..|rs| - 1], c), rs[|rs| - 1], c);
    }
  }

  ghost predicate Counts(t: Table)
  {
    forall k :: k in t.buckets ==> t.buckets[k].count >= 0
  }

  lemma NoneAllowedStep(t: Table, r: Request, c: Config)
    requires Counts(t) && c.maxRequests <= 0
    ensures Counts(Consumed(t, r, c).0) && Consumed(t, r, c).1 != Allow
  {
  }

  /** Over every run with a clock that never goes back, any half-open interval of one window's
      length holds at most 2 * maxRequests - 1 allowed requests of a key: when two windows share
      it, the first one's opening request came before. Windows of one tick never share one. */
  lemma AllowsBounded(rs: seq<Request>, c: Config, k: ClientKey, from: int)
    requires ClockForward(rs)
    ensures c.maxRequests >= 1 ==> AllowsIn(rs, c, k, from) <= 2 * c.maxRequests - 1
    ensures c.maxRequests >= 1 && c.windowMs == 1 ==> AllowsIn(rs, c, k, from) <= c.maxRequests
    ensures c.maxRequests <= 0 ==> AllowsIn(rs, c, k, from) == 0
  {
    if c.maxRequests <= 0 {
      NoneAllowed(rs, c, k, from);
    } else if c.windowMs <= 0 {
      NothingAdmitted(rs, c, k, from);
    } else {
      KeyInvHolds(rs, c, k, if rs == [] then 0 else rs[|rs| - 1].now);
      LogCounts(rs, c, k, from);
      WindowsBound(Log(rs, c, k), c, from);
      if c.windowMs == 1 { OneTickBound(Log(rs, c, k), c, from); }
    }
  }

  /** Over every run the table stays within its limit. */
  lemma {:induction false} TableBounded(rs: seq<Request>, c: Config)
    ensures |TableAfter(rs, c).buckets| <= Limit(c)
    decreases |rs|
  {
    if rs != [] {
      TableBounded(rs[..|rs| - 1], c);
      TableStaysWithin(TableAfter(rs[..|rs| - 1], c), rs[|rs| - 1], c);
    }
  }

  // ---------- the bound is reached ----------

  ghost predicate Only(t: Table, k: ClientKey, b: Bucket)
  {
    t.buckets == map[k := b]
  }

  function Burst(k: ClientKey, now: int, n: nat): seq<Request>
  {
    if n == 0 then [] else Burst(k, now, n - 1) + [Request(k, now)]
  }

  ghost predicate Inside(now: int, from: int, c: Config)
  {
    from <= now < from + c.windowMs
  }

  lemma RunSnoc(rs: seq<Request>, r: Request, c: Config, from: int)
    ensures var rs' := rs + [r]; var (t, d) := Consumed(TableAfter(rs, c), r, c);
      && TableAfter(rs', c) == t
      && AllowsIn(rs', c, r.key, from) ==
        AllowsIn(rs, c, r.key, from) + (if d == Allow && Inside(r.now, from, c) then 1 else 0)
  {
    assert (rs + [r])[..|rs|] == rs;
    hide Consumed;
  }

  lemma LiveAdmits(t: Table, k: ClientKey, now: int, b: Bucket, c: Config)
    requires Only(t, k, b) && Live(b, now, c) && b.count < c.maxRequests && k != UNKNOWN_SOCKET_KEY
    ensures var (t', d) := Consumed(t, Request(k, now), c); d == Allow && Only(t', k, b.(count := b.count + 1))
  {
    assert LiveOnly(t.buckets, now, c) == t.buckets;
  }

  lemma ExpiredAdmits(t: Table, k: ClientKey, now: int, c: Config)
    requires t.buckets.Keys <= {k} && (k in t.buckets ==> !Live(t.buckets[k], now, c))
    requires c.maxRequests >= 1 && c.maxBuckets >= 1 && k != UNKNOWN_SOCKET_KEY
    ensures var (t', d) := Consumed(t, Request(k, now), c); d == Allow && Only(t', k, Bucket(now, 1))
  {
    assert LiveOnly(t.buckets, now, c) == map[];
    if k !in t.buckets { assert t.buckets == map[]; }
  }

  lemma {:induction false} BurstAdmitted(rs: seq<Request>, c: Config, k: ClientKey, now: int, b: Bucket, n: nat,
                                         from: int)
    requires Only(TableAfter(rs, c), k, b) && Live(b, now, c) && b.count + n <= c.maxRequests && k != UNKNOWN_SOCKET_KEY
    ensures Only(TableAfter(rs + Burst(k, now, n), c), k, b.(count := b.count + n))
    ensures AllowsIn(rs + Burst(k, now, n), c, k, from) ==
      AllowsIn(rs, c, k, from) + (if Inside(now, from, c) then n else 0)
    decreases n
  {
    hide Consumed, TableAfter, AllowsIn, Inside, Only;
    if n == 0 {
      assert rs + Burst(k, now, 0) == rs;
    } else {
      var before := rs + Burst(k, now, n - 1);
      BurstAdmitted(rs, c, k, now, b, n - 1, from);
      assert rs + Burst(k, now, n) == before + [Request(k, now)];
      LiveAdmits(TableAfter(before, c), k, now, b.(count := b.count + n - 1), c);
      RunSnoc(before, Request(k, now), c, from);
    }
  }

  lemma {:induction false} BurstTimes(k: ClientKey, now: int, n: nat)
    ensures forall r :: r in Burst(k, now, n) ==> r.now == now
    decreases n
  {
    if n > 0 { BurstTimes(k, now, n - 1); }
  }

  /** One request, the rest of its quota at the window's last instant, and a full quota at the next. */
  function Worst(k: ClientKey, c: Config): seq<Request>
    requires c.maxRequests >= 1
  {
    [Request(k, 0)] + Burst(k, c.windowMs - 1, c.maxRequests - 1) + [Request(k, c.windowMs)] +
      Burst(k, c.windowMs, c.maxRequests - 1)
  }

  lemma WorstClock(k: ClientKey, c: Config)
    requires c.maxRequests >= 1 && c.windowMs >= 2
    ensures ClockForward(Worst(k, c))
  {
    BurstTimes(k, c.windowMs - 1, c.maxRequests - 1);
    BurstTimes(k, c.windowMs, c.maxRequests - 1);
  }

  /** The bound is the best possible: every quota and every window longer than one tick reach it. */
  lemma BoundReached(k: ClientKey, c: Config)
    requires c.maxRequests >= 1 && c.windowMs >= 2 && c.maxBuckets >= 1 && k != UNKNOWN_SOCKET_KEY
    ensures ClockForward(Worst(k, c)) && AllowsIn(Worst(k, c), c, k, c.windowMs - 1) == 2 * c.maxRequests - 1
  {
    hide Consumed, TableAfter, AllowsIn, Only, Burst;
    WorstClock(k, c);
    var w, n, from := c.windowMs, c.maxRequests - 1, c.windowMs - 1;
    var a := [Request(k, 0)];
    FirstAdmitted(k, c, from);
    var b := a + Burst(k, w - 1, n);
    BurstAdmitted(a, c, k, w - 1, Bucket(0, 1), n, from);
    var d := b + [Request(k, w)];
    NextAdmitted(b, k, w, Bucket(0, c.maxRequests), c, from);
    BurstAdmitted(d, c, k, w, Bucket(w, 1), n, from);
    assert Worst(k, c) == d + Burst(k, w, n);
  }

  lemma OneTimeClock(k: ClientKey, n: nat)
    ensures ClockForward([Request(k, 0)] + Burst(k, 0, n))
  {
    BurstTimes(k, 0, n);
    hide Burst;
  }

  /** And windows of one tick reach theirs: a full quota at once. */
  lemma OneTickReached(k: ClientKey, c: Config)
    requires c.maxRequests >= 1 && c.windowMs == 1 && c.maxBuckets >= 1 && k != UNKNOWN_SOCKET_KEY
    ensures var rs := [Request(k, 0)] + Burst(k, 0, c.maxRequests - 1);
      ClockForward(rs) && AllowsIn(rs, c, k, 0) == c.maxRequests
  {
    hide Consumed, TableAfter, AllowsIn, Only, Burst, ClockForward;
    OneTimeClock(k, c.maxRequests - 1);
    FirstAdmitted(k, c, 0);
    BurstAdmitted([Request(k, 0)], c, k, 0, Bucket(0, 1), c.maxRequests - 1, 0);
  }

  lemma FirstAdmitted(k: ClientKey, c: Config, from: int)
    requires c.maxRequests >= 1 && c.maxBuckets >= 1 && k != UNKNOWN_SOCKET_KEY
    ensures Only(TableAfter([Request(k, 0)], c), k, Bucket(0, 1))
    ensures AllowsIn([Request(k, 0)], c, k, from) == if Inside(0, from, c) then 1 else 0
  {
    ExpiredAdmits(TableAfter([], c), k, 0, c);
    hide Consumed;
    RunSnoc([], Request(k, 0), c, from);
    assert [] + [Request(k, 0)] == [Request(k, 0)];
  }

  lemma NextAdmitted(rs: seq<Request>, k: ClientKey, now: int, b: Bucket, c: Config, from: int)
    requires c.maxRequests >= 1 && c.maxBuckets >= 1 && k != UNKNOWN_SOCKET_KEY
    requires Only(TableAfter(rs, c), k, b) && !Live(b, now, c)
    ensures Only(TableAfter(rs + [Request(k, now)], c), k, Bucket(now, 1))
    ensures AllowsIn(rs + [Request(k, now)], c, k, from) ==
      AllowsIn(rs, c, k, from) + if Inside(now, from, c) then 1 else 0
  {
    hide Consumed, TableAfter, AllowsIn;
    ExpiredAdmits(TableAfter(rs, c), k, now, c);
    RunSnoc(rs, Request(k, now), c, from);
  }
}
