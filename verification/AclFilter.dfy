/** The packet filter over whole runs: packets, refills, connection expiry, cache cleanup and
    hot reloads in any order, with and without the decision cache. */
module AclFilter {
  import opened Wrappers
  import opened AclRules
  import opened AclCache
  import opened AclProcessing
  import TB = TokenBucket

  const CACHE_MAX_SIZE := 10000
  const CONN_TIMEOUT_SECS := 60

  // ----- From raw packets to decisions -----

  /** A received packet; `complete` says that the IP header fits, `ports` that a TCP or UDP header does. */
  datatype RawPacket = RawPacket(
    complete: bool, version: nat, src: nat, dst: nat, nextHeader: nat, ports: Option<(nat, nat)>,
    size: nat, srcGroups: seq<string>, dstGroups: seq<string>)

  const TCP_HEADER := 6
  const UDP_HEADER := 17
  const ICMP_HEADER := 1
  const ICMPV6_HEADER := 58

  function AclProtocol(nextHeader: nat): Protocol {
    if nextHeader == TCP_HEADER then Tcp
    else if nextHeader == UDP_HEADER then Udp
    else if nextHeader == ICMP_HEADER then Icmp
    else if nextHeader == ICMPV6_HEADER then IcmpV6
    else Unspecified
  }

  function ExtractPacketInfo(raw: RawPacket): Option<PacketInfo> {
    var hasPorts := raw.nextHeader == TCP_HEADER || raw.nextHeader == UDP_HEADER;
    if !raw.complete || (raw.version != 4 && raw.version != 6) || (hasPorts && raw.ports.None?) then None
    else
      var ip := (bits: nat) => if raw.version == 4 then V4(bits) else V6(bits);
      Some(PacketInfo(ip(raw.src), ip(raw.dst),
                      if hasPorts then Some(raw.ports.value.0) else None,
                      if hasPorts then Some(raw.ports.value.1) else None,
                      AclProtocol(raw.nextHeader), raw.size, raw.srcGroups, raw.dstGroups))
  }

  lemma {:induction false} ExtractedIsWellFormed(raw: RawPacket)
    ensures var info := ExtractPacketInfo(raw); info.Some? ==> WellFormed(info.value)
  {}

  predicate IsMine(ip: IpAddr, my4: Option<nat>, my6: Option<nat>) {
    ip == V4(OrZero(my4)) || ip == V6(OrZero(my6))
  }

  predicate IsQuic(p: PacketInfo, quicPort: nat, my4: Option<nat>, my6: Option<nat>) {
    && p.protocol == Udp && quicPort != 0
    && (|| (p.dstPort == Some(quicPort) && IsMine(p.dstIp, my4, my6))
        || (p.srcPort == Some(quicPort) && IsMine(p.srcIp, my4, my6)))
  }

  // ----- Steps -----

  /** Everything but the decision cache. */
  datatype Base = Base(rules: RuleSet, enabled: bool, quicPort: nat, clock: nat, shared: Shared)

  datatype Filter = Filter(base: Base, cache: Cache)

  datatype Event =
    | Tick(micros: nat)
    | Incoming(raw: RawPacket, isIn: bool, my4: Option<nat>, my6: Option<nat>)
    | RefillBucket(key: RateLimitKey)
    | ExpireConns
    | CleanCache
    | Reload(config: Option<seq<Chain>>)
    | SetQuicPort(port: nat)

  /** The packet and chain to decide about; none if the filter lets the packet through unseen. */
  function Classify(b: Base, e: Event): Option<(PacketInfo, ChainType)>
    requires e.Incoming?
  {
    var info := ExtractPacketInfo(e.raw);
    if !b.enabled || info.None? || IsQuic(info.value, b.quicPort, e.my4, e.my6) then None
    else
      var mine := IsMine(info.value.dstIp, e.my4, e.my6);
      Some((info.value, if !e.isIn then Outbound else if mine then Inbound else Forward))
  }

  /** A step of the filter that always scans. */
  function BaseNext(b: Base, e: Event): (Base, Option<AclResult>) {
    match e
    case Tick(micros) => (b.(clock := b.clock + micros), None)
    case Incoming(_, _, _, _) =>
      var c := Classify(b, e);
      if c.None? then (b, None)
      else
        var s := Scan(b.rules, b.shared, c.value.0, c.value.1, b.clock);
        (b.(shared := s.shared), Some(s.result))
    case RefillBucket(key) =>
      if key !in b.shared.buckets then (b, None)
      else (b.(shared := b.shared.(buckets := b.shared.buckets[key := TB.Refill(b.shared.buckets[key], b.clock)])), None)
    case ExpireConns =>
      var conns := b.shared.conns;
      var live := map k | k in conns && Secs(b.clock) - conns[k].lastSeen <= CONN_TIMEOUT_SECS :: conns[k];
      (b.(shared := b.shared.(conns := live)), None)
    case CleanCache => (b, None)
    case Reload(config) =>
      if config.None? then (b.(enabled := false), None)
      else (b.(rules := Build(config.value), enabled := true, shared := b.shared.(counters := map[])), None)
    case SetQuicPort(port) => (b.(quicPort := port), None)
  }

  /** A step of the filter with its cache; a reload starts with a fresh one. */
  ghost predicate Step(f: Filter, e: Event, f': Filter, out: Option<Outcome>) {
    if e.Incoming? && Classify(f.base, e).Some? then
      var (p, t) := Classify(f.base, e).value;
      && f'.base == f.base.(shared := f'.base.shared)
      && out.Some?
      && Processes(f.base.rules, CACHE_MAX_SIZE, f.base.shared, f.cache, p, t, f.base.clock,
                   f'.base.shared, f'.cache, out.value)
    else
      && f'.base == BaseNext(f.base, e).0
      && out.None?
      && (if e.CleanCache? then IsCleanup(f.cache, CACHE_MAX_SIZE, f'.cache)
          else if e.Reload? && e.config.Some? then f'.cache == map[]
          else f'.cache == f.cache)
  }

  /** Filter states `fs` of a run with events `es` and outcomes `outs`. */
  ghost predicate IsRun(fs: seq<Filter>, es: seq<Event>, outs: seq<Option<Outcome>>) {
    && |fs| == |es| + 1 && |outs| == |es|
    && forall i :: 0 <= i < |es| ==> Step(fs[i], es[i], fs[i + 1], outs[i])
  }

  function BaseRun(b: Base, es: seq<Event>): Base {
    if es == [] then b else BaseNext(BaseRun(b, es[..|es| - 1]), es[|es| - 1]).0
  }

  // ----- The cache is invisible -----

  ghost predicate Ok(f: Filter) {
    CacheOk(f.base.rules, f.base.shared, f.cache) && |f.cache| <= 2 * CACHE_MAX_SIZE
  }

  /** The cached filter answers like the scanning one, and does not panic. */
  predicate Agrees(out: Option<Outcome>, r: Option<AclResult>) {
    out.Some? == r.Some? && (out.Some? ==> out.value.Verdict? && SameVerdict(out.value.result, r.value))
  }

  lemma {:induction false} StepAgrees(f: Filter, e: Event, f': Filter, out: Option<Outcome>)
    requires Ok(f) && Step(f, e, f', out)
    ensures f'.base == BaseNext(f.base, e).0 && Agrees(out, BaseNext(f.base, e).1)
    ensures Ok(f')
  {
    hide CacheOk, Processes, Scan, SameVerdict;
    if e.Incoming? && Classify(f.base, e).Some? {
      ExtractedIsWellFormed(e.raw);
      var (p, t) := Classify(f.base, e).value;
      ProcessAgrees(f.base.rules, CACHE_MAX_SIZE, f.base.shared, f.cache, p, t, f.base.clock,
                    f'.base.shared, f'.cache, out.value);
      ProcessBoundsCache(f, p, t, f', out.value);
    } else {
      QuietStepKeepsOk(f, e, f');
    }
  }

  lemma {:induction false} ProcessBoundsCache(f: Filter, p: PacketInfo, t: ChainType, f': Filter, out: Outcome)
    requires |f.cache| <= 2 * CACHE_MAX_SIZE
    requires Processes(f.base.rules, CACHE_MAX_SIZE, f.base.shared, f.cache, p, t, f.base.clock,
                       f'.base.shared, f'.cache, out)
    ensures |f'.cache| <= 2 * CACHE_MAX_SIZE
  {
    hide Scan, Replay;
    var key := KeyOf(p, t);
    if key in f.cache {
      assert f'.cache.Keys == f.cache.Keys;
    } else if Scan(f.base.rules, f.base.shared, p, t, f.base.clock).cached.Some? {
      InsertionBoundsSize(f.cache, key, Scan(f.base.rules, f.base.shared, p, t, f.base.clock).cached.value,
                          CACHE_MAX_SIZE, f'.cache);
    }
  }

  lemma {:induction false} QuietStepKeepsOk(f: Filter, e: Event, f': Filter)
    requires Ok(f) && Step(f, e, f', None)
    ensures Ok(f')
  {
    hide EntryFor;
    forall k | k in f'.cache ensures EntryOk(f'.base.rules, f'.base.shared, k, f'.cache[k]) {
      assert EntryOk(f.base.rules, f.base.shared, k, f.cache[k]);
    }
  }

  /** Over any run: the same answers, and the same rules, connections, buckets and counters, as
      the filter that always scans; no panic, and a bounded cache. */
  lemma {:induction false} CacheIsTransparent(fs: seq<Filter>, es: seq<Event>, outs: seq<Option<Outcome>>, n: nat)
    requires IsRun(fs, es, outs) && Ok(fs[0]) && n <= |es|
    ensures fs[n].base == BaseRun(fs[0].base, es[..n]) && Ok(fs[n])
    ensures forall i :: 0 <= i < n ==> Agrees(outs[i], BaseNext(BaseRun(fs[0].base, es[..i]), es[i]).1)
  {
    hide Step, Ok, BaseNext, Agrees;
    if n > 0 {
      CacheIsTransparent(fs, es, outs, n - 1);
      StepAgrees(fs[n - 1], es[n - 1], fs[n], outs[n - 1]);
      assert es[..n][..n - 1] == es[..n - 1];
    }
  }

  // ----- The rate bound -----

  /** In state `b` the packet of `e` is decided by a rule whose rate limit has the key `key`. */
  predicate LimitedBy(b: Base, e: Event, key: RateLimitKey) {
    && e.Incoming? && Classify(b, e).Some?
    && var (p, t) := Classify(b, e).value;
       var f := Deciding(b.rules, t, p);
       f.Some? && f.value.rule.rateLimit > 0 && key == RateLimitKey(t, f.value.rule.priority)
  }

  /** ... and was not dropped for exceeding it. */
  predicate Admits(b: Base, e: Event, out: Option<Outcome>, key: RateLimitKey) {
    LimitedBy(b, e, key) && out.Some? && out.value.Verdict? && out.value.result.context != RateLimitDrop
  }

  /** The number of packets admitted under `key` in the first `n` steps. */
  function Admitted(fs: seq<Filter>, es: seq<Event>, outs: seq<Option<Outcome>>, key: RateLimitKey, n: nat): nat
    requires n <= |es| && |fs| == |es| + 1 && |outs| == |es|
  {
    if n == 0 then 0
    else Admitted(fs, es, outs, key, n - 1) + if Admits(fs[n - 1].base, es[n - 1], outs[n - 1], key) then 1 else 0
  }

  /** The bucket under `key`, if any, accounts for `count` admitted packets since time `since`. */
  predicate Accounts(b: Base, key: RateLimitKey, count: nat, since: nat) {
    since <= b.clock &&
    if key !in b.shared.buckets then count == 0
    else
      var bucket := b.shared.buckets[key];
      && TB.Valid(bucket) && since <= bucket.lastRefill <= b.clock
      && TB.Debt(bucket, count) <= TB.MICROS_PER_SEC * bucket.capacity - bucket.rate * since
  }

  predicate NotLimited(r: Option<AclResult>) {
    r.Some? && r.value.context != RateLimitDrop
  }

  lemma {:induction false} NothingAdmitted(b: Base, key: RateLimitKey)
    requires key !in b.shared.buckets
    ensures Accounts(b, key, 0, b.clock)
  {}

  lemma {:induction false} AdmitsAgrees(b: Base, e: Event, out: Option<Outcome>, key: RateLimitKey)
    requires Agrees(out, BaseNext(b, e).1)
    ensures Admits(b, e, out, key) <==> LimitedBy(b, e, key) && NotLimited(BaseNext(b, e).1)
  {
    hide BaseNext, LimitedBy;
  }

  lemma {:induction false} LaterStart(rate: nat, a: nat, b: nat)
    requires a <= b
    ensures rate * a <= rate * b
  {
    assert rate * (b - a) >= 0;
  }

  lemma {:induction false} ScanKeepsAccount(b: Base, e: Event, key: RateLimitKey, count: nat, since: nat)
    requires Accounts(b, key, count, since) && e.Incoming? && Classify(b, e).Some?
    ensures var (b', r) := BaseNext(b, e);
            Accounts(b', key, count + if LimitedBy(b, e, key) && NotLimited(r) then 1 else 0, since)
  {
    var (p, t) := Classify(b, e).value;
    var f := Deciding(b.rules, t, p);
    if f.Some? {
      LaterStart(f.value.rule.rateLimit, since, b.clock);
    }
  }

  lemma {:induction false} BaseStepKeepsAccount(b: Base, e: Event, key: RateLimitKey, count: nat, since: nat)
    requires Accounts(b, key, count, since)
    ensures var (b', r) := BaseNext(b, e);
            Accounts(b', key, count + if LimitedBy(b, e, key) && NotLimited(r) then 1 else 0, since)
  {
    if e.Incoming? && Classify(b, e).Some? {
      ScanKeepsAccount(b, e, key, count, since);
    } else if e.RefillBucket? && e.key == key && key in b.shared.buckets {
      TB.RefillKeepsDebt(b.shared.buckets[key], count, b.clock);
    }
  }

  lemma {:induction false} RunKeepsAccount(fs: seq<Filter>, es: seq<Event>, outs: seq<Option<Outcome>>,
                                           key: RateLimitKey, n: nat)
    requires IsRun(fs, es, outs) && Ok(fs[0]) && n <= |es|
    requires key !in fs[0].base.shared.buckets
    ensures Accounts(fs[n].base, key, Admitted(fs, es, outs, key, n), fs[0].base.clock)
  {
    hide Step, Ok, BaseNext, Accounts, LimitedBy, Admits, Agrees;
    if n == 0 {
      NothingAdmitted(fs[0].base, key);
    } else {
      RunKeepsAccount(fs, es, outs, key, n - 1);
      CacheIsTransparent(fs, es, outs, n - 1);
      StepAgrees(fs[n - 1], es[n - 1], fs[n], outs[n - 1]);
      AdmitsAgrees(fs[n - 1].base, es[n - 1], outs[n - 1], key);
      BaseStepKeepsAccount(fs[n - 1].base, es[n - 1], key, Admitted(fs, es, outs, key, n - 1), fs[0].base.clock);
    }
  }

  /** Over any run of hits, misses, refills, cleanups and reloads, the packets admitted under one
      rate-limit key are at most the burst of its bucket plus its rate times the elapsed time. */
  lemma {:induction false} RateIsBounded(fs: seq<Filter>, es: seq<Event>, outs: seq<Option<Outcome>>, key: RateLimitKey)
    requires IsRun(fs, es, outs) && Ok(fs[0]) && key !in fs[0].base.shared.buckets
    ensures var (count, last) := (Admitted(fs, es, outs, key, |es|), fs[|es|].base);
            if key !in last.shared.buckets then count == 0
            else
              var bucket := last.shared.buckets[key];
              TB.MICROS_PER_SEC * count
              <= TB.MICROS_PER_SEC * bucket.capacity + bucket.rate * (last.clock - fs[0].base.clock)
  {
    hide Step, Ok, Admitted;
    RunKeepsAccount(fs, es, outs, key, |es|);
    var last := fs[|es|].base;
    if key in last.shared.buckets {
      var bucket := last.shared.buckets[key];
      TB.Earnings(bucket.rate, fs[0].base.clock, bucket.lastRefill, last.clock);
    }
  }

  // ----- The rate bound over a window -----

  /** A bucket under `key` is no fuller than its capacity, and was not refilled in the future. */
  predicate BucketOk(b: Base, key: RateLimitKey) {
    key in b.shared.buckets ==>
      TB.Valid(b.shared.buckets[key]) && b.shared.buckets[key].lastRefill <= b.clock
  }

  /** The bucket under `key`, once `start`, accounts for `count` packets admitted since. */
  predicate Pays(b: Base, key: RateLimitKey, count: nat, start: TB.Bucket) {
    && key in b.shared.buckets && BucketOk(b, key)
    && var bucket := b.shared.buckets[key];
       && bucket.capacity == start.capacity && bucket.rate == start.rate
       && TB.Debt(bucket, count) <= TB.Debt(start, 0)
  }

  lemma {:induction false} ScanKeepsBucket(b: Base, e: Event, key: RateLimitKey, count: nat, start: TB.Bucket)
    requires Pays(b, key, count, start) && e.Incoming? && Classify(b, e).Some?
    ensures var (b', r) := BaseNext(b, e);
            Pays(b', key, count + if LimitedBy(b, e, key) && NotLimited(r) then 1 else 0, start)
  {
  }

  lemma {:induction false} StepKeepsBucket(b: Base, e: Event, key: RateLimitKey, count: nat, start: TB.Bucket)
    requires Pays(b, key, count, start)
    ensures var (b', r) := BaseNext(b, e);
            Pays(b', key, count + if LimitedBy(b, e, key) && NotLimited(r) then 1 else 0, start)
  {
    if e.Incoming? && Classify(b, e).Some? {
      ScanKeepsBucket(b, e, key, count, start);
    } else if e.RefillBucket? && e.key == key {
      TB.RefillKeepsDebt(b.shared.buckets[key], count, b.clock);
    }
  }

  /** A bucket that the step creates is full and as old as the step. */
  lemma {:induction false} NewBucketOk(b: Base, e: Event, key: RateLimitKey)
    requires key !in b.shared.buckets
    ensures BucketOk(BaseNext(b, e).0, key)
  {
  }

  lemma {:induction false} RunKeepsBucketOk(fs: seq<Filter>, es: seq<Event>, outs: seq<Option<Outcome>>,
                                            key: RateLimitKey, n: nat)
    requires IsRun(fs, es, outs) && Ok(fs[0]) && BucketOk(fs[0].base, key) && n <= |es|
    ensures BucketOk(fs[n].base, key)
  {
    hide Step, Ok, BaseNext, LimitedBy, Agrees, BaseRun;
    if n > 0 {
      RunKeepsBucketOk(fs, es, outs, key, n - 1);
      CacheIsTransparent(fs, es, outs, n - 1);
      StepAgrees(fs[n - 1], es[n - 1], fs[n], outs[n - 1]);
      var b := fs[n - 1].base;
      if key in b.shared.buckets {
        StepKeepsBucket(b, es[n - 1], key, 0, b.shared.buckets[key]);
      } else {
        NewBucketOk(b, es[n - 1], key);
      }
    }
  }

  lemma {:induction false} WindowPays(fs: seq<Filter>, es: seq<Event>, outs: seq<Option<Outcome>>, key: RateLimitKey,
                                      m: nat, n: nat)
    requires IsRun(fs, es, outs) && Ok(fs[0]) && BucketOk(fs[0].base, key) && m <= n <= |es|
    requires key in fs[m].base.shared.buckets
    ensures var count := Admitted(fs, es, outs, key, n) - Admitted(fs, es, outs, key, m);
            count >= 0 && Pays(fs[n].base, key, count, fs[m].base.shared.buckets[key])
  {
    hide Step, Ok, BaseNext, LimitedBy, Admits, Agrees, BaseRun, TB.Debt;
    if n == m {
      RunKeepsBucketOk(fs, es, outs, key, m);
    } else {
      WindowPays(fs, es, outs, key, m, n - 1);
      CacheIsTransparent(fs, es, outs, n - 1);
      StepAgrees(fs[n - 1], es[n - 1], fs[n], outs[n - 1]);
      AdmitsAgrees(fs[n - 1].base, es[n - 1], outs[n - 1], key);
      hide Pays, BucketOk;
      StepKeepsBucket(fs[n - 1].base, es[n - 1], key,
                      Admitted(fs, es, outs, key, n - 1) - Admitted(fs, es, outs, key, m),
                      fs[m].base.shared.buckets[key]);
    }
  }

  /** Over any window of any run in which the key has a bucket at the start of the window, the packets admitted
      under the key are at most the tokens there plus what the rate earns since the refill before it. */
  lemma {:induction false} RateInWindow(fs: seq<Filter>, es: seq<Event>, outs: seq<Option<Outcome>>, key: RateLimitKey,
                                        m: nat, n: nat)
    requires IsRun(fs, es, outs) && Ok(fs[0]) && BucketOk(fs[0].base, key) && m <= n <= |es|
    requires key in fs[m].base.shared.buckets
    ensures var bucket := fs[m].base.shared.buckets[key];
            TB.MICROS_PER_SEC * (Admitted(fs, es, outs, key, n) - Admitted(fs, es, outs, key, m))
            <= TB.MICROS_PER_SEC * bucket.available + bucket.rate * (fs[n].base.clock - bucket.lastRefill)
  {
    hide Step, Ok, Admitted;
    WindowPays(fs, es, outs, key, m, n);
    var start, last := fs[m].base.shared.buckets[key], fs[n].base;
    TB.Earnings(start.rate, start.lastRefill, last.shared.buckets[key].lastRefill, last.clock);
  }
}
