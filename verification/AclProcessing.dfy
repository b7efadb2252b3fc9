/** Processing one packet: the rule scan, the replay of a cached decision, and why they agree. */
module AclProcessing {
  import opened Wrappers
  import opened Sorting
  import opened AclRules
  import opened AclCache
  import TB = TokenBucket

  datatype ConnState = New | Established

  datatype ConnEntry = ConnEntry(
    endpoints: ConnKey, protocol: Protocol, state: ConnState, createdAt: nat, lastSeen: nat,
    packets: nat, bytes: nat)

  datatype StatItem = StatItem(packets: nat, bytes: nat)

  /** The state that decisions read and change; connections and buckets survive a reload. */
  datatype Shared = Shared(
    conns: map<ConnKey, ConnEntry>, buckets: map<RateLimitKey, TB.Bucket>, counters: map<StatId, StatItem>)

  datatype Outcome = Verdict(result: AclResult) | Panicked

  function Secs(now: nat): nat {
    now / TB.MICROS_PER_SEC
  }

  // ----- Rate limits, connection tracking, counters -----

  datatype RateCheck =
    | Pass(buckets: map<RateLimitKey, TB.Bucket>)
    | Limited(buckets: map<RateLimitKey, TB.Bucket>)
    | NoBucket(buckets: map<RateLimitKey, TB.Bucket>)

  /** Takes one token; a missing bucket is created full, or is fatal when it must exist. */
  function CheckRateLimit(buckets: map<RateLimitKey, TB.Bucket>, key: RateLimitKey, rate: nat, burst: nat,
                          allowCreate: bool, now: nat): RateCheck {
    if rate == 0 then Pass(buckets)
    else if key !in buckets && !allowCreate then NoBucket(buckets)
    else
      var b := if key in buckets then buckets[key] else TB.Bucket(burst, rate, burst, now);
      var (b', ok) := TB.TryConsume(b, 1);
      if ok then Pass(buckets[key := b']) else Limited(buckets[key := b'])
  }

  function CheckAll(buckets: map<RateLimitKey, TB.Bucket>, keys: seq<RateLimitKey>, now: nat): RateCheck {
    if keys == [] then Pass(buckets)
    else
      var check := CheckRateLimit(buckets, keys[0], 1, 1, false, now);
      if check.Pass? then CheckAll(check.buckets, keys[1..], now) else check
  }

  function ConnKeyOf(p: PacketInfo): ConnKey {
    ConnKey(p.srcIp, OrZero(p.srcPort), p.dstIp, OrZero(p.dstPort))
  }

  function TrackConn(conns: map<ConnKey, ConnEntry>, key: ConnKey, p: PacketInfo, now: nat): map<ConnKey, ConnEntry> {
    if key in conns then
      var c := conns[key];
      conns[key := c.(lastSeen := Secs(now), packets := c.packets + 1, bytes := c.bytes + p.size, state := Established)]
    else conns[key := ConnEntry(ConnKeyOf(p), p.protocol, New, Secs(now), Secs(now), 1, p.size)]
  }

  function Bump(counters: map<StatId, StatItem>, ids: seq<StatId>, size: nat): map<StatId, StatItem>
    decreases |ids|
  {
    if ids == [] then counters
    else
      var c := CounterOf(counters, ids[0]);
      Bump(counters[ids[0] := StatItem(c.packets + 1, c.bytes + size)], ids[1..], size)
  }

  /** The effects of a decision that was not rate limited. */
  function Commit(sh: Shared, entry: CacheEntry, p: PacketInfo, now: nat): Shared {
    sh.(conns := if entry.connTrackKey.Some? then TrackConn(sh.conns, entry.connTrackKey.value, p, now) else sh.conns,
        counters := Bump(sh.counters, entry.ruleStats, p.size))
  }

  // ----- The scan -----

  function RateLimited(id: RuleId): AclResult {
    AclResult(Drop, id, RateLimitDrop)
  }

  const UNSUPPORTED := AclResult(Drop, Default, UnsupportedChainType)

  function MatchedEntry(f: FastLookupRule, t: ChainType, p: PacketInfo, access: nat): CacheEntry {
    var r := f.rule;
    var limited := r.rateLimit > 0;
    var keys := if limited then [RateLimitKey(t, r.priority)] else [];
    var stats := (if limited then [f.stats] else []) + [f.stats];
    if r.stateful && r.action == Allow then
      CacheEntry(Stateful(r.priority), access, Some(ConnKeyOf(p)), keys,
                 Some(AclResult(Allow, Stateful(r.priority), StatefulMatch(p.srcIp, p.dstIp))), stats)
    else
      CacheEntry(Priority(r.priority), access, None, keys,
                 Some(AclResult(r.action, Priority(r.priority), RuleMatch(p.srcIp, p.dstIp, r.action))), stats)
  }

  function DefaultEntry(action: Action, access: nat): CacheEntry {
    CacheEntry(Default, access, None, [],
               Some(AclResult(action, Default, if action == Drop then DefaultDrop else DefaultAllow)), [DefaultStat])
  }

  /** What the scan caches for `p`. */
  function EntryFor(rules: RuleSet, t: ChainType, p: PacketInfo, access: nat): CacheEntry {
    var f := Deciding(rules, t, p);
    if f.Some? then MatchedEntry(f.value, t, p, access) else DefaultEntry(DefaultFor(rules, t), access)
  }

  datatype Scanned = Scanned(shared: Shared, result: AclResult, cached: Option<CacheEntry>)

  /** The processor without a cache; a rate-limited packet leaves nothing to cache. */
  function Scan(rules: RuleSet, sh: Shared, p: PacketInfo, t: ChainType, now: nat): Scanned {
    if t == UnspecifiedChain then Scanned(sh, UNSUPPORTED, None)
    else
      var entry := EntryFor(rules, t, p, Secs(now));
      var f := Deciding(rules, t, p);
      var check := if f.Some?
                   then CheckRateLimit(sh.buckets, RateLimitKey(t, f.value.rule.priority),
                                       f.value.rule.rateLimit, f.value.rule.burstLimit, true, now)
                   else Pass(sh.buckets);
      match check
      case Pass(buckets) => Scanned(Commit(sh.(buckets := buckets), entry, p, now), entry.result.value, Some(entry))
      case Limited(buckets) => Scanned(sh.(buckets := buckets), RateLimited(Priority(f.value.rule.priority)), None)
  }

  // ----- What the scan decides -----

  function CounterOf(counters: map<StatId, StatItem>, id: StatId): StatItem {
    if id in counters then counters[id] else StatItem(0, 0)
  }

  /** A counter after `n` more packets of one size. */
  function Counted(c: StatItem, n: nat, size: nat): StatItem {
    StatItem(c.packets + n, c.bytes + n * size)
  }

  lemma {:induction false} CountedOnce(c: StatItem, n: nat, size: nat)
    ensures Counted(c, 0, size) == c
    ensures Counted(StatItem(c.packets + 1, c.bytes + size), n, size) == Counted(c, n + 1, size)
  {
    assert (n + 1) * size == n * size + size;
  }

  /** How often `id` is listed. */
  function Times(ids: seq<StatId>, id: StatId): nat {
    if ids == [] then 0 else (if ids[0] == id then 1 else 0) + Times(ids[1..], id)
  }

  /** Every counter grows by one packet and its size for each time it is listed. */
  lemma {:induction false} BumpCounts(counters: map<StatId, StatItem>, ids: seq<StatId>, size: nat, id: StatId)
    ensures CounterOf(Bump(counters, ids, size), id) == Counted(CounterOf(counters, id), Times(ids, id), size)
    decreases |ids|
  {
    hide Counted;
    if ids == [] {
      CountedOnce(CounterOf(counters, id), 0, size);
    } else {
      var c := CounterOf(counters, ids[0]);
      BumpCounts(counters[ids[0] := StatItem(c.packets + 1, c.bytes + size)], ids[1..], size, id);
      CountedOnce(c, Times(ids[1..], id), size);
    }
  }

  /** How often a packet is counted under `id`: once under what decides about it, but twice under a rule
      with a rate limit, and not at all when it is dropped for its rate. */
  function Hits(rules: RuleSet, t: ChainType, p: PacketInfo, r: AclResult, id: StatId): nat {
    if t == UnspecifiedChain || r.context == RateLimitDrop then 0 else Listings(Deciding(rules, t, p), id)
  }

  function Listings(f: Option<FastLookupRule>, id: StatId): nat {
    if f.None? then (if id == DefaultStat then 1 else 0)
    else if id != f.value.stats then 0
    else if f.value.rule.rateLimit > 0 then 2 else 1
  }

  lemma {:induction false} EntryListings(rules: RuleSet, p: PacketInfo, t: ChainType, access: nat, id: StatId)
    ensures Times(EntryFor(rules, t, p, access).ruleStats, id) == Listings(Deciding(rules, t, p), id)
    ensures var e := EntryFor(rules, t, p, access); e.result.Some? && e.result.value.context != RateLimitDrop
  {
    hide Deciding;
    var f := Deciding(rules, t, p);
    if f.Some? && f.value.rule.rateLimit > 0 {
      var stats := EntryFor(rules, t, p, access).ruleStats;
      assert stats == [f.value.stats, f.value.stats] && stats[1..] == [f.value.stats];
      assert Times(stats[1..], id) == if f.value.stats == id then 1 else 0;
    }
  }

  lemma {:induction false} ScanCounts(rules: RuleSet, sh: Shared, p: PacketInfo, t: ChainType, now: nat, id: StatId)
    ensures var s := Scan(rules, sh, p, t, now);
            CounterOf(s.shared.counters, id)
            == Counted(CounterOf(sh.counters, id), Hits(rules, t, p, s.result, id), p.size)
  {
    hide Deciding, TrackConn, Bump, CounterOf, Listings, EntryFor, Counted;
    CountedOnce(CounterOf(sh.counters, id), 0, p.size);
    EntryListings(rules, p, t, Secs(now), id);
    BumpCounts(sh.counters, EntryFor(rules, t, p, Secs(now)).ruleStats, p.size, id);
  }

  /** A connection's packets, each with its time of arrival. */
  function TrackAll(conns: map<ConnKey, ConnEntry>, key: ConnKey, arrivals: seq<(PacketInfo, nat)>): map<ConnKey,
                    ConnEntry> {
    if arrivals == [] then conns
    else
      var (p, now) := arrivals[|arrivals| - 1];
      TrackConn(TrackAll(conns, key, arrivals[..|arrivals| - 1]), key, p, now)
  }

  function TotalSize(arrivals: seq<(PacketInfo, nat)>): nat {
    if arrivals == [] then 0 else TotalSize(arrivals[..|arrivals| - 1]) + arrivals[|arrivals| - 1].0.size
  }

  /** A tracked connection remembers how it began, counts its packets and bytes, knows when it was last
      seen, and is established from its second packet on; no other connection changes. */
  lemma {:induction false} TrackingCounts(conns: map<ConnKey, ConnEntry>, key: ConnKey, arrivals: seq<(PacketInfo,
                                          nat)>)
    requires key !in conns && arrivals != []
    ensures var after := TrackAll(conns, key, arrivals);
            var (first, last) := (arrivals[0], arrivals[|arrivals| - 1]);
            var state := if |arrivals| == 1 then New else Established;
            after == conns[key := ConnEntry(ConnKeyOf(first.0), first.0.protocol, state, first.1 / 1_000_000,
                                            last.1 / 1_000_000, |arrivals|, TotalSize(arrivals))]
    decreases |arrivals|
  {
    var init := arrivals[..|arrivals| - 1];
    if init == [] {
      assert TrackAll(conns, key, init) == conns && TotalSize(init) == 0;
    } else {
      TrackingCounts(conns, key, init);
    }
  }

  /** No token is left under the key; a bucket yet to be created would hold `burst`. */
  predicate Exhausted(buckets: map<RateLimitKey, TB.Bucket>, key: RateLimitKey, burst: nat) {
    if key in buckets then buckets[key].available == 0 || buckets[key].capacity == 0 else burst == 0
  }

  /** The deciding rule sets the action unless its rate limit is exhausted; the result names the rule, and whether it
      tracks connections, and the addresses. */
  predicate Obeys(r: AclResult, rule: Rule, buckets: map<RateLimitKey, TB.Bucket>, t: ChainType, p: PacketInfo) {
    if rule.rateLimit > 0 && Exhausted(buckets, RateLimitKey(t, rule.priority), rule.burstLimit)
    then r == AclResult(Drop, Priority(rule.priority), RateLimitDrop)
    else if rule.stateful && rule.action == Allow
    then r == AclResult(Allow, Stateful(rule.priority), StatefulMatch(p.srcIp, p.dstIp))
    else r == AclResult(rule.action, Priority(rule.priority), RuleMatch(p.srcIp, p.dstIp, rule.action))
  }

  /** Without a deciding rule, the result names the default action. */
  predicate ObeysDefault(r: AclResult, action: Action) {
    r == AclResult(action, Default, if action == Drop then DefaultDrop else DefaultAllow)
  }

  lemma {:induction false} ScanObeysRule(rules: RuleSet, sh: Shared, p: PacketInfo, t: ChainType, now: nat)
    requires t != UnspecifiedChain
    ensures var (f, r) := (Deciding(rules, t, p), Scan(rules, sh, p, t, now).result);
            if f.Some? then Obeys(r, f.value.rule, sh.buckets, t, p) else ObeysDefault(r, DefaultFor(rules, t))
  {
    hide Deciding;
  }

  /** The verdict in terms of the configuration: the top applicable rule decides, unless its rate limit is
      exhausted; without one, the default of the first chain of the type. */
  lemma {:induction false} ScanObeysConfig(chains: seq<Chain>, sh: Shared, p: PacketInfo, t: ChainType, now: nat)
    requires t != UnspecifiedChain
    ensures var r := Scan(Build(chains), sh, p, t, now).result;
            || (ObeysDefault(r, DefaultAction(chains, t)) && forall i, j :: !Applies(chains, t, p, i, j))
            || (exists i, j :: IsTopRule(chains, t, p, |chains|, i, j) && Obeys(r, chains[i].rules[j], sh.buckets, t, p))
  {
    DecidingRuleIsTop(chains, t, p);
    ScanObeysRule(Build(chains), sh, p, t, now);
    hide DefaultAction, RulesOf, Deciding, Scan, Obeys, ObeysDefault, RuleMatches;
    var f := Deciding(Build(chains), t, p);
    if f.Some? {
      var i, j :| IsTopRule(chains, t, p, |chains|, i, j) && IsAt(f.value, chains[i].rules, i, j);
    }
  }

  // ----- The cached processor -----

  function Replay(sh: Shared, entry: CacheEntry, p: PacketInfo, now: nat): (Shared, Outcome) {
    match CheckAll(sh.buckets, entry.rateLimitKeys, now)
    case NoBucket(buckets) => (sh.(buckets := buckets), Panicked)
    case Limited(buckets) => (sh.(buckets := buckets), Verdict(RateLimited(entry.matchedRule)))
    case Pass(buckets) =>
      (Commit(sh.(buckets := buckets), entry, p, now),
       if entry.result.Some? then Verdict(entry.result.value) else Panicked)
  }

  /** One call of the cached processor; only the victims of a triggered cleanup are open. */
  ghost predicate Processes(rules: RuleSet, maxSize: nat, sh: Shared, cache: Cache, p: PacketInfo, t: ChainType,
                            now: nat,
                            sh': Shared, cache': Cache, out: Outcome) {
    var key := KeyOf(p, t);
    if key in cache then
      var entry := cache[key].(lastAccess := Secs(now));
      cache' == cache[key := entry] && (sh', out) == Replay(sh, entry, p, now)
    else
      var s := Scan(rules, sh, p, t, now);
      && sh' == s.shared && out == Verdict(s.result)
      && if s.cached.Some? then IsInsertion(cache, key, s.cached.value, maxSize, cache') else cache' == cache
  }

  // ----- Agreement -----

  /** Which ports a packet has is decided by its protocol. */
  predicate WellFormed(p: PacketInfo) {
    var ports := p.protocol == Tcp || p.protocol == Udp;
    p.srcPort.Some? == ports && p.dstPort.Some? == ports
  }

  /** The well-formed packet, up to its size, that a cache key stands for. */
  function PacketOf(k: CacheKey): PacketInfo {
    var ports := k.protocol == Tcp || k.protocol == Udp;
    PacketInfo(k.srcIp, k.dstIp, if ports then Some(k.srcPort) else None, if ports then Some(k.dstPort) else None,
               k.protocol, 0, k.srcGroups, k.dstGroups)
  }

  /** An entry is the scan's decision for its key, and its rate limits have their buckets. */
  ghost predicate EntryOk(rules: RuleSet, sh: Shared, k: CacheKey, e: CacheEntry) {
    && k.chainType != UnspecifiedChain
    && e == EntryFor(rules, k.chainType, PacketOf(k), e.lastAccess)
    && forall r :: r in e.rateLimitKeys ==> r in sh.buckets
  }

  ghost predicate CacheOk(rules: RuleSet, sh: Shared, cache: Cache) {
    forall k :: k in cache ==> EntryOk(rules, sh, k, cache[k])
  }

  lemma {:induction false} SameMatcher<T(!new)>(s: seq<T>, m: T -> bool, m': T -> bool)
    requires forall x :: m(x) == m'(x)
    ensures FirstMatch(s, m) == FirstMatch(s, m')
  {
    if s != [] {
      SameMatcher(s[1..], m, m');
    }
  }

  lemma {:induction false} EntryFromKey(rules: RuleSet, t: ChainType, p: PacketInfo, access: nat)
    requires WellFormed(p)
    ensures EntryFor(rules, t, p, access) == EntryFor(rules, t, PacketOf(KeyOf(p, t)), access)
  {
    var q := PacketOf(KeyOf(p, t));
    assert q == p.(size := 0);
    SameMatcher(RulesFor(rules, t), Matcher(p), Matcher(q));
  }

  /** Equal but for the rule a rate-limited packet is attributed to. */
  predicate SameVerdict(a: AclResult, b: AclResult) {
    a.action == b.action && a.context == b.context && (a.context != RateLimitDrop ==> a == b)
  }

  lemma {:induction false} ReplayAgrees(rules: RuleSet, sh: Shared, e: CacheEntry, p: PacketInfo, t: ChainType,
                                        now: nat)
    requires t != UnspecifiedChain && e == EntryFor(rules, t, p, e.lastAccess)
    requires forall r :: r in e.rateLimitKeys ==> r in sh.buckets
    ensures var (sh', out) := Replay(sh, e, p, now);
            var s := Scan(rules, sh, p, t, now);
            sh' == s.shared && out.Verdict? && SameVerdict(out.result, s.result)
  {
    hide Deciding, Bump, TrackConn;
    var entry := EntryFor(rules, t, p, Secs(now));
    assert entry == e.(lastAccess := Secs(now));
    var f := Deciding(rules, t, p);
    if f.Some? && f.value.rule.rateLimit > 0 {
      var key := RateLimitKey(t, f.value.rule.priority);
      assert e.rateLimitKeys == [key];
      assert CheckAll(sh.buckets, [key], now) == CheckRateLimit(sh.buckets, key, 1, 1, false, now);
    }
  }

  /** Buckets are never removed, so cached rate limits stay live. */
  lemma {:induction false} ScanKeepsBuckets(rules: RuleSet, sh: Shared, p: PacketInfo, t: ChainType, now: nat)
    ensures var s := Scan(rules, sh, p, t, now);
            && sh.buckets.Keys <= s.shared.buckets.Keys
            && (s.cached.Some? ==> t != UnspecifiedChain && s.cached.value == EntryFor(rules, t, p, Secs(now))
                                   && forall r :: r in s.cached.value.rateLimitKeys ==> r in s.shared.buckets)
  {}

  lemma {:induction false} CacheStaysOk(rules: RuleSet, sh: Shared, cache: Cache, key: CacheKey, e: CacheEntry,
                                        sh': Shared, cache': Cache)
    requires CacheOk(rules, sh, cache) && sh.buckets.Keys <= sh'.buckets.Keys
    requires EntryOk(rules, sh', key, e)
    requires forall k :: k in cache' ==> k in cache[key := e] && cache'[k] == cache[key := e][k]
    ensures CacheOk(rules, sh', cache')
  {
    hide EntryFor;
    forall k | k in cache' ensures EntryOk(rules, sh', k, cache'[k]) {
      if k != key {
        assert EntryOk(rules, sh, k, cache[k]);
      }
    }
  }

  lemma {:induction false} HitAgrees(rules: RuleSet, sh: Shared, cache: Cache, p: PacketInfo, t: ChainType, now: nat,
                                     sh': Shared, out: Outcome)
    requires CacheOk(rules, sh, cache) && WellFormed(p) && KeyOf(p, t) in cache
    requires (sh', out) == Replay(sh, cache[KeyOf(p, t)].(lastAccess := Secs(now)), p, now)
    ensures var s := Scan(rules, sh, p, t, now);
            sh' == s.shared && out.Verdict? && SameVerdict(out.result, s.result)
    ensures CacheOk(rules, sh', cache[KeyOf(p, t) := cache[KeyOf(p, t)].(lastAccess := Secs(now))])
  {
    var key := KeyOf(p, t);
    var entry := cache[key].(lastAccess := Secs(now));
    assert EntryOk(rules, sh, key, cache[key]);
    assert EntryOk(rules, sh, key, entry);
    EntryFromKey(rules, t, p, Secs(now));
    hide Scan, Replay, EntryFor, CheckAll, CacheOk;
    ReplayAgrees(rules, sh, entry, p, t, now);
    ScanKeepsBuckets(rules, sh, p, t, now);
    CacheStaysOk(rules, sh, cache, key, entry, sh', cache[key := entry]);
  }

  /** One step of the cached processor is one step of the scan, and keeps the cache sound. */
  lemma {:induction false} ProcessAgrees(rules: RuleSet, maxSize: nat, sh: Shared, cache: Cache, p: PacketInfo,
                                         t: ChainType, now: nat,
                      sh': Shared, cache': Cache, out: Outcome)
    requires CacheOk(rules, sh, cache) && WellFormed(p)
    requires Processes(rules, maxSize, sh, cache, p, t, now, sh', cache', out)
    ensures var s := Scan(rules, sh, p, t, now);
            sh' == s.shared && out.Verdict? && SameVerdict(out.result, s.result)
    ensures CacheOk(rules, sh', cache')
  {
    hide Scan, Replay, EntryFor, CacheOk, SameVerdict;
    var key := KeyOf(p, t);
    if key in cache {
      HitAgrees(rules, sh, cache, p, t, now, sh', out);
    } else {
      ScanKeepsBuckets(rules, sh, p, t, now);
      EntryFromKey(rules, t, p, Secs(now));
      SameVerdictReflexive(Scan(rules, sh, p, t, now).result);
      var cached := Scan(rules, sh, p, t, now).cached;
      if cached.Some? {
        assert EntryOk(rules, sh', key, cached.value) by { EntryKeepsAccess(rules, t, p, Secs(now)); }
        CacheStaysOk(rules, sh, cache, key, cached.value, sh', cache');
      } else {
        MoreBuckets(rules, sh, cache, sh');
      }
    }
  }

  lemma {:induction false} SameVerdictReflexive(a: AclResult)
    ensures SameVerdict(a, a)
  {}

  lemma {:induction false} EntryKeepsAccess(rules: RuleSet, t: ChainType, p: PacketInfo, access: nat)
    ensures EntryFor(rules, t, p, access).lastAccess == access
  {}

  lemma {:induction false} MoreBuckets(rules: RuleSet, sh: Shared, cache: Cache, sh': Shared)
    requires CacheOk(rules, sh, cache) && sh.buckets.Keys <= sh'.buckets.Keys
    ensures CacheOk(rules, sh', cache)
  {
    forall k | k in cache ensures EntryOk(rules, sh', k, cache[k]) {
      assert EntryOk(rules, sh, k, cache[k]);
    }
  }
}
