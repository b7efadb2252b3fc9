/** Whole runs of the filter in terms of its configurations: which of them decides, what becomes of connections, and
    what the configured rate limits guarantee. */
module AclRuns {
  import opened Wrappers
  import opened AclRules
  import opened AclCache
  import opened AclProcessing
  import opened AclFilter
  import opened AclMeaning
  import TB = TokenBucket

  // ----- Reloads -----

  /** The configuration after the first `n` events: that of the last reload that had one. */
  function ConfigAt(es: seq<Event>, n: nat, first: seq<Chain>): seq<Chain>
    requires n <= |es|
  {
    if n == 0 then first
    else match es[n - 1]
         case Reload(Some(chains)) => chains
         case _ => ConfigAt(es, n - 1, first)
  }

  /** Whether the filter is on after the first `n` events: the last reload had a configuration. */
  function IsOnAt(es: seq<Event>, n: nat, first: bool): bool
    requires n <= |es|
  {
    if n == 0 then first
    else match es[n - 1]
         case Reload(config) => config.Some?
         case _ => IsOnAt(es, n - 1, first)
  }

  /** The QUIC port after the first `n` events: the last one set. */
  function QuicPortAt(es: seq<Event>, n: nat, first: nat): nat
    requires n <= |es|
  {
    if n == 0 then first
    else match es[n - 1]
         case SetQuicPort(port) => port
         case _ => QuicPortAt(es, n - 1, first)
  }

  lemma {:induction false} StepOfRun(fs: seq<Filter>, es: seq<Event>, outs: seq<Option<Outcome>>, n: nat)
    requires IsRun(fs, es, outs) && Ok(fs[0]) && n < |es|
    ensures fs[n + 1].base == BaseNext(fs[n].base, es[n]).0 && Agrees(outs[n], BaseNext(fs[n].base, es[n]).1)
  {
    hide Step, Ok, BaseNext, Agrees, BaseRun;
    CacheIsTransparent(fs, es, outs, n);
    StepAgrees(fs[n], es[n], fs[n + 1], outs[n]);
  }

  lemma {:induction false} ReloadStep(b: Base, e: Event)
    ensures var b' := BaseNext(b, e).0;
            match e
            case Reload(Some(chains)) =>
              b' == Base(Build(chains), true, b.quicPort, b.clock, Shared(b.shared.conns, b.shared.buckets, map[]))
            case Reload(None) => b' == b.(enabled := false)
            case SetQuicPort(port) => b' == b.(quicPort := port)
            case _ => b'.rules == b.rules && b'.enabled == b.enabled && b'.quicPort == b.quicPort
  {
    hide Scan, AclRules.Build;
  }

  /** A run decides by the configuration of its last reload. */
  lemma {:induction false} RunFollowsReloads(fs: seq<Filter>, es: seq<Event>, outs: seq<Option<Outcome>>,
                                             first: seq<Chain>, n: nat)
    requires IsRun(fs, es, outs) && Ok(fs[0]) && fs[0].base.rules == Build(first) && n <= |es|
    ensures fs[n].base.rules == Build(ConfigAt(es, n, first))
    ensures fs[n].base.enabled == IsOnAt(es, n, fs[0].base.enabled)
    ensures fs[n].base.quicPort == QuicPortAt(es, n, fs[0].base.quicPort)
  {
    hide Step, Ok, BaseNext, AclRules.Build, Agrees;
    if n > 0 {
      RunFollowsReloads(fs, es, outs, first, n - 1);
      StepOfRun(fs, es, outs, n - 1);
      ReloadStep(fs[n - 1].base, es[n - 1]);
    }
  }

  /** Over any run with its cache: exactly the packets that the filter has to see get a verdict, and it is the one that the
      configuration of the last reload asks for, by the fields of the packet. */
  lemma {:induction false} VerdictsFollowReloads(fs: seq<Filter>, es: seq<Event>, outs: seq<Option<Outcome>>,
                                                 first: seq<Chain>, n: nat)
    requires IsRun(fs, es, outs) && Ok(fs[0]) && fs[0].base.rules == Build(first) && n < |es| && es[n].Incoming?
    ensures outs[n].Some? <==>
            && IsOnAt(es, n, fs[0].base.enabled) && Readable(es[n].raw)
            && !IsQuicRaw(es[n].raw, QuicPortAt(es, n, fs[0].base.quicPort), es[n].my4, es[n].my6)
    ensures outs[n].Some? ==>
              && outs[n].value.Verdict?
              && exists r :: SameVerdict(outs[n].value.result, r)
                             && Follows(r, ConfigAt(es, n, first), ChainFor(es[n]), es[n].raw, fs[n].base.shared.buckets)
  {
    hide Step, Ok, BaseNext, AclRules.Build, AclMeaning.Follows, Readable, IsQuicRaw, SameVerdict;
    RunFollowsReloads(fs, es, outs, first, n);
    StepOfRun(fs, es, outs, n);
    VerdictFollowsConfig(fs[n].base, es[n], ConfigAt(es, n, first));
  }

  // ----- The cache -----

  /** A packet evicts nothing from a cache of fewer than 20000 decisions, and a cleanup leaves 8000 of more than 10000. */
  lemma {:induction false} CacheKeeps(f: Filter, e: Event, f': Filter, out: Option<Outcome>)
    requires Step(f, e, f', out)
    ensures e.Incoming? && |f.cache| < 20_000 ==> f.cache.Keys <= f'.cache.Keys
    ensures e.CleanCache? ==>
              if |f.cache| <= 10_000 then f'.cache == f.cache else f'.cache.Keys <= f.cache.Keys && |f'.cache| == 8_000
  {
    hide Scan, Replay, BaseNext;
    if e.Incoming? && Classify(f.base, e).Some? {
      var (p, t) := Classify(f.base, e).value;
      var s := Scan(f.base.rules, f.base.shared, p, t, f.base.clock);
      if AclCache.KeyOf(p, t) !in f.cache && s.cached.Some? && |f.cache| < 20_000 {
        InsertionBoundsSize(f.cache, AclCache.KeyOf(p, t), s.cached.value, CACHE_MAX_SIZE, f'.cache);
      }
    }
  }

  // ----- Connections -----

  /** Both endpoints of a packet; a packet without ports has port 0. */
  function EndpointsOf(raw: RawPacket): ConnKey
    requires Readable(raw)
  {
    var (src, dst) := if HasPorts(raw) then raw.ports.value else (0, 0);
    ConnKey(AddressOf(raw.version, raw.src), src, AddressOf(raw.version, raw.dst), dst)
  }

  /** The connection after one more packet; times are in seconds. */
  function Touched(conns: map<ConnKey, ConnEntry>, k: ConnKey, protocol: Protocol, size: nat, clock: nat): ConnEntry {
    if k in conns
    then conns[k].(lastSeen := clock / 1_000_000, packets := conns[k].packets + 1, bytes := conns[k].bytes + size,
                   state := Established)
    else ConnEntry(k, protocol, New, clock / 1_000_000, clock / 1_000_000, 1, size)
  }

  /** A packet that a stateful rule allows touches the connection of its endpoints; no other packet changes any. */
  lemma {:induction false} TracksExactly(b: Base, e: Event)
    requires e.Incoming?
    ensures var (b', r) := BaseNext(b, e);
            if IsSeen(b, e) && r.Some? && r.value.matchedRule.Stateful? then
              var k := EndpointsOf(e.raw);
              && k in b'.shared.conns
              && b'.shared.conns == b.shared.conns[k := b'.shared.conns[k]]
              && IsProtocol(e.raw.nextHeader, AclProtocol(e.raw.nextHeader)) && AclProtocol(e.raw.nextHeader) != Any
              && b'.shared.conns[k] == Touched(b.shared.conns, k, AclProtocol(e.raw.nextHeader), e.raw.size, b.clock)
            else b'.shared.conns == b.shared.conns
  {
    SeenExactly(b, e);
    hide Deciding, Bump;
  }

  /** Exactly the connections not seen for more than a minute expire. */
  lemma {:induction false} ExpiresExactly(b: Base)
    ensures var b' := BaseNext(b, ExpireConns).0;
            && (forall k :: k in b'.shared.conns <==>
                  k in b.shared.conns && b.clock / 1_000_000 - b.shared.conns[k].lastSeen <= 60)
            && (forall k :: k in b'.shared.conns ==> b'.shared.conns[k] == b.shared.conns[k])
            && b' == b.(shared := b.shared.(conns := b'.shared.conns))
  {}

  lemma {:induction false} ConnStays(b: Base, e: Event, k: ConnKey)
    requires k in b.shared.conns
    requires e.ExpireConns? ==> b.clock / 1_000_000 - b.shared.conns[k].lastSeen <= 60
    ensures k in BaseNext(b, e).0.shared.conns
  {
    if e.Incoming? {
      TracksExactly(b, e);
    } else if e.ExpireConns? {
      ExpiresExactly(b);
    }
  }

  /** Over any run, reloads included, a connection stays unless an expiry finds it not seen for more than a minute. */
  lemma {:induction false} ConnSurvives(fs: seq<Filter>, es: seq<Event>, outs: seq<Option<Outcome>>, k: ConnKey, n: nat)
    requires IsRun(fs, es, outs) && Ok(fs[0]) && n <= |es| && k in fs[0].base.shared.conns
    requires forall i :: 0 <= i < n && es[i].ExpireConns? && k in fs[i].base.shared.conns ==>
               fs[i].base.clock / 1_000_000 - fs[i].base.shared.conns[k].lastSeen <= 60
    ensures k in fs[n].base.shared.conns
  {
    hide Step, Ok, BaseNext, Agrees;
    if n > 0 {
      ConnSurvives(fs, es, outs, k, n - 1);
      StepOfRun(fs, es, outs, n - 1);
      ConnStays(fs[n - 1].base, es[n - 1], k);
    }
  }

  // ----- Configured rate limits -----

  /** The rule that decides about a limited packet. */
  function LimitingRule(b: Base, e: Event, key: RateLimitKey): Rule
    requires LimitedBy(b, e, key)
  {
    var (p, t) := Classify(b, e).value;
    Deciding(b.rules, t, p).value.rule
  }

  /** A step keeps the limits of a bucket; the first packet limited under a key makes the bucket, with the limits of its
      rule, full but for the token it takes. */
  lemma {:induction false} BucketStep(b: Base, e: Event, key: RateLimitKey)
    ensures var b' := BaseNext(b, e).0;
            if key in b.shared.buckets
            then && key in b'.shared.buckets
                 && b'.shared.buckets[key].capacity == b.shared.buckets[key].capacity
                 && b'.shared.buckets[key].rate == b.shared.buckets[key].rate
            else && (key in b'.shared.buckets <==> LimitedBy(b, e, key))
                 && (LimitedBy(b, e, key) ==>
                       var (bucket, rule) := (b'.shared.buckets[key], LimitingRule(b, e, key));
                       && bucket.capacity == rule.burstLimit && bucket.rate == rule.rateLimit
                       && bucket.available == (if rule.burstLimit > 0 then rule.burstLimit - 1 else 0)
                       && bucket.lastRefill == b.clock)
  {
    hide Deciding, Bump, TrackConn, AclRules.Build;
  }

  /** A refill adds the whole tokens earned since the last one, up to the capacity, and changes nothing else. */
  lemma {:induction false} RefillsExactly(b: Base, key: RateLimitKey)
    requires key in b.shared.buckets && BucketOk(b, key) && b.shared.buckets[key].capacity <= TB.U64_MAX
    ensures var (b', was) := (BaseNext(b, RefillBucket(key)).0, b.shared.buckets[key]);
            var n := was.available + TB.Whole(was.rate, b.clock - was.lastRefill);
            b' == b.(shared := b.shared.(buckets := b.shared.buckets[key :=
                    TB.Bucket(was.capacity, was.rate, if n < was.capacity then n else was.capacity, b.clock)]))
  {
    TB.RefillAdds(b.shared.buckets[key], b.clock);
  }

  /** Over any run, reloads included, a bucket keeps its limits. */
  lemma {:induction false} LimitsStay(fs: seq<Filter>, es: seq<Event>, outs: seq<Option<Outcome>>, key: RateLimitKey,
                                      m: nat, n: nat)
    requires IsRun(fs, es, outs) && Ok(fs[0]) && m <= n <= |es| && key in fs[m].base.shared.buckets
    ensures key in fs[n].base.shared.buckets
    ensures var (b, b') := (fs[m].base.shared.buckets[key], fs[n].base.shared.buckets[key]);
            b'.capacity == b.capacity && b'.rate == b.rate
  {
    hide Step, Ok, BaseNext, Agrees, LimitedBy, LimitingRule;
    if m < n {
      LimitsStay(fs, es, outs, key, m, n - 1);
      StepOfRun(fs, es, outs, n - 1);
      BucketStep(fs[n - 1].base, es[n - 1], key);
    }
  }

  /** Step `i` is the first of the run to be limited under the key. */
  ghost predicate IsFirstLimited(fs: seq<Filter>, es: seq<Event>, key: RateLimitKey, i: int) {
    && 0 <= i < |es| < |fs| && LimitedBy(fs[i].base, es[i], key)
    && forall l :: 0 <= l < i ==> !LimitedBy(fs[l].base, es[l], key)
  }

  /** The bucket under a key has the limits of the rule that decided the first packet limited under it. */
  lemma {:induction false} FirstRuleSetsLimits(fs: seq<Filter>, es: seq<Event>, outs: seq<Option<Outcome>>,
                                               key: RateLimitKey, n: nat)
    requires IsRun(fs, es, outs) && Ok(fs[0]) && n <= |es| && key !in fs[0].base.shared.buckets
    ensures if key !in fs[n].base.shared.buckets then forall i :: 0 <= i < n ==> !LimitedBy(fs[i].base, es[i], key)
            else exists i :: i < n && IsFirstLimited(fs, es, key, i)
                             && var (bucket, rule) := (fs[n].base.shared.buckets[key], LimitingRule(fs[i].base, es[i], key));
                                bucket.capacity == rule.burstLimit && bucket.rate == rule.rateLimit
  {
    hide Step, Ok, BaseNext, Agrees, LimitedBy, LimitingRule;
    if n > 0 {
      FirstRuleSetsLimits(fs, es, outs, key, n - 1);
      StepOfRun(fs, es, outs, n - 1);
      BucketStep(fs[n - 1].base, es[n - 1], key);
      if key !in fs[n - 1].base.shared.buckets && LimitedBy(fs[n - 1].base, es[n - 1], key) {
        assert IsFirstLimited(fs, es, key, n - 1);
      }
    }
  }

  /** All enabled rules of the key's chain type and priority that have a limit have the given ones. */
  ghost predicate HasLimits(chains: seq<Chain>, key: RateLimitKey, rate: nat, burst: nat) {
    forall i, j :: && 0 <= i < |chains| && chains[i].enabled && chains[i].chainType == key.chainType
                   && 0 <= j < |chains[i].rules| && chains[i].rules[j].enabled
                   && chains[i].rules[j].priority == key.priority && chains[i].rules[j].rateLimit > 0 ==>
      chains[i].rules[j].rateLimit == rate && chains[i].rules[j].burstLimit == burst
  }

  lemma {:induction false} LimitIsConfigured(b: Base, e: Event, key: RateLimitKey, chains: seq<Chain>, rate: nat, burst: nat)
    requires LimitedBy(b, e, key) && b.rules == Build(chains) && HasLimits(chains, key, rate, burst)
    ensures LimitingRule(b, e, key).rateLimit == rate && LimitingRule(b, e, key).burstLimit == burst
  {
    var (p, t) := Classify(b, e).value;
    DecidingRuleIsTop(chains, t, p);
    hide Deciding, AclRules.Build, RuleMatches;
    var f := Deciding(b.rules, t, p).value;
    var i, j :| IsTopRule(chains, t, p, |chains|, i, j) && IsAt(f, chains[i].rules, i, j);
    assert f.rule == chains[i].rules[j];
  }

  /** Over any run from a state without the key, in which every configuration gives the rules of a chain type and priority
      the same limits, the packets admitted under the key are at most the burst plus the rate times the time. */
  lemma {:induction false} ConfiguredRate(fs: seq<Filter>, es: seq<Event>, outs: seq<Option<Outcome>>, key: RateLimitKey,
                                          first: seq<Chain>, rate: nat, burst: nat)
    requires IsRun(fs, es, outs) && Ok(fs[0]) && key !in fs[0].base.shared.buckets
    requires fs[0].base.rules == Build(first)
    requires forall n :: 0 <= n <= |es| ==> HasLimits(ConfigAt(es, n, first), key, rate, burst)
    ensures 1_000_000 * Admitted(fs, es, outs, key, |es|)
            <= 1_000_000 * burst + rate * Elapsed(es, |es|)
  {
    hide Step, Ok, BaseNext, Agrees, LimitedBy, LimitingRule, HasLimits, AclRules.Build, ConfigAt;
    var n := |es|;
    TimePasses(fs, es, outs, n);
    RateIsBounded(fs, es, outs, key);
    FirstRuleSetsLimits(fs, es, outs, key, n);
    if key in fs[n].base.shared.buckets {
      var i :| i < n && IsFirstLimited(fs, es, key, i)
               && var (bucket, rule) := (fs[n].base.shared.buckets[key], LimitingRule(fs[i].base, es[i], key));
                  bucket.capacity == rule.burstLimit && bucket.rate == rule.rateLimit;
      RunFollowsReloads(fs, es, outs, first, i);
      LimitIsConfigured(fs[i].base, es[i], key, ConfigAt(es, i, first), rate, burst);
    } else {
      TB.Earnings(rate, fs[0].base.clock, fs[0].base.clock, fs[n].base.clock);
    }
  }

  function Elapsed(es: seq<Event>, n: nat): nat
    requires n <= |es|
  {
    if n == 0 then 0 else Elapsed(es, n - 1) + if es[n - 1].Tick? then es[n - 1].micros else 0
  }

  /** The clock of a run tells the time that its ticks take. */
  lemma {:induction false} TimePasses(fs: seq<Filter>, es: seq<Event>, outs: seq<Option<Outcome>>, n: nat)
    requires IsRun(fs, es, outs) && Ok(fs[0]) && n <= |es|
    ensures fs[n].base.clock == fs[0].base.clock + Elapsed(es, n)
  {
    hide Step, Ok, Agrees;
    if n > 0 {
      TimePasses(fs, es, outs, n - 1);
      StepOfRun(fs, es, outs, n - 1);
    }
  }
}
