/** The processor object: the maps it updates in place and the loops it runs over its rules. */
module AclProcessor {
  import opened Wrappers
  import opened Sorting
  import opened AclRules
  import opened AclCache
  import opened AclProcessing
  import TB = TokenBucket

  class Processor {
    const rules: RuleSet
    const cacheMaxSize: nat
    var conns: map<ConnKey, ConnEntry>
    var buckets: map<RateLimitKey, TB.Bucket>
    var counters: map<StatId, StatItem>
    var cache: Cache

    function SharedState(): Shared
      reads this
    {
      Shared(conns, buckets, counters)
    }

    /** Rules, counters and cache start fresh; connections and buckets may be inherited. */
    constructor (chains: seq<Chain>, conns: map<ConnKey, ConnEntry>, buckets: map<RateLimitKey, TB.Bucket>,
                 cacheMaxSize: nat)
      ensures rules == Build(chains) && this.cacheMaxSize == cacheMaxSize
      ensures SharedState() == Shared(conns, buckets, map[]) && cache == map[]
      ensures CacheOk(rules, SharedState(), cache)
    {
      var inbound, outbound, forward := BuildRules(chains);
      rules := RuleSet(inbound, outbound, forward, DefaultAction(chains, Inbound),
                       DefaultAction(chains, Outbound), DefaultAction(chains, Forward));
      this.cacheMaxSize := cacheMaxSize;
      this.conns, this.buckets, counters, cache := conns, buckets, map[], map[];
    }

    /** `missing` reports the fatal case of a bucket that had to exist. */
    method CheckLimit(key: RateLimitKey, rate: nat, burst: nat, allowCreate: bool, now: nat)
      returns (admitted: bool, missing: bool)
      modifies this`buckets
      ensures match CheckRateLimit(old(buckets), key, rate, burst, allowCreate, now)
              case Pass(b) => admitted && !missing && buckets == b
              case Limited(b) => !admitted && !missing && buckets == b
              case NoBucket(b) => missing && buckets == b
    {
      if rate == 0 {
        return true, false;
      }
      if key !in buckets {
        if !allowCreate {
          return false, true;
        }
        buckets := buckets[key := TB.Bucket(burst, rate, burst, now)];
      }
      var (b, ok) := TB.TryConsume(buckets[key], 1);
      buckets := buckets[key := b];
      return ok, false;
    }

    method CountAll(ids: seq<StatId>, size: nat)
      modifies this`counters
      ensures counters == Bump(old(counters), ids, size)
    {
      for i := 0 to |ids|
        invariant Bump(old(counters), ids, size) == Bump(counters, ids[i..], size)
      {
        assert ids[i..][0] == ids[i] && ids[i..][1..] == ids[i + 1..];
        var c := CounterOf(counters, ids[i]);
        counters := counters[ids[i] := StatItem(c.packets + 1, c.bytes + size)];
      }
    }

    method CommitEntry(entry: CacheEntry, p: PacketInfo, now: nat)
      modifies this`conns, this`counters
      ensures SharedState() == Commit(old(SharedState()), entry, p, now)
    {
      if entry.connTrackKey.Some? {
        conns := TrackConn(conns, entry.connTrackKey.value, p, now);
      }
      CountAll(entry.ruleStats, p.size);
    }

    method CacheResult(key: CacheKey, entry: CacheEntry)
      modifies this`cache
      ensures IsInsertion(old(cache), key, entry, cacheMaxSize, cache)
    {
      cache := cache[key := entry];
      if |cache| > cacheMaxSize * 2 {
        cache := CleanupCache(cache, cacheMaxSize);
      }
    }

    method ReplayCached(entry: CacheEntry, p: PacketInfo, now: nat) returns (out: Outcome)
      modifies this`conns, this`buckets, this`counters
      ensures (SharedState(), out) == Replay(old(SharedState()), entry, p, now)
    {
      var keys := entry.rateLimitKeys;
      for i := 0 to |keys|
        invariant conns == old(conns) && counters == old(counters)
        invariant CheckAll(old(buckets), keys, now) == CheckAll(buckets, keys[i..], now)
      {
        assert keys[i..][0] == keys[i] && keys[i..][1..] == keys[i + 1..];
        var admitted, missing := CheckLimit(keys[i], 1, 1, false, now);
        if missing {
          return Panicked;
        }
        if !admitted {
          return Verdict(RateLimited(entry.matchedRule));
        }
      }
      CommitEntry(entry, p, now);
      return if entry.result.Some? then Verdict(entry.result.value) else Panicked;
    }

    /** The rule loop: the first enabled rule that matches. */
    method FindRule(t: ChainType, p: PacketInfo) returns (f: Option<FastLookupRule>)
      ensures f == Deciding(rules, t, p)
    {
      var list := RulesFor(rules, t);
      for i := 0 to |list|
        invariant FirstMatch(list, Matcher(p)) == FirstMatch(list[i..], Matcher(p))
      {
        assert list[i..][0] == list[i] && list[i..][1..] == list[i + 1..];
        if !list[i].rule.enabled || !RuleMatches(list[i].rule, p) {
          continue;
        }
        return Some(list[i]);
      }
      return None;
    }

    method ProcessPacket(p: PacketInfo, t: ChainType, now: nat) returns (out: Outcome)
      modifies this
      ensures Processes(rules, cacheMaxSize, old(SharedState()), old(cache), p, t, now, SharedState(), cache, out)
    {
      hide Commit, Replay, Deciding, IsInsertion;
      var key := KeyOf(p, t);
      if key in cache {
        var entry := cache[key].(lastAccess := Secs(now));
        cache := cache[key := entry];
        out := ReplayCached(entry, p, now);
        return;
      }
      if t == UnspecifiedChain {
        return Verdict(UNSUPPORTED);
      }
      var f := FindRule(t, p);
      var entry;
      if f.Some? {
        var rule := f.value.rule;
        var admitted, missing := CheckLimit(RateLimitKey(t, rule.priority), rule.rateLimit, rule.burstLimit, true, now);
        if !admitted {
          return Verdict(RateLimited(Priority(rule.priority)));
        }
        entry := MatchedEntry(f.value, t, p, Secs(now));
      } else {
        entry := DefaultEntry(DefaultFor(rules, t), Secs(now));
      }
      CommitEntry(entry, p, now);
      CacheResult(key, entry);
      return Verdict(entry.result.value);
    }
  }
}
