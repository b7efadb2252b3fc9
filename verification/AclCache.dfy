/** The decision cache: its keys, its entries and its least-recently-used cleanup. */
module AclCache {
  import opened Wrappers
  import opened Sorting
  import opened AclRules

  datatype RateLimitKey = RateLimitKey(chainType: ChainType, priority: nat)

  datatype RuleId = Priority(priority: nat) | Stateful(priority: nat) | Default

  datatype LogContext =
    | StatefulMatch(srcIp: IpAddr, dstIp: IpAddr)
    | RuleMatch(srcIp: IpAddr, dstIp: IpAddr, action: Action)
    | DefaultDrop
    | DefaultAllow
    | UnsupportedChainType
    | RateLimitDrop

  datatype AclResult = AclResult(action: Action, matchedRule: RuleId, context: LogContext)

  /** What identifies a tracked connection: both endpoints, without the protocol. */
  datatype ConnKey = ConnKey(srcIp: IpAddr, srcPort: nat, dstIp: IpAddr, dstPort: nat)

  datatype CacheKey = CacheKey(
    chainType: ChainType, protocol: Protocol, srcIp: IpAddr, dstIp: IpAddr,
    srcPort: nat, dstPort: nat, srcGroups: seq<string>, dstGroups: seq<string>)

  datatype CacheEntry = CacheEntry(
    matchedRule: RuleId, lastAccess: nat, connTrackKey: Option<ConnKey>,
    rateLimitKeys: seq<RateLimitKey>, result: Option<AclResult>, ruleStats: seq<StatId>)

  type Cache = map<CacheKey, CacheEntry>

  function OrZero(port: Option<nat>): nat {
    if port.Some? then port.value else 0
  }

  function KeyOf(p: PacketInfo, t: ChainType): CacheKey {
    CacheKey(t, p.protocol, p.srcIp, p.dstIp, OrZero(p.srcPort), OrZero(p.dstPort), p.srcGroups, p.dstGroups)
  }

  /** Packets with one key are indistinguishable to every rule exactly if they agree on which ports
      they have: the key cannot tell an absent port from port 0, but rules can. */
  lemma {:induction false} KeyDecidesIffPortsAgree(p: PacketInfo, q: PacketInfo, t: ChainType)
    requires KeyOf(p, t) == KeyOf(q, t)
    ensures (forall r :: RuleMatches(r, p) == RuleMatches(r, q))
            <==> (p.srcPort.Some? == q.srcPort.Some? && p.dstPort.Some? == q.dstPort.Some?)
  {
    var probe := Rule(0, true, Any, [], [], [PortRange(1, 1)], [], {}, {}, Allow, false, 0, 0);
    var probe' := probe.(sourcePorts := [], destinationPorts := [PortRange(1, 1)]);
    if p.srcPort.Some? != q.srcPort.Some? {
      assert RuleMatches(probe, p) != RuleMatches(probe, q);
    } else if p.dstPort.Some? != q.dstPort.Some? {
      assert RuleMatches(probe', p) != RuleMatches(probe', q);
    }
  }

  // ----- Cleanup -----

  /** A cleanup that leaves exactly four fifths of the maximum and evicts no entry accessed
      more recently than one it keeps; below the maximum it does nothing. */
  ghost predicate IsCleanup(cache: Cache, maxSize: nat, cleaned: Cache) {
    if |cache| <= maxSize then cleaned == cache
    else
      && |cleaned| == maxSize - maxSize / 5
      && (forall k :: k in cleaned ==> k in cache && cleaned[k] == cache[k])
      && (forall k, l :: k in cache && k !in cleaned && l in cleaned ==> cache[k].lastAccess <= cache[l].lastAccess)
  }

  /** Inserting may trigger a cleanup once the cache holds more than twice the maximum. */
  ghost predicate IsInsertion(cache: Cache, key: CacheKey, entry: CacheEntry, maxSize: nat, cache': Cache) {
    var grown := cache[key := entry];
    if |grown| > maxSize * 2 then IsCleanup(grown, maxSize, cache') else cache' == grown
  }

  lemma {:induction false} InsertionBoundsSize(cache: Cache, key: CacheKey, entry: CacheEntry, maxSize: nat,
                                               cache': Cache)
    requires IsInsertion(cache, key, entry, maxSize, cache')
    ensures |cache'| <= maxSize * 2
    ensures |cache'| < |cache| ==> |cache'| == maxSize - maxSize / 5
    ensures |cache| < maxSize * 2 || (key in cache && |cache| <= maxSize * 2) ==>
              && cache'.Keys == cache.Keys + {key} && cache'[key] == entry
              && forall k :: k in cache && k != key ==> cache'[k] == cache[k]
  {
    var grown := cache[key := entry];
    assert grown.Keys == cache.Keys + {key};
  }

  function LastAccess(cache: Cache): CacheKey -> int {
    k => if k in cache then cache[k].lastAccess else 0
  }

  /** The keys of a cache, each once, in whatever order the map yields them. */
  method Enumerate(cache: Cache) returns (keys: seq<CacheKey>)
    ensures multiset(keys) == multiset(cache.Keys)
  {
    keys := [];
    var rest := cache.Keys;
    while rest != {}
      invariant rest <= cache.Keys
      invariant multiset(keys) == multiset(cache.Keys - rest)
      decreases |rest|
    {
      var k :| k in rest;
      keys := keys + [k];
      rest := rest - {k};
    }
  }

  lemma {:induction false} DropHead(keys: seq<CacheKey>, all: set<CacheKey>)
    requires keys != [] && multiset(keys) == multiset(all)
    ensures multiset(keys[1..]) == multiset(all - {keys[0]})
  {
    assert keys == [keys[0]] + keys[1..];
    assert multiset(keys[1..]) == multiset(all) - multiset{keys[0]};
  }

  method RemoveFirst(cache: Cache, keys: seq<CacheKey>, n: nat) returns (cleaned: Cache)
    requires n <= |keys| && multiset(keys) == multiset(cache.Keys)
    ensures multiset(keys[n..]) == multiset(cleaned.Keys) && |cleaned| == |keys| - n
    ensures forall k :: k in cleaned ==> k in cache && cleaned[k] == cache[k]
  {
    cleaned := cache;
    for i := 0 to n
      invariant multiset(keys[i..]) == multiset(cleaned.Keys)
      invariant forall k :: k in cleaned ==> k in cache && cleaned[k] == cache[k]
    {
      DropHead(keys[i..], cleaned.Keys);
      assert keys[i..][1..] == keys[i + 1..];
      cleaned := cleaned - {keys[i]};
    }
    assert |multiset(keys[n..])| == |multiset(cleaned.Keys)|;
  }

  method CleanupCache(cache: Cache, maxSize: nat) returns (cleaned: Cache)
    ensures IsCleanup(cache, maxSize, cleaned)
  {
    cleaned := cache;
    if |cache| > maxSize {
      var keys := Enumerate(cache);
      var sorted := SortBy(keys, LastAccess(cache));
      assert |multiset(sorted)| == |multiset(cache.Keys)|;
      var toRemove := |cache| - maxSize + maxSize / 5;
      cleaned := RemoveFirst(cache, sorted, toRemove);
      OldestAreGone(cache, sorted, toRemove, cleaned);
    }
  }

  /** What is left of a list in ascending order of access is no older than what was cut off. */
  lemma {:induction false} OldestAreGone(cache: Cache, sorted: seq<CacheKey>, n: nat, cleaned: Cache)
    requires n <= |sorted| && Sorted(sorted, LastAccess(cache))
    requires multiset(sorted) == multiset(cache.Keys) && multiset(sorted[n..]) == multiset(cleaned.Keys)
    requires cleaned.Keys <= cache.Keys
    ensures forall k, l :: k in cache && k !in cleaned && l in cleaned ==> cache[k].lastAccess <= cache[l].lastAccess
  {
    assert sorted == sorted[..n] + sorted[n..];
    forall k, l | k in cache && k !in cleaned && l in cleaned
      ensures cache[k].lastAccess <= cache[l].lastAccess
    {
      assert k in multiset(sorted) && k !in multiset(sorted[n..]) && l in multiset(sorted[n..]);
      var i :| 0 <= i < n && sorted[i] == k;
      var j :| 0 <= j < |sorted[n..]| && sorted[n..][j] == l;
      assert LastAccess(cache)(sorted[i]) <= LastAccess(cache)(sorted[n + j]);
    }
  }
}
