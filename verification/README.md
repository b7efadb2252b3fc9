# PeerLink, modelled and proved in Dafny

PeerLink is a mesh VPN. This project models the parts of it whose correctness is hardest to see from
the code, and proves what they promise:

- **Routing** (`PeerGraph`, `Dijkstra`, `Forwarding`, `LeastHop`): shortest paths with a lazily cleaned
  heap, the first hop and hop count published with them, hop-by-hop forwarding by independently computed
  tables, and the two-pass least-hop policy.
- **Rate limiting** (`TokenBucket`): a sequential bucket, the interleaved load and compare-exchange
  steps of its users and its refill task, and the rate they guarantee.
- **Access control** (`AclRules`, `AclCache`, `AclProcessing`, `AclFilter`, `AclProcessor`,
  `PacketFilter`, `AclMeaning`, `AclRuns`): which rule decides, the decision cache in front of the rule
  scan, whole runs of packets, refills, expiry, cleanups and hot reloads, and what rules, limits and
  reloads mean for raw packets.
- **IPv4 fragments** (`Ipv4`, `Composer`, `Reassembler`, `ReassemblerRuns`, `IpReassembler`,
  `RoundTrip`): fragmenting in place, reassembling by counting lengths (section 3.2 of RFC 791), and
  the round trip between the two.
- **TCP proxy** (`CidrSet`, `TcpNat`, `TcpFlows`, `TcpHistory`): translation of mapped networks, the
  connection tables under every interleaving, packet rewriting in both directions over whole runs, and
  which entry answers for a client.

`Sorting` holds the stable sort the others use, `Wrappers` the optional results, and `Bits` the
bit-wise operations on numbers. `dafny verify dfyconfig.toml` checks everything.

Objects that the source updates in place are classes here (`AclProcessor.Processor`,
`PacketFilter.PacketFilter`, `IpReassembler.IpReassembler`, `CidrSet.Config`, `CidrSet.CidrSet`), and its
loops are methods with invariants. Each is proved against a function or step relation on values, and the
results over whole runs are lemmas about those. The token bucket and the TCP proxy are protocols between
concurrent tasks; they are state machines whose steps are the atomic accesses of the source, and a run is
any sequence of steps.

Where the code and its comments disagree, the model follows the code:

- The cache cleanup is announced as removing the oldest fifth; it removes what exceeds the maximum plus a
  fifth of the maximum (app/src/common/acl_processor.rs:403-404).
- A chain that is disabled still sets the default action of its type
  (app/src/common/acl_processor.rs:274-313 against 330-332).
- A bucket forgets fractions of tokens, so one that refills more often than it earns a token stays empty
  (app/src/common/token_bucket.rs:95-104; `FractionsAreLost`).

Some promises hold only under a condition, which is proved to be exact:

- For a SYN and any run after it: at every moment, and with any steps between its two lookups, a reply to a client
  that the proxy has listed gets back the dialled address and the client's own, if and only if the client's
  address is not the stand-in for the proxy's own, any accepted connection of the source was made by dialling the
  same destination, and no step of the run leads replies elsewhere (`SynRoundTrip`). Three kinds of steps do: the
  accept loop indexes an entry made by dialling elsewhere, a connection leaves the index and uncovers such a
  pending entry, and a SYN dials elsewhere although the source was not indexed all along. A client that uses one port
  for two destinations makes such a run: the newer connection then answers for the older one
  (`NewerAcceptWins`).
- In all runs without a SYN of the source to another destination, replies are restored if and only if the client's
  address is not the stand-in and no older flow of the source leads elsewhere: no accepted connection, and
  none that the accept loop is busy with (`UndisturbedRoundTrip`, `OlderAcceptWins`).
- A served flow stays answered, also while newer SYNs of its source are pending, until its connection leaves the
  index or an entry made by dialling elsewhere is indexed, and no longer (`ServedRoundTrip`).
- A flow without older or newer ones of its source is answered if and only if it is served or pending. It is neither
  from its removal from the pending entries until its entry into the index
  (app/src/gateway/tcp_proxy.rs:671-675), and when it is expired or closed (`LoneFlow`, `HandoverGap`).
- The payloads of the packets made of a payload are that payload if and only if the longest packet fits into the
  length field; otherwise the receiver discards the first packet and never delivers the payload
  (`FragmentationIsFaithful`, `TruncatedIsNeverDelivered`).
- In a list without duplicates, the real address of a proxied address lies in the first network that shows it if
  and only if no later network maps the same block; the last mapping wins (`LookupTranslates`,
  `LaterMappingWins`).
- A lookup during a rebuild of the table gives the final answer if and only if no network takes the address, or the
  first one that does is already listed and the mappings made so far give its real block
  (`LookupDuringRebuild`; `LookupAfterClearing` for the moment when old blocks are listed without mappings).
- Packets with one cache key are indistinguishable to all rules if and only if they agree on which ports
  they have (`KeyDecidesIffPortsAgree`); extracted packets always do, so the cache is transparent.

## Model

| member | source | states |
|---|---|---|
| `Dijkstra.DijkstraWithFirstHop` | app/src/peers/graph_algo.rs:65-125 | For every finite graph with non-negative costs and every choice among equal scores the loop ends; the scored nodes are exactly the reachable ones; each score is the minimum over all paths; each first-hop entry gives the first node and the number of edges of one such minimum path; the look-up of the predecessor's entry never misses. |
| `Dijkstra.ScanEdges` | app/src/peers/graph_algo.rs:89-120 | Scanning the edges of a closest unsettled node relaxes all of them, keeps a recorded path behind every score and entry, and never touches a settled node. |
| `Dijkstra.PopIsFresh` | app/src/peers/graph_algo.rs:85-88 | In spite of stale heap elements, one popped for an unsettled node carries its current score, and no unsettled node is closer. |
| `Dijkstra.TopExists` | app/src/peers/graph_algo.rs:40-61 | Under the reversed order a non-empty heap has an element to pop. |
| `Dijkstra.ScoresAreLeast` | app/src/peers/graph_algo.rs:85-122 | Once every scored node is relaxed, every path from the start ends in a scored node and costs at least its score. |
| `Forwarding.HopAdvances` | app/src/peers/graph_algo.rs:95-118 | The independently computed tables of a node and of its first hop agree: their distances differ by the cost of an edge between them. |
| `Forwarding.ForwardingDelivers` | app/src/peers/graph_algo.rs:100-117 | If every node routes by its own table over the same graph with positive costs, a packet reaches every reachable destination, visits no node twice, and its trace is itself a shortest path. |
| `LeastHop.SubgraphPaths` | app/src/peers/peer_ospf_route.rs:872-893 | The paths of the second pass's subgraph are exactly the hop-minimal paths of the graph. |
| `LeastHop.NormalizedCost` | app/src/peers/peer_ospf_route.rs:862-868 | The first pass weighs a path by its number of links, plus 2^31 - 1 for each link of a peer that avoids relaying. |
| `LeastHop.AvoidedLinksLose` | app/src/peers/peer_ospf_route.rs:862-897 | If a path without avoided links of fewer than 2^31 links exists, least-hop paths take no avoided link, are no longer than it, and no more expensive at equal length. |
| `LeastHop.LeastHopRoutes` | app/src/peers/peer_ospf_route.rs:856-897 | The two passes together find, for exactly the reachable nodes, a path that is least in (normalised) hops and cheapest among those, described by the published hop and count. |
| `LeastHop.HopsFollowHopCount` | app/src/peers/peer_ospf_route.rs:856-897 | The published hops are also correct shortest-path hops of the hop-counting graph. |
| `LeastHop.LeastHopAdvances` | app/src/peers/peer_ospf_route.rs:856-897 | The independently computed tables of a node and of its first hop agree: hop counts and costs both differ by those of an edge between them. |
| `LeastHop.LeastHopForwardingDelivers` | app/src/peers/peer_ospf_route.rs:856-897 | If every node routes by its own least-hop table, a packet reaches every reachable destination, visits no node twice whatever the link costs are, zero included, and its trace is itself least in hops and cheapest among those. |
| `TokenBucket.RefillAdds` | app/src/common/token_bucket.rs:93-122 | A refill adds exactly the largest number of tokens that the rate earns in the time since the last one, up to the capacity, and takes note of the time. |
| `TokenBucket.ConsumeTakes` | app/src/common/token_bucket.rs:133-156 | A consumption is granted exactly if the tokens are there, and takes just them. |
| `TokenBucket.RefillKeepsDebt` | app/src/common/token_bucket.rs:93-122 | A refill adds no more than the elapsed time pays for and stays within the capacity. |
| `TokenBucket.DueIffEarned` | app/src/common/token_bucket.rs:97-104 | A refill has tokens to add exactly if rate times elapsed time reaches a whole token. |
| `TokenBucket.FractionsAreLost` | app/src/common/token_bucket.rs:95-104 | Refills that each come before a whole token is earned never add one, however many there are, although one refill after the same time would. |
| `TokenBucket.StepRefines` | app/src/common/token_bucket.rs:93-156 | Under any interleaving, with spurious failures, every step is invisible, one refill of the sequential bucket, or one successful consumption from it. |
| `TokenBucket.CallsAreAtomic` | app/src/common/token_bucket.rs:133-156 | Every call returns what the sequential bucket answers at the moment of the call's last step, success or refusal. |
| `TokenBucket.CallTakes` | app/src/common/token_bucket.rs:133-156 | A call that returns was granted exactly if the tokens it asked for were there at its last step, and took just them. |
| `TokenBucket.CallKeepsTokens` | app/src/common/token_bucket.rs:133-156 | A call keeps the number of tokens it asked for. |
| `TokenBucket.RefillUndisturbed` | app/src/common/token_bucket.rs:93-122 | The four accesses of the refill task in a row refill the bucket at the current time. |
| `TokenBucket.CallUndisturbed` | app/src/common/token_bucket.rs:133-156 | The accesses of a call in a row consume from the bucket. |
| `TokenBucket.TokensBalance` | app/src/common/token_bucket.rs:93-156 | Over any interleaving, tokens granted, left and lost to the capacity are exactly those at its start and the worth of its completed refills. |
| `TokenBucket.TokensFromCreation` | app/src/common/token_bucket.rs:59-156 | From creation on, they are the capacity and the worth of all completed refills. |
| `TokenBucket.RateIsMet` | app/src/common/token_bucket.rs:93-122 | The refills of any interleaving are worth the rate times the time they cover, less at most one token each. |
| `TokenBucket.TimePasses` | app/src/common/token_bucket.rs:124-127 | The clock tells the time that the ticks of a run take. |
| `TokenBucket.WindowBound` | app/src/common/token_bucket.rs:93-156 | Over any window of any interleaving, tokens granted plus tokens left are at most the tokens at its start plus rate times the time since the last refill before it. |
| `TokenBucket.RateBound` | app/src/common/token_bucket.rs:59-156 | From creation on, available tokens stay within the capacity, and granted plus available tokens never exceed capacity plus rate times elapsed time. |
| `AclRules.BuildRules` | app/src/common/acl_processor.rs:316-361 | The loop builds the three lookup lists: enabled chains in order, enabled rules of each stably sorted by falling priority. |
| `Sorting.SortBy` | app/src/common/acl_processor.rs:341-342 | Sorting keeps every element as often as it occurred and orders by key. |
| `Sorting.FirstMatchOfSorted` | app/src/common/acl_processor.rs:513-517 | Scanning the sorted list finds the match of least key that came first in the unsorted list, or nothing if nothing matches. |
| `AclRules.DecidingRuleIsTop` | app/src/common/acl_processor.rs:513-572 | The deciding rule outranks every enabled matching rule: chains in order, then priority, then position; there is none exactly if none applies. |
| `AclRules.SingleChainDecision` | app/src/common/acl_processor.rs:341-342 | With one enabled chain of the type, the decision is a matching enabled rule of maximum priority. |
| `AclRules.DefaultIsFirstChain` | app/src/common/acl_processor.rs:274-313 | The default action is that of the first chain of the type, enabled or not, and Allow without one. |
| `AclCache.KeyDecidesIffPortsAgree` | app/src/common/acl_processor.rs:87-100 | Two packets with one cache key match the same rules, for all rules, exactly if they agree on which ports are present. |
| `AclCache.CleanupCache` | app/src/common/acl_processor.rs:388-414 | Above the maximum, exactly maximum minus a fifth of it entries remain, unchanged, and no evicted entry was accessed later than a kept one; otherwise nothing changes. |
| `AclCache.InsertionBoundsSize` | app/src/common/acl_processor.rs:621-630 | After any insertion the cache holds at most twice the maximum; if it shrank, it holds exactly what a cleanup leaves. |
| `AclProcessing.BumpCounts` | app/src/common/acl_processor.rs:442-451 | Every counter grows by one packet and its size for each time it is listed, and no other changes. |
| `AclProcessing.ScanCounts` | app/src/common/acl_processor.rs:519-571 | A decided packet is counted once under its rule or the default, twice under a rule with a rate limit, and not at all when dropped for its rate. |
| `AclProcessing.TrackingCounts` | app/src/common/acl_processor.rs:731-763 | A tracked connection remembers its first packet, counts all packets and bytes, knows when it was last seen, and is established from its second packet on; no other connection changes. |
| `AclProcessing.ScanObeysConfig` | app/src/common/acl_processor.rs:513-608 | The verdict follows the configuration: the top applicable rule's action, or a rate-limit drop exactly if its bucket is exhausted, or the default when no rule applies. |
| `AclProcessing.ReplayAgrees` | app/src/common/acl_processor.rs:416-440 | Replaying an entry gives the verdict, buckets, connections and counters of the scan, and neither panics nor unwraps nothing. |
| `AclProcessing.ProcessAgrees` | app/src/common/acl_processor.rs:468-609 | A call of the cached processor, hit or miss, equals the scan, and keeps every entry the scan's decision for its key with live buckets. |
| `AclFilter.ExtractedIsWellFormed` | app/src/peers/acl_filter.rs:93-183 | In every extracted packet the protocol decides which ports are present. |
| `AclFilter.StepAgrees` | app/src/peers/acl_filter.rs:283-352 | One step of the filter with its cache is one step of the filter without, for packets, refills, expiry, cleanup and reloads. |
| `AclFilter.CacheIsTransparent` | app/src/common/acl_processor.rs:468-609 | Over any run, reloads included: the same verdicts, and the same rules, buckets, connections and counters as a filter that always scans; no panic; at most twice the maximum cached. |
| `AclMeaning.SeenExactly` | app/src/peers/acl_filter.rs:283-330 | The filter decides about exactly the readable packets that are not QUIC of this node, while it is on, and picks the chain by direction and destination; all by the fields of the raw packet. |
| `AclMeaning.MatchesExactly` | app/src/common/acl_processor.rs:633-718 | A rule matches exactly if each of its seven constraints is met by the field of the raw packet that it is about. |
| `AclMeaning.VerdictFollowsConfig` | app/src/peers/acl_filter.rs:283-352 | The verdict on a raw packet is that of the first rule whose constraints its fields meet, by chain, priority and position, with its rate limit; else the default. |
| `AclMeaning.DropsExactly` | app/src/common/acl_processor.rs:513-572 | A single dropping rule drops exactly the packets of its chain that meet all its constraints. |
| `AclMeaning.SingleConstraint` | app/src/common/acl_processor.rs:633-718 | Each kind of constraint alone, on protocol, addresses, ports or groups, decides by its own field of the raw packet. |
| `AclRuns.ReloadStep` | app/src/peers/acl_filter.rs:49-72 | A reload with a configuration puts its rules in force, keeps connections and buckets and clears counters; one without switches the filter off; no other step changes rules or switch. |
| `AclRuns.RunFollowsReloads` | app/src/peers/acl_filter.rs:49-72 | Over any run, the rules in force are those of the last reload that had some, the filter is on if the last reload had some, and the QUIC port is the last one set. |
| `AclRuns.VerdictsFollowReloads` | app/src/peers/acl_filter.rs:283-352 | Over any run with its cache, exactly the packets to be seen get a verdict, the one that the configuration of the last reload asks for. |
| `AclRuns.CacheKeeps` | app/src/common/acl_processor.rs:388-414 | A packet evicts nothing from fewer than 20000 cached decisions; a cleanup leaves all of at most 10000, and 8000 of more. |
| `AclRuns.TracksExactly` | app/src/common/acl_processor.rs:720-763 | A packet that a stateful rule allows touches the connection of its endpoints, in numbers; no other packet changes any. |
| `AclRuns.ExpiresExactly` | app/src/common/acl_processor.rs:886-910 | Exactly the connections not seen for more than 60 seconds expire. |
| `AclRuns.ConnSurvives` | app/src/common/acl_processor.rs:886-910 | Over any run, reloads included, a connection stays unless an expiry finds it unseen for more than 60 seconds. |
| `AclFilter.RateIsBounded` | app/src/common/acl_processor.rs:766-790 | Over any run of hits, misses, refills, cleanups and reloads, the packets admitted under one (chain, priority) key are at most its bucket's burst plus its rate times the elapsed time. |
| `AclFilter.RateInWindow` | app/src/common/acl_processor.rs:766-790 | Over any window of any run, the packets admitted under a key that has a bucket at its start are at most the tokens there plus the rate times the time since the refill before it. |
| `AclRuns.BucketStep` | app/src/common/acl_processor.rs:766-790 | The first packet limited under a key makes a bucket with the burst and rate of its rule, full but for one token; no step changes the limits of a bucket or removes it. |
| `AclRuns.FirstRuleSetsLimits` | app/src/common/acl_processor.rs:766-790 | Over any run, the bucket of a key has the limits of the rule that decided the first packet limited under it. |
| `AclRuns.LimitsStay` | app/src/common/acl_processor.rs:766-790 | Over any run, later rules and reloads do not change the limits of a bucket. |
| `AclRuns.ConfiguredRate` | app/src/common/acl_processor.rs:766-790 | Over any run whose configurations agree on the limits of a chain type and priority, the packets admitted under it are at most the configured burst plus the configured rate times the time. |
| `AclRuns.RefillsExactly` | app/src/common/token_bucket.rs:93-122 | A refill of a rule's bucket adds the whole tokens earned, up to the burst, and changes nothing else. |
| `AclRuns.TimePasses` | app/src/common/acl_processor.rs:766-790 | The clock of a run tells the time that its ticks take. |
| `AclProcessor.Processor.constructor` | app/src/common/acl_processor.rs:234-272 | A new processor has the rules of its configuration, inherited connections and buckets, and an empty, sound cache. |
| `AclProcessor.Processor.CheckLimit` | app/src/common/acl_processor.rs:766-790 | Takes one token, creates a missing bucket full, and reports one that had to exist. |
| `AclProcessor.Processor.FindRule` | app/src/common/acl_processor.rs:513-517 | The rule loop finds the deciding rule. |
| `AclProcessor.Processor.ReplayCached` | app/src/common/acl_processor.rs:416-440 | The cached path, with its loops over rate limits and counters, is the replay of the entry. |
| `AclProcessor.Processor.ProcessPacket` | app/src/common/acl_processor.rs:468-609 | The object's maps and the result change as the step relation of the cached processor says. |
| `PacketFilter.PacketFilter.ReloadRules` | app/src/peers/acl_filter.rs:49-72 | A reload keeps connections and buckets, starts counters and cache afresh, keeps the filter sound, and without a configuration only disables it. |
| `PacketFilter.PacketFilter.ProcessPacketWithAcl` | app/src/peers/acl_filter.rs:283-352 | A packet passes exactly if the filter without cache would skip it or not drop it; the filter stays sound. |
| `Ipv4.ParseOfHeader` | app/src/gateway/ip_reassembler.rs:216-241 | A written header followed by data reads back with its lengths, id, flag and offset, and the payload as far as the length field reaches. |
| `Ipv4.HeaderLayout` | app/src/gateway/ip_reassembler.rs:217-241 | Each of the twenty header bytes: version and length, total length, identification, flags, offset, time to live, protocol, checksum and addresses, most significant byte first. |
| `Composer.Compose` | app/src/gateway/ip_reassembler.rs:204-252 | The callback sees, in order, the packets of the original payload, all of them unless it refuses one; offsets are multiples of eight; nothing outside the buffer is touched. |
| `Composer.WritePiece` | app/src/gateway/ip_reassembler.rs:213-245 | Writing a header over sent bytes leaves the unsent payload intact and yields header plus the piece. |
| `Composer.PacketLayout` | app/src/gateway/ip_reassembler.rs:213-241 | Every byte of packet `i` in terms of the arguments: the header fields, and the payload from `i` times the mtu on. |
| `Composer.CountIsCeiling` | app/src/gateway/ip_reassembler.rs:208-208 | The number of pieces is the payload length over the mtu, rounded up. |
| `Composer.FragmentationIsFaithful` | app/src/gateway/ip_reassembler.rs:208-250 | The payloads read out of the sent packets concatenate to the original payload exactly if the longest packet fits into the length field; each offset is where its piece was cut; only the last clears MoreFragments; packets count as fragmented exactly if there is more than one. |
| `Reassembler.CompleteIffTiled` | app/src/gateway/ip_reassembler.rs:61-71 | For non-overlapping slices of a datagram of at most 65535 bytes, the 16-bit sum of lengths equals its length exactly if they tile it. |
| `Reassembler.TotalCountsPositions` | app/src/gateway/ip_reassembler.rs:61-71 | That sum counts the covered positions and never wraps. |
| `Reassembler.AssembleIsExact` | app/src/gateway/ip_reassembler.rs:77-93 | Assembly returns the datagram exactly if its length is known and the pieces tile it, else nothing; no copy goes out of range. |
| `Reassembler.AddKeepsSlices` | app/src/gateway/ip_reassembler.rs:44-59 | Kept pieces stay pairwise non-overlapping slices. |
| `ReassemblerRuns.ReassemblyIsSound` | app/src/gateway/ip_reassembler.rs:131-190 | If every packet carries a slice of the one datagram of its source, destination and identification, then in any order, with repeats, overlaps and sweeps, every answer is nothing or exactly that datagram. |
| `ReassemblerRuns.CountsExactly` | app/src/gateway/ip_reassembler.rs:137-147 | A packet counts exactly if the length in its header is that of header and payload. |
| `ReassemblerRuns.ArriveIsTwoAccesses` | app/src/gateway/ip_reassembler.rs:163-184 | An arrival is its assembly and, if that succeeds, a removal after the entry was released. |
| `ReassemblerRuns.ConcurrentReassemblyIsSound` | app/src/gateway/ip_reassembler.rs:131-190 | Soundness also holds when arrivals, removals and sweeps of others come between an assembly and its removal. |
| `ReassemblerRuns.AnsweredTwice` | app/src/gateway/ip_reassembler.rs:177-180 | A packet repeated between the assembly and the removal gets the datagram once more. |
| `IpReassembler.AddFragment` | app/src/gateway/ip_reassembler.rs:44-59 | The overlap loop keeps a fragment exactly if it overlaps none. |
| `IpReassembler.CheckComplete` | app/src/gateway/ip_reassembler.rs:61-71 | The summing loop decides completeness. |
| `IpReassembler.AssembleBuffer` | app/src/gateway/ip_reassembler.rs:77-93 | Sorting and copying into a buffer assembles the pieces, reporting a copy beyond its end. |
| `IpReassembler.IpReassembler.Arrived` | app/src/gateway/ip_reassembler.rs:131-185 | The table and the answer change as the step function of a run says. |
| `IpReassembler.IpReassembler.RemoveExpiredPackets` | app/src/gateway/ip_reassembler.rs:187-190 | A datagram stays in the table, unchanged, exactly if its last packet came no longer than the timeout ago; the loop over the table is the sweep of a run. |
| `RoundTrip.TiledIffAllSeen` | app/src/gateway/ip_reassembler.rs:61-71 | Pieces of a job tile its payload exactly if every piece number was seen. |
| `RoundTrip.ReassemblyInvertsFragmentation` | app/src/gateway/ip_reassembler.rs:131-252 | Composed pieces fed in any order, with repeats, sweeps and arbitrary packets of another source, destination or identification: each gets nothing until it completes the set of pieces, and then exactly the original payload; truncated pieces count for nothing. |
| `RoundTrip.TruncatedIsNeverDelivered` | app/src/gateway/ip_reassembler.rs:131-252 | If the longest packet does not fit into the length field, no piece ever completes the payload. |
| `CidrSet.Config.AddProxyCidr` | app/src/common/config.rs:651-687 | A mapping is refused exactly if the prefix lengths differ; duplicates are not added, so networks stay distinct; all stay well mapped. |
| `CidrSet.CidrSet.Update` | app/src/gateway/mod.rs:52-66 | The rebuild passes through the partial tables of the first networks and ends with the shown block of every network in order and its mappings. |
| `CidrSet.CidrSet.ContainsV4` | app/src/gateway/mod.rs:72-93 | The loop answers by the first containing block and overwrites the result only on a hit. |
| `CidrSet.ContainsIsRange` | app/src/gateway/mod.rs:76-76 | A block of prefix length n holds exactly the 2^(32-n) addresses from its first one on. |
| `CidrSet.ConvertIsShift` | app/src/gateway/mod.rs:77-85 | The masks and bit operations of the conversion keep the distance from the first address of the block, as numbers. |
| `CidrSet.ConvertIsBijective` | app/src/gateway/mod.rs:77-85 | Between blocks of equal prefix length, conversion lands in the target block, keeps the offset from the first address, and is undone with the roles swapped. |
| `CidrSet.OneNetwork` | app/src/gateway/mod.rs:57-93 | One configured network, in numbers: the addresses of its mapped block, or of its own if it has none, are proxied, each to the address at the same distance in its real block; no other is. |
| `CidrSet.MappingIsLast` | app/src/gateway/mod.rs:57-65 | The rebuilt table maps a block to the real block of the last network that shows it in place of another one, and to nothing if there is none. |
| `CidrSet.LookupKeepsPlace` | app/src/gateway/mod.rs:72-93 | At any moment of a rebuild, the first listed block that contains an address decides, and leads to the same place in the real block of the mappings made so far, from where the address converts back. |
| `CidrSet.LookupTranslates` | app/src/gateway/mod.rs:72-93 | An address is proxied exactly if it is in the range of a shown block; the first one decides; the answer is the same place, by numbers, in the block of the last network that maps it, and lies in the network found exactly if that is its block, that is, without duplicates, if no later network maps the block. |
| `CidrSet.FirstIsBehind` | app/src/gateway/mod.rs:57-65 | Without duplicates, the first network that shows a block, mapped or not, is the one behind it exactly if no later network maps that block. |
| `CidrSet.LaterMappingWins` | app/src/gateway/mod.rs:57-65 | Of two networks shown as one block, the first found by the lookup and the later one mapped, the later one gets the addresses. |
| `CidrSet.LookupDuringRebuild` | app/src/gateway/mod.rs:54-65 | During a rebuild a lookup gives the final answer exactly if no network takes the address, or the first one that does is listed and the mappings made so far give its real block. |
| `CidrSet.LookupAfterClearing` | app/src/gateway/mod.rs:54-56 | While the old blocks are listed without mappings, a lookup gives the final answer exactly if neither list takes the address, or both do and the new one leads to the shown block itself. |
| `TcpNat.NoAssertionFails` | app/src/gateway/tcp_proxy.rs:502-801 | In no run, under any interleaving of SYN, expiry, the accept loop's separate steps, connect and close, does a run-time assertion fail. |
| `TcpNat.AssertionsAreChecked` | app/src/gateway/tcp_proxy.rs:667-759 | A step is recorded as failed exactly if one of the three assertions finds otherwise. |
| `TcpNat.TaskStep` | app/src/gateway/tcp_proxy.rs:711-801 | A connection starts by connecting, goes through copying and the two shutdowns in order or fails to connect, and ends by leaving the maps. |
| `TcpNat.StateFollowsTask` | app/src/gateway/tcp_proxy.rs:711-801 | In every run the state of a connection's entry is that of the phase its task is in. |
| `TcpNat.PendingChanges` | app/src/gateway/tcp_proxy.rs:502-522 | A pending SYN stays exactly if the step is no newer SYN of its source, no removal by the accept loop, and no expiry more than 30 seconds after it. |
| `TcpNat.RedirectedToListener` | app/src/gateway/tcp_proxy.rs:904-925 | What is taken goes to the listener's address and port, with its flags and source port; only the proxy's own address is replaced by the stand-in. |
| `TcpNat.NicPathIsSafe` | app/src/gateway/tcp_proxy.rs:395-405 | The return path always finds entries under their own source, with any steps between its two lookups. |
| `TcpNat.IndexIsRegistered` | app/src/gateway/tcp_proxy.rs:671-677 | Between accepts and closes, every indexed entry is a registered connection, keyed by its own source. |
| `TcpNat.IndexChanges` | app/src/gateway/tcp_proxy.rs:671-709 | An index entry stays, unless its own connection takes it out or an accept replaces it by a newer connection of the same source. |
| `TcpNat.CloseLeavesNewer` | app/src/gateway/tcp_proxy.rs:702-709 | Closing, with any steps of others between its two removals, takes exactly the connection's own entry out of the index, and nothing in the rest of the run brings the connection back. |
| `TcpNat.AcceptFindsSyn` | app/src/gateway/tcp_proxy.rs:642-666 | With either stack, a waiting accept loop finds the entry of the rewritten SYN exactly if the client's address is not the stand-in of another one. |
| `TcpNat.ReturnPath` | app/src/gateway/tcp_proxy.rs:381-427 | A reply gets the dialled source of the entry of its client and the client's own address. |
| `TcpNat.EstablishedRoundTrip` | app/src/gateway/tcp_proxy.rs:904-918 | Other packets are taken exactly if one of the two lookups finds an entry of their source, and the reply that this entry gets comes from what was dialled to make it. |
| `TcpFlows.SynRoundTrip` | app/src/gateway/tcp_proxy.rs:876-918 | For a SYN and any run after it, with any SYNs: replies to the listed client get the dialled source and the client's address, and others are not taken, at every moment and with any steps of the run between the two lookups, exactly if the client is distinguishable, any accepted connection of its source dialled the same, and no step indexes, uncovers or makes an entry of another destination in front of it. |
| `TcpFlows.UndisturbedRoundTrip` | app/src/gateway/tcp_proxy.rs:876-918 | The same for all runs without a SYN of the source to another destination, exactly if the client is distinguishable and no accepted connection of its source, and none being accepted, dialled another destination. |
| `TcpFlows.AcceptGetsIndexed` | app/src/gateway/tcp_proxy.rs:669-675 | An entry that the accept loop holds goes on to answer for its source. |
| `TcpFlows.OlderAcceptWins` | app/src/gateway/tcp_proxy.rs:656-675 | A SYN that comes while the accept loop holds an older entry of the same source is answered from what the older one dialled. |
| `TcpFlows.NewerAcceptWins` | app/src/gateway/tcp_proxy.rs:656-675 | After a SYN of the same source to another destination and its accept, the reply of the older flow comes from what the newer one dialled. |
| `TcpFlows.AnswersIffDialled` | app/src/gateway/tcp_proxy.rs:381-427 | For a distinguishable client, replies are restored exactly if the entry that the two lookups find was made by dialling the destination. |
| `TcpFlows.ServedRoundTrip` | app/src/gateway/tcp_proxy.rs:395-405 | Over any run, a served flow is answered at every moment, whatever comes between the two lookups, exactly if no step takes its entry out of the index or indexes an entry of its source made by dialling elsewhere. |
| `TcpHistory.HistoryAnswers` | app/src/gateway/tcp_proxy.rs:395-403 | The two lookups find the entry indexed last for the source if it is served at the first, else the entry of its last SYN if it is pending at the second, else none. |
| `TcpHistory.FlowRoundTrip` | app/src/gateway/tcp_proxy.rs:381-427 | Over any run, with any older and newer flows of the source: the entry of a SYN keeps its destination; a reply comes from what was dialled to make the entry that the history of the source tells, and a packet of the client is taken exactly if there is one. |
| `TcpHistory.LoneFlow` | app/src/gateway/tcp_proxy.rs:381-427 | Without older or newer flows of its source: a reply is restored, and a packet of the client taken, exactly if the flow is served at the first lookup or pending at the second; it is neither exactly during the handover by the accept loop and when closed. |
| `TcpHistory.SynWaits` | app/src/gateway/tcp_proxy.rs:502-522 | Over any run, a SYN waits throughout exactly if no newer one of its source comes, the accept loop does not take it, and no expiry comes more than 30 seconds after it. |
| `TcpHistory.HandoverGap` | app/src/gateway/tcp_proxy.rs:671-675 | Between the two steps of the accept loop even a lone flow gets no reply restored and no packet taken. |
| `TcpHistory.MappedFlow` | app/src/gateway/tcp_proxy.rs:859-918 | A client dialling a proxied network is connected to the same place in the configured real block; over any run it sees replies from the address it dialled exactly while the entry that answers was made by dialling it, and none exactly while no entry answers. |
| `TcpHistory.AdmitsExactly` | app/src/gateway/tcp_proxy.rs:84-107 | A packet is taken exactly if its destination is in a shown block, or the node proxies at all and the packet comes through it as an exit node or is for its own address without a device; the latter keep their destination. |

## Left out

- Sockets, asynchronous tasks, raw ICMP, the user-space TCP stack, QUIC and KCP transports, TUN devices and platform code: I/O and foreign calls.
- Command line, launcher, configuration loading, printing and blockchain clients: no behaviour worth a theorem.
- Text of rules: addresses, port ranges and groups are taken as parsed; `parse_port_range` and the whitelist builder are not modelled.
- Packet views and checksums: packets are records except in the composer, where headers are bytes and the checksum is a parameter.
- Floating-point rounding in the bucket refill: tokens due are the exact floor of rate times elapsed time, saturated to 64 bits.
- The connection that the proxy opens: whether it goes to the real destination or, for the node's own address, to the loopback address.
- Memory ordering: every atomic access is one step of a sequentially consistent interleaving.
- Concurrency inside one access-control call: a call, an expiry and a cleanup are one step each; a processor still in use after a reload is not modelled, and inherited maps are copied, not shared.
- Global hit and packet statistics of the filter: only rule counters are modelled; a rate-limited packet may be attributed to its rule differently by the two paths, which is why verdicts are compared without that label.
- Overflow of path costs and of 64-bit packet and byte counters.
- NaN scores in the heap order: costs are natural numbers.
- Checks before proxying that a packet is a data packet, IPv4 and TCP, and header marks set on rewritten packets: packets of the proxy model are TCP over IPv4.
- UDP and ICMP address translation, which fixes the first destination of a source and makes no round-trip promise.
- Peer discovery, route synchronisation, foreign networks and hole punching: timing-dependent caches with weaker guarantees.
- RoundTrip.ReassemblyInvertsFragmentation: arrivals are whole; of removals that come later only soundness is proved, because a removal may then take pieces of a repeated datagram with it.
- IpReassembler.IpReassembler.Arrived: one call at a time; the accesses of concurrent calls are those of `ConcurrentReassemblyIsSound`.
- Composer.FragmentationIsFaithful: payloads have at most 65535 bytes, as those of an IPv4 datagram.
- Overflow checks of debug builds: 16-bit arithmetic wraps, as in release builds.
- CidrSet.CidrSet.Update: the object has one owner; the updater's separate accesses, between which other tasks look up, are the partial tables of `LookupDuringRebuild` and `LookupAfterClearing`.
