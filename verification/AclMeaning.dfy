/** What rules mean for raw packets: which packets the filter looks at, which rules apply to them by the fields of
    their headers, and what follows for verdicts and connections. */
module AclMeaning {
  import opened Wrappers
  import opened AclRules
  import opened AclCache
  import opened AclProcessing
  import opened AclFilter
  import TB = TokenBucket

  // ----- Which packets are seen, and by which chain -----

  predicate HasPorts(raw: RawPacket) {
    raw.nextHeader == 6 || raw.nextHeader == 17
  }

  /** An IPv4 or IPv6 packet with a complete header, and ports if it is TCP or UDP. */
  predicate Readable(raw: RawPacket) {
    raw.complete && (raw.version == 4 || raw.version == 6) && (HasPorts(raw) ==> raw.ports.Some?)
  }

  /** `address` is this node's own of the given version; without one it is the unspecified address. */
  predicate IsOwn(version: nat, address: nat, my4: Option<nat>, my6: Option<nat>) {
    var own := if version == 4 then my4 else my6;
    match own
    case Some(a) => address == a
    case None => address == 0
  }

  /** UDP between this node's QUIC port and anyone. */
  predicate IsQuicRaw(raw: RawPacket, port: nat, my4: Option<nat>, my6: Option<nat>) {
    && raw.nextHeader == 17 && raw.ports.Some? && port > 0
    && (|| (raw.ports.value.1 == port && IsOwn(raw.version, raw.dst, my4, my6))
        || (raw.ports.value.0 == port && IsOwn(raw.version, raw.src, my4, my6)))
  }

  predicate IsSeen(b: Base, e: Event)
    requires e.Incoming?
  {
    b.enabled && Readable(e.raw) && !IsQuicRaw(e.raw, b.quicPort, e.my4, e.my6)
  }

  /** Outgoing packets, packets for this node, and packets to forward. */
  function ChainFor(e: Event): ChainType
    requires e.Incoming?
  {
    if !e.isIn then Outbound else if IsOwn(e.raw.version, e.raw.dst, e.my4, e.my6) then Inbound else Forward
  }

  function AddressOf(version: nat, address: nat): IpAddr {
    if version == 6 then V6(address) else V4(address)
  }

  lemma {:induction false} SeenExactly(b: Base, e: Event)
    requires e.Incoming?
    ensures Classify(b, e).Some? <==> IsSeen(b, e)
    ensures IsSeen(b, e) ==>
              && ExtractPacketInfo(e.raw).Some?
              && Classify(b, e).value == (ExtractPacketInfo(e.raw).value, ChainFor(e))
  {}

  // ----- Which rules apply -----

  /** One constraint of a rule. */
  datatype Constraint =
    | OnProtocol(protocol: Protocol)
    | OnSource(ranges: seq<IpCidr>)
    | OnDestination(ranges: seq<IpCidr>)
    | OnSourcePort(ports: seq<PortRange>)
    | OnDestinationPort(ports: seq<PortRange>)
    | OnSourceGroup(groups: set<string>)
    | OnDestinationGroup(groups: set<string>)

  predicate IsProtocol(nextHeader: nat, protocol: Protocol) {
    match protocol
    case Any => true
    case Tcp => nextHeader == 6
    case Udp => nextHeader == 17
    case Icmp => nextHeader == 1
    case IcmpV6 => nextHeader == 58
    case Unspecified => nextHeader != 6 && nextHeader != 17 && nextHeader != 1 && nextHeader != 58
  }

  predicate InSome(version: nat, address: nat, ranges: seq<IpCidr>) {
    exists i :: 0 <= i < |ranges| && match ranges[i]
                                     case V4Cidr(first, last) => version == 4 && first <= address <= last
                                     case V6Cidr(first, last) => version == 6 && first <= address <= last
  }

  predicate PortInSome(port: nat, ranges: seq<PortRange>) {
    exists i :: 0 <= i < |ranges| && ranges[i].start <= port <= ranges[i].end
  }

  /** The field of the packet that the constraint is about meets it; an empty constraint is met, and so is one on
      ports by a packet without ports. */
  predicate Meets(raw: RawPacket, c: Constraint) {
    match c
    case OnProtocol(protocol) => IsProtocol(raw.nextHeader, protocol)
    case OnSource(ranges) => ranges == [] || InSome(raw.version, raw.src, ranges)
    case OnDestination(ranges) => ranges == [] || InSome(raw.version, raw.dst, ranges)
    case OnSourcePort(ports) => ports == [] || !HasPorts(raw) || (raw.ports.Some? && PortInSome(raw.ports.value.0, ports))
    case OnDestinationPort(ports) =>
      ports == [] || !HasPorts(raw) || (raw.ports.Some? && PortInSome(raw.ports.value.1, ports))
    case OnSourceGroup(groups) => groups == {} || exists i :: 0 <= i < |raw.srcGroups| && raw.srcGroups[i] in groups
    case OnDestinationGroup(groups) => groups == {} || exists i :: 0 <= i < |raw.dstGroups| && raw.dstGroups[i] in groups
  }

  function Parts(rule: Rule): seq<Constraint> {
    [OnProtocol(rule.protocol), OnSource(rule.sourceIps), OnDestination(rule.destinationIps),
     OnSourcePort(rule.sourcePorts), OnDestinationPort(rule.destinationPorts),
     OnSourceGroup(rule.sourceGroups), OnDestinationGroup(rule.destinationGroups)]
  }

  predicate MeetsAll(raw: RawPacket, rule: Rule) {
    forall i :: 0 <= i < |Parts(rule)| ==> Meets(raw, Parts(rule)[i])
  }

  lemma {:induction false} AddressMatches(raw: RawPacket, ranges: seq<IpCidr>, address: nat, ip: IpAddr)
    requires raw.version == 4 || raw.version == 6
    requires ip == AddressOf(raw.version, address)
    ensures IpMatches(ranges, ip) <==> ranges == [] || InSome(raw.version, address, ranges)
  {
    if InSome(raw.version, address, ranges) {
      var i :| 0 <= i < |ranges| && match ranges[i]
                                    case V4Cidr(first, last) => raw.version == 4 && first <= address <= last
                                    case V6Cidr(first, last) => raw.version == 6 && first <= address <= last;
      assert ranges[i] in ranges && ranges[i].Contains(ip);
    }
    if c :| c in ranges && c.Contains(ip) {
      var i :| 0 <= i < |ranges| && ranges[i] == c;
    }
  }

  lemma {:induction false} PortMatchesRange(ranges: seq<PortRange>, port: nat)
    ensures PortMatches(ranges, Some(port)) <==> ranges == [] || PortInSome(port, ranges)
  {
    if PortInSome(port, ranges) {
      var i :| 0 <= i < |ranges| && ranges[i].start <= port <= ranges[i].end;
      assert ranges[i] in ranges;
    }
    if r :| r in ranges && r.start <= port <= r.end {
      var i :| 0 <= i < |ranges| && ranges[i] == r;
    }
  }

  lemma {:induction false} GroupMatchesSome(wanted: set<string>, groups: seq<string>)
    ensures GroupMatches(wanted, groups) <==> wanted == {} || exists i :: 0 <= i < |groups| && groups[i] in wanted
  {
    if g :| g in groups && g in wanted {
      var i :| 0 <= i < |groups| && groups[i] == g;
    }
  }

  /** A rule matches an extracted packet exactly if each of its constraints is met by its field of the packet. */
  lemma {:induction false} MatchesExactly(rule: Rule, raw: RawPacket)
    requires Readable(raw)
    ensures ExtractPacketInfo(raw).Some?
    ensures RuleMatches(rule, ExtractPacketInfo(raw).value) <==> MeetsAll(raw, rule)
  {
    var info := ExtractPacketInfo(raw).value;
    AddressMatches(raw, rule.sourceIps, raw.src, info.srcIp);
    AddressMatches(raw, rule.destinationIps, raw.dst, info.dstIp);
    if HasPorts(raw) {
      PortMatchesRange(rule.sourcePorts, raw.ports.value.0);
      PortMatchesRange(rule.destinationPorts, raw.ports.value.1);
    }
    GroupMatchesSome(rule.sourceGroups, raw.srcGroups);
    GroupMatchesSome(rule.destinationGroups, raw.dstGroups);
    hide IpMatches, PortMatches, GroupMatches, InSome, PortInSome;
    AllParts(raw, rule);
  }

  lemma {:induction false} AllParts(raw: RawPacket, rule: Rule)
    ensures MeetsAll(raw, rule) <==>
            && Meets(raw, OnProtocol(rule.protocol))
            && Meets(raw, OnSource(rule.sourceIps)) && Meets(raw, OnDestination(rule.destinationIps))
            && Meets(raw, OnSourcePort(rule.sourcePorts)) && Meets(raw, OnDestinationPort(rule.destinationPorts))
            && Meets(raw, OnSourceGroup(rule.sourceGroups)) && Meets(raw, OnDestinationGroup(rule.destinationGroups))
  {
    hide Meets;
    var parts := Parts(rule);
    if MeetsAll(raw, rule) {
      assert Meets(raw, parts[0]) && Meets(raw, parts[1]) && Meets(raw, parts[2]) && Meets(raw, parts[3]);
      assert Meets(raw, parts[4]) && Meets(raw, parts[5]) && Meets(raw, parts[6]);
    }
  }

  // ----- Verdicts -----

  /** Rule `j` of chain `i` is enabled, in an enabled chain of type `t`, and all its constraints are met. */
  predicate AppliesRaw(chains: seq<Chain>, t: ChainType, raw: RawPacket, i: int, j: int) {
    && 0 <= i < |chains| && chains[i].enabled && chains[i].chainType == t
    && 0 <= j < |chains[i].rules| && chains[i].rules[j].enabled && MeetsAll(raw, chains[i].rules[j])
  }

  /** ... and comes before all others that apply: by chain, then priority, then position. */
  ghost predicate IsTopRaw(chains: seq<Chain>, t: ChainType, raw: RawPacket, i: int, j: int) {
    AppliesRaw(chains, t, raw, i, j) && forall k, l :: AppliesRaw(chains, t, raw, k, l) ==> Outranks(chains, i, j, k, l)
  }

  /** The default action of the first chain of the type, enabled or not; Allow without one. */
  ghost predicate IsDefault(chains: seq<Chain>, t: ChainType, action: Action) {
    || (exists i :: 0 <= i < |chains| && chains[i].chainType == t && chains[i].defaultAction == action
                    && forall k :: 0 <= k < i ==> chains[k].chainType != t)
    || (action == Allow && forall k :: 0 <= k < |chains| ==> chains[k].chainType != t)
  }

  /** The verdict that the configuration asks for. */
  ghost predicate Follows(r: AclResult, chains: seq<Chain>, t: ChainType, raw: RawPacket,
                          buckets: map<RateLimitKey, TB.Bucket>) {
    || (ObeysDefault(r, r.action) && IsDefault(chains, t, r.action) && forall i, j :: !AppliesRaw(chains, t, raw, i, j))
    || (exists i, j :: IsTopRaw(chains, t, raw, i, j) && ObeysRaw(r, chains[i].rules[j], buckets, t, raw))
  }

  /** `Obeys`, with the addresses of the raw packet. */
  predicate ObeysRaw(r: AclResult, rule: Rule, buckets: map<RateLimitKey, TB.Bucket>, t: ChainType, raw: RawPacket) {
    var (src, dst) := (AddressOf(raw.version, raw.src), AddressOf(raw.version, raw.dst));
    if rule.rateLimit > 0 && Exhausted(buckets, RateLimitKey(t, rule.priority), rule.burstLimit)
    then r == AclResult(Drop, Priority(rule.priority), RateLimitDrop)
    else if rule.stateful && rule.action == Allow
    then r == AclResult(Allow, Stateful(rule.priority), StatefulMatch(src, dst))
    else r == AclResult(rule.action, Priority(rule.priority), RuleMatch(src, dst, rule.action))
  }

  lemma {:induction false} AppliesExactly(chains: seq<Chain>, t: ChainType, raw: RawPacket, i: int, j: int)
    requires Readable(raw)
    ensures ExtractPacketInfo(raw).Some?
    ensures Applies(chains, t, ExtractPacketInfo(raw).value, i, j) <==> AppliesRaw(chains, t, raw, i, j)
  {
    hide RuleMatches, MeetsAll, Readable;
    assert ExtractPacketInfo(raw).Some? by { ReadableIsExtracted(raw); }
    if 0 <= i < |chains| && 0 <= j < |chains[i].rules| {
      MatchesExactly(chains[i].rules[j], raw);
    }
  }

  lemma {:induction false} ReadableIsExtracted(raw: RawPacket)
    requires Readable(raw)
    ensures var info := ExtractPacketInfo(raw);
            && info.Some?
            && info.value.srcIp == AddressOf(raw.version, raw.src) && info.value.dstIp == AddressOf(raw.version, raw.dst)
  {}

  lemma {:induction false} ScanFollows(chains: seq<Chain>, sh: Shared, raw: RawPacket, t: ChainType, now: nat)
    requires Readable(raw) && t != UnspecifiedChain
    ensures ExtractPacketInfo(raw).Some?
    ensures Follows(Scan(Build(chains), sh, ExtractPacketInfo(raw).value, t, now).result, chains, t, raw, sh.buckets)
  {
    ReadableIsExtracted(raw);
    hide Readable, Scan, Applies, AppliesRaw, AclRules.Build, AclRules.DefaultAction, ExtractPacketInfo, Obeys, Follows;
    hide ObeysDefault, IsTopRule;
    var info := ExtractPacketInfo(raw).value;
    ScanObeysConfig(chains, sh, info, t, now);
    forall i, j ensures Applies(chains, t, info, i, j) <==> AppliesRaw(chains, t, raw, i, j) {
      AppliesExactly(chains, t, raw, i, j);
    }
    var r := Scan(Build(chains), sh, info, t, now).result;
    if i, j :| IsTopRule(chains, t, info, |chains|, i, j) && Obeys(r, chains[i].rules[j], sh.buckets, t, info) {
      TopFollows(r, chains, t, raw, info, sh.buckets, i, j);
    } else {
      DefaultFollows(r, chains, t, raw, info, sh.buckets);
    }
  }

  lemma {:induction false} TopFollows(r: AclResult, chains: seq<Chain>, t: ChainType, raw: RawPacket, info: PacketInfo,
                                      buckets: map<RateLimitKey, TB.Bucket>, i: int, j: int)
    requires forall k, l :: Applies(chains, t, info, k, l) <==> AppliesRaw(chains, t, raw, k, l)
    requires info.srcIp == AddressOf(raw.version, raw.src) && info.dstIp == AddressOf(raw.version, raw.dst)
    requires IsTopRule(chains, t, info, |chains|, i, j) && Obeys(r, chains[i].rules[j], buckets, t, info)
    ensures Follows(r, chains, t, raw, buckets)
  {
    hide Exhausted, RuleMatches, MeetsAll;
    TopIsTopRaw(chains, t, raw, info, i, j);
    assert ObeysRaw(r, chains[i].rules[j], buckets, t, raw);
  }

  lemma {:induction false} DefaultFollows(r: AclResult, chains: seq<Chain>, t: ChainType, raw: RawPacket,
                                          info: PacketInfo, buckets: map<RateLimitKey, TB.Bucket>)
    requires forall k, l :: Applies(chains, t, info, k, l) <==> AppliesRaw(chains, t, raw, k, l)
    requires ObeysDefault(r, DefaultAction(chains, t)) && forall i, j :: !Applies(chains, t, info, i, j)
    ensures Follows(r, chains, t, raw, buckets)
  {
    hide AclRules.DefaultAction, Applies, AppliesRaw;
    DefaultIsFirstChain(chains, t);
  }

  lemma {:induction false} TopIsTopRaw(chains: seq<Chain>, t: ChainType, raw: RawPacket, info: PacketInfo, i: int, j: int)
    requires forall k, l :: Applies(chains, t, info, k, l) <==> AppliesRaw(chains, t, raw, k, l)
    requires IsTopRule(chains, t, info, |chains|, i, j)
    ensures IsTopRaw(chains, t, raw, i, j)
  {
    hide RuleMatches, MeetsAll;
    forall k, l | AppliesRaw(chains, t, raw, k, l) ensures Outranks(chains, i, j, k, l) {
      assert Applies(chains, t, info, k, l) && k < |chains|;
    }
  }

  /** The filter answers exactly the packets it has to see, and its verdict is the one that its configuration asks for,
      by the fields of the packet. */
  lemma {:induction false} VerdictFollowsConfig(b: Base, e: Event, chains: seq<Chain>)
    requires e.Incoming? && b.rules == Build(chains)
    ensures var r := BaseNext(b, e).1;
            if !IsSeen(b, e) then r.None? else r.Some? && Follows(r.value, chains, ChainFor(e), e.raw, b.shared.buckets)
  {
    SeenExactly(b, e);
    hide Scan, Follows, AclRules.Build;
    if IsSeen(b, e) {
      ScanFollows(chains, b.shared, e.raw, ChainFor(e), b.clock);
    }
  }

  /** One enabled chain that allows by default, with one rule that drops: exactly the packets are dropped that go through
      the chain and meet every constraint of the rule. */
  lemma {:induction false} DropsExactly(b: Base, e: Event, t: ChainType, rule: Rule)
    requires e.Incoming? && b.rules == Build([Chain(t, true, [rule], Allow)])
    requires rule.enabled && rule.action == Drop && rule.rateLimit == 0
    ensures var r := BaseNext(b, e).1;
            (r.Some? && r.value.action == Drop) <==> IsSeen(b, e) && ChainFor(e) == t && MeetsAll(e.raw, rule)
  {
    var chains := [Chain(t, true, [rule], Allow)];
    VerdictFollowsConfig(b, e, chains);
    hide AclRules.Build, BaseNext, MeetsAll, IsSeen, Exhausted;
    var r := BaseNext(b, e).1;
    if IsSeen(b, e) {
      assert AppliesRaw(chains, ChainFor(e), e.raw, 0, 0) <==> ChainFor(e) == t && MeetsAll(e.raw, rule);
      assert forall i, j :: AppliesRaw(chains, ChainFor(e), e.raw, i, j) ==> i == 0 && j == 0;
    }
  }

  const OPEN_RULE := Rule(0, true, Any, [], [], [], [], {}, {}, Drop, false, 0, 0)

  /** A rule that drops by one constraint only. */
  function DropRule(c: Constraint): Rule {
    match c
    case OnProtocol(protocol) => OPEN_RULE.(protocol := protocol)
    case OnSource(ranges) => OPEN_RULE.(sourceIps := ranges)
    case OnDestination(ranges) => OPEN_RULE.(destinationIps := ranges)
    case OnSourcePort(ports) => OPEN_RULE.(sourcePorts := ports)
    case OnDestinationPort(ports) => OPEN_RULE.(destinationPorts := ports)
    case OnSourceGroup(groups) => OPEN_RULE.(sourceGroups := groups)
    case OnDestinationGroup(groups) => OPEN_RULE.(destinationGroups := groups)
  }

  /** Each constraint alone decides by its own field of the packet. */
  lemma {:induction false} SingleConstraint(b: Base, e: Event, t: ChainType, c: Constraint)
    requires e.Incoming? && b.rules == Build([Chain(t, true, [DropRule(c)], Allow)])
    ensures var r := BaseNext(b, e).1;
            (r.Some? && r.value.action == Drop) <==> IsSeen(b, e) && ChainFor(e) == t && Meets(e.raw, c)
  {
    DropsExactly(b, e, t, DropRule(c));
    OnlyPart(e.raw, c);
    hide BaseNext, AclRules.Build, IsSeen, MeetsAll, Meets;
  }

  lemma {:induction false} OnlyPart(raw: RawPacket, c: Constraint)
    ensures MeetsAll(raw, DropRule(c)) <==> Meets(raw, c)
  {
    AllParts(raw, DropRule(c));
    hide MeetsAll, InSome, PortInSome;
  }
}
