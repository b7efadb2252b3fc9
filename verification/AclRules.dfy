/** Access control rules: matching, building the lookup lists, and the deciding rule. */
module AclRules {
  import opened Wrappers
  import opened Sorting

  datatype Protocol = Unspecified | Tcp | Udp | Icmp | IcmpV6 | Any
  datatype Action = Noop | Allow | Drop
  datatype ChainType = UnspecifiedChain | Inbound | Outbound | Forward
  datatype IpAddr = V4(bits: nat) | V6(bits: nat)

  /** The block of addresses a CIDR stands for, by its first and last address. */
  datatype IpCidr = V4Cidr(first: nat, last: nat) | V6Cidr(first: nat, last: nat) {
    predicate Contains(ip: IpAddr) {
      V4Cidr? == ip.V4? && first <= ip.bits <= last
    }
  }

  datatype PortRange = PortRange(start: nat, end: nat)

  datatype Rule = Rule(
    priority: nat, enabled: bool, protocol: Protocol,
    sourceIps: seq<IpCidr>, destinationIps: seq<IpCidr>,
    sourcePorts: seq<PortRange>, destinationPorts: seq<PortRange>,
    sourceGroups: set<string>, destinationGroups: set<string>,
    action: Action, stateful: bool, rateLimit: nat, burstLimit: nat)

  datatype Chain = Chain(chainType: ChainType, enabled: bool, rules: seq<Rule>, defaultAction: Action)

  /** Whose counters a decision bumps: those of the rule at a configured position, or of the default. */
  datatype StatId = RuleStat(chain: nat, index: nat) | DefaultStat

  datatype FastLookupRule = FastLookupRule(rule: Rule, stats: StatId)

  datatype PacketInfo = PacketInfo(
    srcIp: IpAddr, dstIp: IpAddr, srcPort: Option<nat>, dstPort: Option<nat>,
    protocol: Protocol, size: nat, srcGroups: seq<string>, dstGroups: seq<string>)

  predicate IpMatches(ranges: seq<IpCidr>, ip: IpAddr) {
    ranges == [] || exists c :: c in ranges && c.Contains(ip)
  }

  /** Port ranges constrain only packets that have a port. */
  predicate PortMatches(ranges: seq<PortRange>, port: Option<nat>) {
    port.None? || ranges == [] || exists r :: r in ranges && r.start <= port.value <= r.end
  }

  predicate GroupMatches(wanted: set<string>, groups: seq<string>) {
    wanted == {} || exists g :: g in groups && g in wanted
  }

  predicate RuleMatches(rule: Rule, p: PacketInfo) {
    && (rule.protocol == Any || rule.protocol == p.protocol)
    && IpMatches(rule.sourceIps, p.srcIp)
    && IpMatches(rule.destinationIps, p.dstIp)
    && PortMatches(rule.sourcePorts, p.srcPort)
    && PortMatches(rule.destinationPorts, p.dstPort)
    && GroupMatches(rule.sourceGroups, p.srcGroups)
    && GroupMatches(rule.destinationGroups, p.dstGroups)
  }

  // ----- Building the lookup lists -----

  /** The enabled ones among the first `n` rules of chain number `c`. */
  function EnabledRules(rules: seq<Rule>, c: nat, n: nat): seq<FastLookupRule>
    requires n <= |rules|
  {
    if n == 0 then []
    else EnabledRules(rules, c, n - 1)
         + if rules[n - 1].enabled then [FastLookupRule(rules[n - 1], RuleStat(c, n - 1))] else []
  }

  /** Descending priority as an ascending key. */
  function PriorityKey(f: FastLookupRule): int {
    0 - f.rule.priority
  }

  function ChainRules(chain: Chain, c: nat): seq<FastLookupRule> {
    SortBy(EnabledRules(chain.rules, c, |chain.rules|), PriorityKey)
  }

  /** What chain number `c` contributes to the lookup list of type `t`. */
  function Contribution(chains: seq<Chain>, t: ChainType, c: nat): seq<FastLookupRule>
    requires c < |chains|
  {
    if chains[c].enabled && chains[c].chainType == t then ChainRules(chains[c], c) else []
  }

  /** The lookup list of one chain type, from the first `n` chains. */
  function RulesOf(chains: seq<Chain>, t: ChainType, n: nat): seq<FastLookupRule>
    requires n <= |chains|
  {
    if n == 0 then [] else RulesOf(chains, t, n - 1) + Contribution(chains, t, n - 1)
  }

  /** The first chain of a type gives its default action, even when it is disabled. */
  function DefaultAction(chains: seq<Chain>, t: ChainType): Action {
    if chains == [] then Allow
    else if chains[0].chainType == t then chains[0].defaultAction
    else DefaultAction(chains[1..], t)
  }

  datatype RuleSet = RuleSet(
    inbound: seq<FastLookupRule>, outbound: seq<FastLookupRule>, forward: seq<FastLookupRule>,
    defaultInbound: Action, defaultOutbound: Action, defaultForward: Action)

  function Build(chains: seq<Chain>): RuleSet {
    var n := |chains|;
    RuleSet(RulesOf(chains, Inbound, n), RulesOf(chains, Outbound, n), RulesOf(chains, Forward, n),
            DefaultAction(chains, Inbound), DefaultAction(chains, Outbound), DefaultAction(chains, Forward))
  }

  method BuildRules(chains: seq<Chain>)
    returns (inbound: seq<FastLookupRule>, outbound: seq<FastLookupRule>, forward: seq<FastLookupRule>)
    ensures inbound == Build(chains).inbound && outbound == Build(chains).outbound && forward == Build(chains).forward
  {
    hide ChainRules, DefaultAction;
    inbound, outbound, forward := [], [], [];
    for n := 0 to |chains|
      invariant inbound == RulesOf(chains, Inbound, n)
      invariant outbound == RulesOf(chains, Outbound, n)
      invariant forward == RulesOf(chains, Forward, n)
    {
      if !chains[n].enabled {
        continue;
      }
      var rules := ChainRules(chains[n], n);
      match chains[n].chainType {
        case Inbound => inbound := inbound + rules;
        case Outbound => outbound := outbound + rules;
        case Forward => forward := forward + rules;
        case UnspecifiedChain =>
      }
    }
  }

  function RulesFor(rules: RuleSet, t: ChainType): seq<FastLookupRule> {
    match t
    case Inbound => rules.inbound
    case Outbound => rules.outbound
    case Forward => rules.forward
    case UnspecifiedChain => []
  }

  function DefaultFor(rules: RuleSet, t: ChainType): Action {
    match t
    case Inbound => rules.defaultInbound
    case Outbound => rules.defaultOutbound
    case Forward => rules.defaultForward
    case UnspecifiedChain => Allow
  }

  /** The test of the rule scan. */
  function Matcher(p: PacketInfo): FastLookupRule -> bool {
    (f: FastLookupRule) => f.rule.enabled && RuleMatches(f.rule, p)
  }

  /** The rule that decides about `p`, if any. */
  function Deciding(rules: RuleSet, t: ChainType, p: PacketInfo): Option<FastLookupRule> {
    FirstMatch(RulesFor(rules, t), Matcher(p))
  }

  // ----- The deciding rule, by its position in the configuration -----

  /** Rule `j` of chain `i` is enabled, belongs to an enabled chain of type `t`, and matches. */
  predicate Applies(chains: seq<Chain>, t: ChainType, p: PacketInfo, i: int, j: int) {
    && 0 <= i < |chains| && chains[i].enabled && chains[i].chainType == t
    && 0 <= j < |chains[i].rules| && chains[i].rules[j].enabled && RuleMatches(chains[i].rules[j], p)
  }

  /** Chain order first, then descending priority, then order within the chain. */
  predicate Outranks(chains: seq<Chain>, i: int, j: int, k: int, l: int)
    requires 0 <= i < |chains| && 0 <= j < |chains[i].rules| && 0 <= k < |chains| && 0 <= l < |chains[k].rules|
  {
    var (a, b) := (chains[i].rules[j].priority, chains[k].rules[l].priority);
    i < k || (i == k && (a > b || (a == b && j <= l)))
  }

  /** Among the first `n` chains, rule `j` of chain `i` applies and outranks all that apply. */
  ghost predicate IsTopRule(chains: seq<Chain>, t: ChainType, p: PacketInfo, n: nat, i: int, j: int) {
    && i < n && Applies(chains, t, p, i, j)
    && forall k, l :: k < n && Applies(chains, t, p, k, l) ==> Outranks(chains, i, j, k, l)
  }

  /** `f` is rule `j` of chain `c` in lookup form. */
  predicate IsAt(f: FastLookupRule, rules: seq<Rule>, c: nat, j: int) {
    0 <= j < |rules| && rules[j].enabled && f == FastLookupRule(rules[j], RuleStat(c, j))
  }

  /** The list of enabled rules keeps every enabled rule once, in order, under its position. */
  lemma {:induction false} EnabledPositions(rules: seq<Rule>, c: nat, n: nat)
    requires n <= |rules|
    ensures var fs := EnabledRules(rules, c, n);
            && (forall m :: 0 <= m < |fs| ==>
                  fs[m].stats.RuleStat? && fs[m].stats.index < n && IsAt(fs[m], rules, c, fs[m].stats.index))
            && (forall m, o :: 0 <= m < o < |fs| ==> fs[m].stats.index < fs[o].stats.index)
            && (forall j :: 0 <= j < n && rules[j].enabled ==> FastLookupRule(rules[j], RuleStat(c, j)) in fs)
  {
    if n > 0 {
      EnabledPositions(rules, c, n - 1);
    }
  }

  /** Rule `j` of chain `c` applies and is the one of highest priority, first configured. */
  ghost predicate IsTopOfChain(chains: seq<Chain>, t: ChainType, p: PacketInfo, c: int, j: int) {
    Applies(chains, t, p, c, j) && forall l :: Applies(chains, t, p, c, l) ==> Outranks(chains, c, j, c, l)
  }

  /** The best enabled rule by list position is the top rule of the chain. */
  lemma {:induction false} BestIsTop(chains: seq<Chain>, t: ChainType, p: PacketInfo, c: nat, n: int)
    requires c < |chains| && chains[c].enabled && chains[c].chainType == t
    requires var fs := EnabledRules(chains[c].rules, c, |chains[c].rules|); IsBest(fs, Matcher(p), PriorityKey, n)
    ensures var f := EnabledRules(chains[c].rules, c, |chains[c].rules|)[n];
            f.stats.RuleStat? && IsAt(f, chains[c].rules, c, f.stats.index) && IsTopOfChain(chains, t, p, c, f.stats.index)
  {
    var rules := chains[c].rules;
    var fs := EnabledRules(rules, c, |rules|);
    EnabledPositions(rules, c, |rules|);
    forall l | Applies(chains, t, p, c, l) ensures Outranks(chains, c, fs[n].stats.index, c, l) {
      var o :| 0 <= o < |fs| && fs[o] == FastLookupRule(rules[l], RuleStat(c, l));
      assert Matcher(p)(fs[o]);
    }
  }

  lemma {:induction false} ChainDecision(chains: seq<Chain>, t: ChainType, p: PacketInfo, c: nat)
    requires c < |chains| && chains[c].enabled && chains[c].chainType == t
    ensures var m := FirstMatch(ChainRules(chains[c], c), Matcher(p));
            if m.Some?
            then exists j :: IsTopOfChain(chains, t, p, c, j) && IsAt(m.value, chains[c].rules, c, j)
            else forall l :: !Applies(chains, t, p, c, l)
  {
    hide RuleMatches, FirstMatch, SortBy, EnabledRules;
    var rules := chains[c].rules;
    var fs := EnabledRules(rules, c, |rules|);
    FirstMatchOfSorted(fs, Matcher(p), PriorityKey);
    if FirstMatch(ChainRules(chains[c], c), Matcher(p)).Some? {
      var n :| IsBest(fs, Matcher(p), PriorityKey, n) && FirstMatch(ChainRules(chains[c], c), Matcher(p)).value == fs[n];
      BestIsTop(chains, t, p, c, n);
    } else {
      EnabledPositions(rules, c, |rules|);
      forall l: nat | l < |rules| && rules[l].enabled ensures !Matcher(p)(FastLookupRule(rules[l], RuleStat(c, l))) {}
    }
  }

  lemma {:induction false} FirstMatchOfConcat<T>(a: seq<T>, b: seq<T>, matches: T -> bool)
    ensures FirstMatch(a + b, matches)
            == if FirstMatch(a, matches).Some? then FirstMatch(a, matches) else FirstMatch(b, matches)
  {
    if a == [] {
      assert a + b == b;
    } else {
      FirstMatchOfConcat(a[1..], b, matches);
      assert (a + b)[1..] == a[1..] + b;
    }
  }

  lemma {:induction false} TopStaysTop(chains: seq<Chain>, t: ChainType, p: PacketInfo, n: nat, i: int, j: int)
    requires IsTopRule(chains, t, p, n, i, j)
    ensures IsTopRule(chains, t, p, n + 1, i, j)
  {
    hide RuleMatches;
  }

  lemma {:induction false} FirstOfNextChain(chains: seq<Chain>, t: ChainType, p: PacketInfo, n: nat, j: int)
    requires IsTopOfChain(chains, t, p, n, j) && forall k, l :: k < n ==> !Applies(chains, t, p, k, l)
    ensures IsTopRule(chains, t, p, n + 1, n, j)
  {
    hide RuleMatches;
  }

  lemma {:induction false} DecisionAmong(chains: seq<Chain>, t: ChainType, p: PacketInfo, n: nat)
    requires n <= |chains|
    ensures var m := FirstMatch(RulesOf(chains, t, n), Matcher(p));
            if m.Some?
            then exists i, j :: IsTopRule(chains, t, p, n, i, j) && IsAt(m.value, chains[i].rules, i, j)
            else forall k, l :: k < n ==> !Applies(chains, t, p, k, l)
  {
    hide Matcher, RuleMatches;
    if n > 0 {
      hide FirstMatch, ChainRules, IsTopOfChain, IsAt;
      var c := n - 1;
      DecisionAmong(chains, t, p, c);
      FirstMatchOfConcat(RulesOf(chains, t, c), Contribution(chains, t, c), Matcher(p));
      var before := FirstMatch(RulesOf(chains, t, c), Matcher(p));
      if before.Some? {
        var i, j :| IsTopRule(chains, t, p, c, i, j) && IsAt(before.value, chains[i].rules, i, j);
        TopStaysTop(chains, t, p, c, i, j);
      } else {
        OwnDecision(chains, t, p, c);
      }
    }
  }

  /** If no rule of an earlier chain applies, chain `c` decides by what it contributes. */
  lemma {:induction false} OwnDecision(chains: seq<Chain>, t: ChainType, p: PacketInfo, c: nat)
    requires c < |chains| && forall k, l :: k < c ==> !Applies(chains, t, p, k, l)
    ensures var m := FirstMatch(Contribution(chains, t, c), Matcher(p));
            if m.Some?
            then exists i, j :: IsTopRule(chains, t, p, c + 1, i, j) && IsAt(m.value, chains[i].rules, i, j)
            else forall k, l :: k < c + 1 ==> !Applies(chains, t, p, k, l)
  {
    hide Matcher, RuleMatches, ChainRules, IsTopOfChain;
    if chains[c].enabled && chains[c].chainType == t {
      ChainDecision(chains, t, p, c);
      var own := FirstMatch(ChainRules(chains[c], c), Matcher(p));
      if own.Some? {
        var j :| IsTopOfChain(chains, t, p, c, j) && IsAt(own.value, chains[c].rules, c, j);
        FirstOfNextChain(chains, t, p, c, j);
      }
    }
  }

  /** The deciding rule outranks every rule that applies; there is none exactly if no rule applies. */
  lemma {:induction false} DecidingRuleIsTop(chains: seq<Chain>, t: ChainType, p: PacketInfo)
    requires t != UnspecifiedChain
    ensures var m := Deciding(Build(chains), t, p);
            if m.Some?
            then exists i, j :: IsTopRule(chains, t, p, |chains|, i, j) && IsAt(m.value, chains[i].rules, i, j)
            else forall k, l :: !Applies(chains, t, p, k, l)
  {
    DecisionAmong(chains, t, p, |chains|);
  }

  /** With one enabled chain of the type, the decision is a matching rule of highest priority. */
  lemma {:induction false} SingleChainDecision(chains: seq<Chain>, t: ChainType, p: PacketInfo, c: nat)
    requires t != UnspecifiedChain && c < |chains|
    requires forall k :: 0 <= k < |chains| && chains[k].enabled && chains[k].chainType == t ==> k == c
    ensures var m := Deciding(Build(chains), t, p);
            && (m.Some? <==> exists l :: Applies(chains, t, p, c, l))
            && (m.Some? ==> m.value.rule in chains[c].rules && RuleMatches(m.value.rule, p)
                            && forall l :: Applies(chains, t, p, c, l) ==> chains[c].rules[l].priority <= m.value.rule.priority)
  {
    DecidingRuleIsTop(chains, t, p);
    var m := Deciding(Build(chains), t, p);
    if m.Some? {
      var i, j :| IsTopRule(chains, t, p, |chains|, i, j) && IsAt(m.value, chains[i].rules, i, j);
      assert i == c;
    }
  }

  /** The first configured chain of the type, enabled or not, sets the default; without one it is Allow. */
  lemma {:induction false} DefaultIsFirstChain(chains: seq<Chain>, t: ChainType)
    ensures (exists i :: && 0 <= i < |chains| && chains[i].chainType == t
                         && chains[i].defaultAction == DefaultAction(chains, t)
                         && forall k :: 0 <= k < i ==> chains[k].chainType != t)
         || (DefaultAction(chains, t) == Allow && forall k :: 0 <= k < |chains| ==> chains[k].chainType != t)
  {
    if chains != [] && chains[0].chainType != t {
      DefaultIsFirstChain(chains[1..], t);
      assert chains == [chains[0]] + chains[1..];
      if i :| 0 <= i < |chains[1..]| && chains[1..][i].chainType == t
              && chains[1..][i].defaultAction == DefaultAction(chains[1..], t)
              && forall k :: 0 <= k < i ==> chains[1..][k].chainType != t {
        assert chains[i + 1] == chains[1..][i];
        assert forall k :: 0 < k < i + 1 ==> chains[k] == chains[1..][k - 1];
      }
    }
  }
}
