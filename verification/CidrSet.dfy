/** Proxied networks: the configured list, the lookup table built from it, and the
    translation of mapped addresses to real ones. */
module CidrSet {
  import opened Wrappers
  import opened Bits

  type Ip = x: int | 0 <= x < 0x1_0000_0000

  datatype Cidr = Cidr(first: Ip, len: nat)

  /** The upper `len` of 32 bits. */
  function Mask(len: nat): Ip {
    Pow2Of32();
    if len >= 32 then 0xffff_ffff else
    assert Pow2(32 - len) <= Pow2(32) by { Pow2Order(32 - len, 32); }
    Pow2(32) - Pow2(32 - len)
  }

  function Net(mask: Ip, ip: Ip): Ip {
    Pow2Of32();
    And(ip, mask, 32)
  }

  function Host(mask: Ip, ip: Ip): Ip {
    Pow2Of32();
    And(ip, 0xffff_ffff - mask, 32)
  }

  function Join(host: Ip, net: Ip): Ip {
    Pow2Of32();
    Or(host, net, 32)
  }

  /** A block is given by its first address. */
  predicate Valid(c: Cidr) {
    c.len <= 32 && Host(Mask(c.len), c.first) == 0
  }

  predicate Contains(c: Cidr, ip: Ip) {
    Net(Mask(c.len), ip) == c.first
  }

  /** The host part of `ip` in the network of `to`; the mask is the one of `from`. */
  function Convert(ip: Ip, from: Cidr, to: Cidr): Ip {
    Join(Host(Mask(from.len), ip), to.first)
  }

  // ----- Blocks as ranges of numbers -----

  /** How many addresses a block of the given prefix length has. */
  function Size(len: nat): nat
    requires len <= 32
  {
    Pow2(32 - len)
  }

  /** `ip` is one of the addresses of the block, counted from its first one. */
  predicate Within(c: Cidr, ip: Ip) {
    c.len <= 32 && c.first <= ip < c.first + Size(c.len)
  }

  lemma {:induction false} MaskOf(len: nat)
    requires len <= 32
    ensures Size(len) <= 0x1_0000_0000 && Mask(len) == 0x1_0000_0000 - Size(len)
  {
    Pow2Of32();
    Pow2Order(32 - len, 32);
  }

  lemma {:induction false} NetOf(len: nat, ip: Ip)
    requires len <= 32
    ensures Net(Mask(len), ip) == ip - ip % Size(len)
  {
    MaskOf(len);
    Pow2Of32();
    hide Mask, And;
    AndUpper(ip, 32 - len, 32);
  }

  lemma {:induction false} HostOf(len: nat, ip: Ip)
    requires len <= 32
    ensures Host(Mask(len), ip) == ip % Size(len)
  {
    MaskOf(len);
    Pow2Of32();
    hide Mask, And;
    AndLower(ip, 32 - len, 32);
  }

  lemma {:induction false} JoinOf(len: nat, host: Ip, net: Ip)
    requires len <= 32 && host < Size(len) && net % Size(len) == 0
    ensures Join(host, net) == host + net
  {
    MaskOf(len);
    Pow2Of32();
    hide Mask, Or;
    OrSplit(host, net, 32 - len, 32);
  }

  lemma {:induction false} Multiple(x: nat, first: nat, s: nat)
    requires s > 0 && first % s == 0
    ensures x - x % s == first <==> first <= x < first + s
  {
    if first <= x < first + s {
      assert first == first / s * s;
      Remainder(x, first / s, s, x - first);
    }
  }

  /** A block of prefix length `len` holds the addresses from its first one on, 2 to the power of 32 - `len`
      of them. */
  lemma {:induction false} ContainsIsRange(c: Cidr, ip: Ip)
    requires Valid(c)
    ensures Contains(c, ip) <==> Within(c, ip)
  {
    hide Net, Host, Mask;
    NetOf(c.len, ip);
    HostOf(c.len, c.first);
    Multiple(ip, c.first, Size(c.len));
  }

  /** Between blocks of equal length, the conversion keeps the distance from the first address. */
  lemma {:induction false} ConvertIsShift(ip: Ip, from: Cidr, to: Cidr)
    requires Valid(from) && Valid(to) && from.len == to.len && Within(from, ip)
    ensures Convert(ip, from, to) == to.first + (ip - from.first)
    ensures Within(to, Convert(ip, from, to))
  {
    hide Net, Host, Mask, Join;
    HostOf(from.len, ip);
    HostOf(from.len, from.first);
    HostOf(to.len, to.first);
    Multiple(ip, from.first, Size(from.len));
    JoinOf(from.len, Host(Mask(from.len), ip), to.first);
  }

  /** Between blocks of equal length the conversion lands in the target block, keeps the offset from
      the first address, and is undone by the conversion with the roles swapped. */
  lemma {:induction false} ConvertIsBijective(ip: Ip, from: Cidr, to: Cidr)
    requires Valid(from) && Valid(to) && from.len == to.len && Contains(from, ip)
    ensures Contains(to, Convert(ip, from, to))
    ensures Convert(ip, from, to) - to.first == ip - from.first
    ensures Convert(Convert(ip, from, to), to, from) == ip
  {
    hide Valid, Contains, Convert, Size;
    ContainsIsRange(from, ip);
    ConvertIsShift(ip, from, to);
    ContainsIsRange(to, Convert(ip, from, to));
    ConvertIsShift(Convert(ip, from, to), to, from);
  }

  // ----- Configuration -----

  datatype ProxyNetwork = ProxyNetwork(cidr: Cidr, mapped: Option<Cidr>)

  predicate WellMapped(n: ProxyNetwork) {
    Valid(n.cidr) && (n.mapped.Some? ==> Valid(n.mapped.value) && n.mapped.value.len == n.cidr.len)
  }

  ghost predicate Distinct(networks: seq<ProxyNetwork>) {
    forall i, j :: 0 <= i < j < |networks| ==> networks[i] != networks[j]
  }

  class Config {
    var networks: seq<ProxyNetwork>

    constructor ()
      ensures networks == []
    {
      networks := [];
    }

    /** Refuses a mapping between blocks of different length; adds no duplicate. */
    method AddProxyCidr(cidr: Cidr, mapped: Option<Cidr>) returns (ok: bool)
      requires Valid(cidr) && (mapped.Some? ==> Valid(mapped.value))
      modifies this
      ensures ok <==> (mapped.Some? ==> mapped.value.len == cidr.len)
      ensures networks == if ok && ProxyNetwork(cidr, mapped) !in old(networks)
                          then old(networks) + [ProxyNetwork(cidr, mapped)] else old(networks)
      ensures (forall n :: n in old(networks) ==> WellMapped(n)) ==> forall n :: n in networks ==> WellMapped(n)
      ensures Distinct(old(networks)) ==> Distinct(networks)
    {
      if mapped.Some? && cidr.len != mapped.value.len {
        return false;
      }
      if ProxyNetwork(cidr, mapped) !in networks {
        networks := networks + [ProxyNetwork(cidr, mapped)];
      }
      ok := true;
    }
  }

  // ----- Lookup table -----

  datatype Table = Table(cidrs: seq<Cidr>, mappedToReal: map<Cidr, Cidr>)

  /** The table of the first `k` networks; a later mapping of the same block wins. */
  function Build(networks: seq<ProxyNetwork>, k: nat): Table
    requires k <= |networks|
  {
    if k == 0 then Table([], map[])
    else
      var t, realCidr := Build(networks, k - 1), networks[k - 1].cidr;
      var mapped := if networks[k - 1].mapped.Some? then networks[k - 1].mapped.value else realCidr;
      Table(t.cidrs + [mapped], if mapped != realCidr then t.mappedToReal[mapped := realCidr] else t.mappedToReal)
  }

  /** The table during a rebuild: the blocks of the first `m` networks and the mappings of the first `k`. */
  function Partial(networks: seq<ProxyNetwork>, m: nat, k: nat): Table
    requires m <= |networks| && k <= |networks|
  {
    Table(Build(networks, m).cidrs, Build(networks, k).mappedToReal)
  }

  /** The real address of `ip` in the listed block `c`. */
  function Found(t: Table, ip: Ip, c: Cidr): Ip {
    if c in t.mappedToReal then Convert(ip, c, t.mappedToReal[c]) else ip
  }

  /** The real address of `ip`, by the first listed block that contains it. */
  function Lookup(t: Table, ip: Ip, i: nat): Option<Ip>
    requires i <= |t.cidrs|
    decreases |t.cidrs| - i
  {
    if i == |t.cidrs| then None
    else
      var c := t.cidrs[i];
      if !Contains(c, ip) then Lookup(t, ip, i + 1)
      else Some(Found(t, ip, c))
  }

  function RealAddress(t: Table, ip: Ip): Option<Ip> {
    Lookup(t, ip, 0)
  }

  class CidrSet {
    var cidrs: seq<Cidr>
    var mappedToReal: map<Cidr, Cidr>

    function View(): Table
      reads this
    {
      Table(cidrs, mappedToReal)
    }

    constructor ()
      ensures View() == Table([], map[])
    {
      cidrs, mappedToReal := [], map[];
    }

    method Update(networks: seq<ProxyNetwork>)
      modifies this
      ensures View() == Build(networks, |networks|)
    {
      mappedToReal := map[];
      cidrs := [];
      for k := 0 to |networks|
        invariant View() == Build(networks, k)
      {
        var realCidr := networks[k].cidr;
        var mapped := if networks[k].mapped.Some? then networks[k].mapped.value else realCidr;
        cidrs := cidrs + [mapped];
        assert View() == Partial(networks, k + 1, k);
        if mapped != realCidr {
          mappedToReal := mappedToReal[mapped := realCidr];
        }
      }
    }

    /** `before` is what the caller's variable holds; it is overwritten only on a hit. */
    method ContainsV4(ip: Ip, before: Ip) returns (found: bool, realIp: Ip)
      ensures found == RealAddress(View(), ip).Some?
      ensures realIp == if found then RealAddress(View(), ip).value else before
    {
      realIp := before;
      for i := 0 to |cidrs|
        invariant realIp == before && Lookup(View(), ip, 0) == Lookup(View(), ip, i)
      {
        if Contains(cidrs[i], ip) {
          if cidrs[i] in mappedToReal {
            var converted := Host(Mask(cidrs[i].len), ip);
            converted := Join(converted, mappedToReal[cidrs[i]].first);
            return true, converted;
          } else {
            return true, ip;
          }
        }
      }
      found := false;
    }
  }

  // ----- What a lookup means -----

  /** The block under which clients see the network. */
  function Shown(n: ProxyNetwork): Cidr {
    match n.mapped
    case Some(c) => c
    case None => n.cidr
  }

  /** The network shows `c` in place of another block. */
  predicate Maps(n: ProxyNetwork, c: Cidr) {
    Shown(n) == c && n.cidr != c
  }

  /** Of the first `k` networks, the `j`-th is the last to map `c`. */
  predicate IsLastMapping(networks: seq<ProxyNetwork>, k: int, c: Cidr, j: int) {
    && 0 <= j < k <= |networks| && Maps(networks[j], c)
    && forall l :: j < l < k ==> !Maps(networks[l], c)
  }

  /** The real block behind `c` among the first `k` networks: the last mapping decides, without one `c` itself. */
  ghost function RealBlock(networks: seq<ProxyNetwork>, k: nat, c: Cidr): Cidr
    requires k <= |networks|
  {
    if exists j :: IsLastMapping(networks, k, c, j)
    then var j :| IsLastMapping(networks, k, c, j); networks[j].cidr
    else c
  }

  ghost predicate IsFirst(networks: seq<ProxyNetwork>, ip: Ip, k: int) {
    && 0 <= k < |networks| && Within(Shown(networks[k]), ip)
    && forall l :: 0 <= l < k ==> !Within(Shown(networks[l]), ip)
  }

  lemma {:induction false} BuildLists(networks: seq<ProxyNetwork>, k: nat)
    requires k <= |networks|
    ensures var t := Build(networks, k);
            |t.cidrs| == k && forall i :: 0 <= i < k ==> t.cidrs[i] == Shown(networks[i])
  {
    if k > 0 {
      BuildLists(networks, k - 1);
    }
  }

  /** The table holds for `c` the block of the last network that shows `c` in place of another one. */
  lemma {:induction false} MappingIsLast(networks: seq<ProxyNetwork>, k: nat, c: Cidr)
    requires k <= |networks|
    ensures var m := Build(networks, k).mappedToReal;
            if c in m then exists j :: IsLastMapping(networks, k, c, j) && m[c] == networks[j].cidr
            else forall j :: 0 <= j < k ==> !Maps(networks[j], c)
  {
    if k > 0 {
      MappingIsLast(networks, k - 1, c);
      var m := Build(networks, k - 1).mappedToReal;
      if Maps(networks[k - 1], c) {
        assert IsLastMapping(networks, k, c, k - 1);
      } else if c in m {
        var j :| IsLastMapping(networks, k - 1, c, j) && m[c] == networks[j].cidr;
        assert IsLastMapping(networks, k, c, j);
      }
    }
  }

  lemma {:induction false} TableGivesRealBlock(networks: seq<ProxyNetwork>, k: nat, c: Cidr)
    requires k <= |networks|
    ensures var m := Build(networks, k).mappedToReal;
            RealBlock(networks, k, c) == if c in m then m[c] else c
  {
    MappingIsLast(networks, k, c);
    var m := Build(networks, k).mappedToReal;
    if c in m {
      var j :| IsLastMapping(networks, k, c, j) && m[c] == networks[j].cidr;
      forall i | IsLastMapping(networks, k, c, i) ensures i == j {}
    }
  }

  /** `r` is in the block `b` where `ip` is in the block `c`. */
  ghost predicate SamePlace(ip: Ip, c: Cidr, r: Ip, b: Cidr) {
    Within(c, ip) && Within(b, r) && r - b.first == ip - c.first
  }

  lemma {:induction false} FirstIsMultiple(c: Cidr)
    requires Valid(c)
    ensures c.first % Size(c.len) == 0
  {
    HostOf(c.len, c.first);
  }

  /** Blocks of one length that share an address are one. */
  lemma {:induction false} BlocksAreDisjoint(a: Cidr, b: Cidr, r: Ip)
    requires Valid(a) && Valid(b) && a.len == b.len && Within(a, r) && Within(b, r)
    ensures a == b
  {
    hide Valid, Size;
    FirstIsMultiple(a);
    FirstIsMultiple(b);
    Multiple(r, a.first, Size(a.len));
    Multiple(r, b.first, Size(b.len));
  }

  /** A place is in one block only, and a block has one such place. */
  lemma {:induction false} PlaceIsUnique(ip: Ip, c: Cidr, r1: Ip, b1: Cidr, r2: Ip, b2: Cidr)
    requires SamePlace(ip, c, r1, b1) && SamePlace(ip, c, r2, b2) && Valid(b1) && Valid(b2) && b1.len == b2.len
    ensures r1 == r2 <==> b1 == b2
  {
    hide Valid, Size;
    if r1 == r2 {
      BlocksAreDisjoint(b1, b2, r1);
    }
  }

  /** The real block of a shown block is a valid block of the same length. */
  lemma {:induction false} RealBlockFits(networks: seq<ProxyNetwork>, k: nat, c: Cidr)
    requires k <= |networks| && Valid(c) && forall n :: n in networks ==> WellMapped(n)
    ensures var b := RealBlock(networks, k, c); Valid(b) && b.len == c.len
  {
    hide Valid;
    if exists j :: IsLastMapping(networks, k, c, j) {
      var j :| IsLastMapping(networks, k, c, j) && RealBlock(networks, k, c) == networks[j].cidr;
      assert networks[j] in networks;
    }
  }

  lemma {:induction false} LookupFindsFirst(t: Table, ip: Ip, i: nat)
    requires i <= |t.cidrs|
    ensures var r := Lookup(t, ip, i);
            if r.None? then forall k :: i <= k < |t.cidrs| ==> !Contains(t.cidrs[k], ip)
            else exists k :: && i <= k < |t.cidrs| && Contains(t.cidrs[k], ip)
                             && (forall l :: i <= l < k ==> !Contains(t.cidrs[l], ip))
                             && r.value == Found(t, ip, t.cidrs[k])
    decreases |t.cidrs| - i
  {
    hide Contains, Found;
    if i < |t.cidrs| && !Contains(t.cidrs[i], ip) {
      LookupFindsFirst(t, ip, i + 1);
    }
  }

  /** A lookup, at any moment of a rebuild: the first listed block that holds the address decides, and leads
      to the same place in the real block of the mappings made so far. */
  lemma {:induction false} LookupKeepsPlace(networks: seq<ProxyNetwork>, m: nat, k: nat, ip: Ip)
    requires m <= |networks| && k <= |networks| && forall n :: n in networks ==> WellMapped(n)
    ensures var r := RealAddress(Partial(networks, m, k), ip);
            if r.None? then forall i :: 0 <= i < m ==> !Within(Shown(networks[i]), ip)
            else exists j :: && 0 <= j < m && IsFirst(networks, ip, j)
                             && var c := Shown(networks[j]); SamePlace(ip, c, r.value, RealBlock(networks, k, c))
  {
    hide Contains, Convert, Valid, Build, Lookup, RealBlock, Within;
    var t := Partial(networks, m, k);
    BuildLists(networks, m);
    LookupFindsFirst(t, ip, 0);
    forall i | 0 <= i < m ensures Contains(t.cidrs[i], ip) <==> Within(Shown(networks[i]), ip) {
      assert networks[i] in networks;
      ContainsIsRange(t.cidrs[i], ip);
    }
    var r := RealAddress(t, ip);
    if r.Some? {
      var j :| && 0 <= j < |t.cidrs| && Contains(t.cidrs[j], ip)
               && (forall l :: 0 <= l < j ==> !Contains(t.cidrs[l], ip))
               && r.value == Found(t, ip, t.cidrs[j]);
      assert IsFirst(networks, ip, j);
      var c := t.cidrs[j];
      assert networks[j] in networks && Valid(c);
      TableGivesRealBlock(networks, k, c);
      RealBlockFits(networks, k, c);
      ConvertIsShift(ip, c, RealBlock(networks, k, c));
    }
  }

  /** In a configuration without duplicates, the first network that shows a block is the one behind it exactly
      if no later network shows that block in place of another one. A network that is not mapped is
      no exception: its own block may be shown for another one. */
  lemma {:induction false} FirstIsBehind(networks: seq<ProxyNetwork>, k: nat)
    requires k < |networks| && Distinct(networks)
    requires forall l :: 0 <= l < k ==> Shown(networks[l]) != Shown(networks[k])
    ensures var c := Shown(networks[k]);
            RealBlock(networks, |networks|, c) == networks[k].cidr <==>
              forall l :: k < l < |networks| ==> !Maps(networks[l], c)
  {
    var (n, c) := (|networks|, Shown(networks[k]));
    MappingIsLast(networks, n, c);
    if l :| k < l < n && Maps(networks[l], c) {
      var j :| IsLastMapping(networks, n, c, j) && RealBlock(networks, n, c) == networks[j].cidr;
      assert k < j && networks[j] != networks[k];
    } else if Maps(networks[k], c) {
      assert IsLastMapping(networks, n, c, k);
    }
  }

  /** An address is proxied exactly if a listed block contains it. The first such block decides; its real block
      is that of the last network that maps it, and so the real address lies in the network that was found
      exactly if that network's block is the one behind it: without duplicates, if no later one maps it. */
  lemma {:induction false} LookupTranslates(networks: seq<ProxyNetwork>, ip: Ip)
    requires forall n :: n in networks ==> WellMapped(n)
    ensures var r := RealAddress(Build(networks, |networks|), ip);
            if r.None? then forall i :: 0 <= i < |networks| ==> !Within(Shown(networks[i]), ip)
            else exists k :: && IsFirst(networks, ip, k)
                             && var c := Shown(networks[k]);
                                var b := RealBlock(networks, |networks|, c);
                                && SamePlace(ip, c, r.value, b)
                                && (Within(networks[k].cidr, r.value) <==> b == networks[k].cidr)
                                && (Distinct(networks) ==>
                                      (b == networks[k].cidr <==>
                                       forall l :: k < l < |networks| ==> !Maps(networks[l], c)))
  {
    hide Valid, Build, Lookup, RealBlock, Size;
    var t := Build(networks, |networks|);
    assert Partial(networks, |networks|, |networks|) == t;
    LookupKeepsPlace(networks, |networks|, |networks|, ip);
    var r := RealAddress(t, ip);
    if r.Some? {
      var k :| && 0 <= k < |networks| && IsFirst(networks, ip, k)
               && var c := Shown(networks[k]); SamePlace(ip, c, r.value, RealBlock(networks, |networks|, c));
      var c := Shown(networks[k]);
      assert networks[k] in networks;
      RealBlockFits(networks, |networks|, c);
      if Within(networks[k].cidr, r.value) {
        BlocksAreDisjoint(networks[k].cidr, RealBlock(networks, |networks|, c), r.value);
      }
      if Distinct(networks) {
        FirstIsBehind(networks, k);
      }
    }
  }

  /** The later of two networks that are shown as one block gets all its addresses. */
  lemma {:induction false} LaterMappingWins(first: ProxyNetwork, later: ProxyNetwork, m: Cidr, ip: Ip)
    requires WellMapped(first) && WellMapped(later) && Shown(first) == m && Maps(later, m) && Within(m, ip)
    ensures IsFirst([first, later], ip, 0)
    ensures RealAddress(Build([first, later], 2), ip) == Some(later.cidr.first + (ip - m.first))
  {
    hide Valid, Build, Lookup, Size, Within;
    var networks := [first, later];
    TableGivesRealBlock(networks, 2, m);
    assert IsLastMapping(networks, 2, m, 1);
    assert IsFirst(networks, ip, 0);
    LookupTranslates(networks, ip);
  }

  lemma {:induction false} BlockOfOne(n: ProxyNetwork)
    ensures RealBlock([n], 1, Shown(n)) == n.cidr
  {
    if Maps(n, Shown(n)) {
      assert IsLastMapping([n], 1, Shown(n), 0);
    }
  }

  lemma {:induction false} LookupOfOne(n: ProxyNetwork, ip: Ip)
    requires WellMapped(n)
    ensures RealAddress(Build([n], 1), ip)
            == if Within(Shown(n), ip) then Some(n.cidr.first + (ip - Shown(n).first)) else None
  {
    hide Valid, Build, Lookup, RealBlock, Size, Maps;
    BlockOfOne(n);
    LookupTranslates([n], ip);
    var r := RealAddress(Build([n], 1), ip);
    if r.Some? {
      var k :| IsFirst([n], ip, k) && SamePlace(ip, Shown([n][k]), r.value, RealBlock([n], 1, Shown([n][k])));
      assert k == 0;
    } else {
      assert !Within(Shown([n][0]), ip);
    }
  }

  /** One configured network: its mapped block, or its own if it has none, is proxied, by position. */
  lemma {:induction false} OneNetwork(n: ProxyNetwork, ip: Ip)
    requires WellMapped(n)
    ensures var c := if n.mapped.Some? then n.mapped.value else n.cidr;
            RealAddress(Build([n], 1), ip)
            == if c.first <= ip < c.first + Pow2(32 - c.len) then Some(n.cidr.first + (ip - c.first)) else None
  {
    LookupOfOne(n, ip);
    assert Shown(n).len <= 32;
    hide RealAddress, Build, Valid, Pow2;
  }

  /** During a rebuild a lookup already gives its final answer exactly if no network takes the address, or the
      first one that does is listed and the mappings made so far give its real block. */
  lemma {:induction false} LookupDuringRebuild(networks: seq<ProxyNetwork>, m: nat, k: nat, ip: Ip)
    requires k <= m <= |networks| && forall n :: n in networks ==> WellMapped(n)
    ensures RealAddress(Partial(networks, m, k), ip) == RealAddress(Build(networks, |networks|), ip) <==>
            forall j :: IsFirst(networks, ip, j) ==>
              && j < m
              && var c := Shown(networks[j]); RealBlock(networks, k, c) == RealBlock(networks, |networks|, c)
  {
    hide Valid, Build, Lookup, SamePlace, RealBlock;
    assert Partial(networks, |networks|, |networks|) == Build(networks, |networks|);
    LookupKeepsPlace(networks, |networks|, |networks|, ip);
    LookupKeepsPlace(networks, m, k, ip);
    var r := RealAddress(Partial(networks, m, k), ip);
    var f := RealAddress(Build(networks, |networks|), ip);
    if r.Some? && f.Some? {
      var j :| && 0 <= j < |networks| && IsFirst(networks, ip, j)
               && var c := Shown(networks[j]); SamePlace(ip, c, f.value, RealBlock(networks, |networks|, c));
      var i :| && 0 <= i < m && IsFirst(networks, ip, i)
               && var c := Shown(networks[i]); SamePlace(ip, c, r.value, RealBlock(networks, k, c));
      assert i == j;
      var c := Shown(networks[j]);
      assert networks[j] in networks;
      RealBlockFits(networks, k, c);
      RealBlockFits(networks, |networks|, c);
      PlaceIsUnique(ip, c, r.value, RealBlock(networks, k, c), f.value, RealBlock(networks, |networks|, c));
    }
  }

  /** At the first moment of a rebuild, the blocks of the old networks without mappings, a lookup already gives its
      final answer exactly if neither the old nor the new networks take the address, or both do and the
      first of the new ones that does leads to the shown block itself. */
  lemma {:induction false} LookupAfterClearing(stale: seq<ProxyNetwork>, networks: seq<ProxyNetwork>, ip: Ip)
    requires (forall n :: n in stale ==> WellMapped(n)) && forall n :: n in networks ==> WellMapped(n)
    ensures RealAddress(Partial(stale, |stale|, 0), ip) == RealAddress(Build(networks, |networks|), ip) <==>
            && ((exists i :: IsFirst(stale, ip, i)) <==> exists j :: IsFirst(networks, ip, j))
            && (forall j :: IsFirst(networks, ip, j) ==>
                  var c := Shown(networks[j]); RealBlock(networks, |networks|, c) == c)
  {
    hide Valid, Lookup, RealBlock, Build, Size;
    ClearedLookup(stale, ip);
    assert Partial(networks, |networks|, |networks|) == Build(networks, |networks|);
    LookupKeepsPlace(networks, |networks|, |networks|, ip);
    var f := RealAddress(Build(networks, |networks|), ip);
    if f.Some? {
      var j :| && 0 <= j < |networks| && IsFirst(networks, ip, j)
               && var c := Shown(networks[j]); SamePlace(ip, c, f.value, RealBlock(networks, |networks|, c));
      var c := Shown(networks[j]);
      assert networks[j] in networks;
      RealBlockFits(networks, |networks|, c);
      PlaceIsUnique(ip, c, ip, c, f.value, RealBlock(networks, |networks|, c));
      assert forall i :: IsFirst(networks, ip, i) ==> i == j;
    }
  }

  /** Without mappings every listed address is its own real address. */
  lemma {:induction false} ClearedLookup(stale: seq<ProxyNetwork>, ip: Ip)
    requires forall n :: n in stale ==> WellMapped(n)
    ensures RealAddress(Partial(stale, |stale|, 0), ip)
            == if exists i :: IsFirst(stale, ip, i) then Some(ip) else None
  {
    hide Valid, Lookup, RealBlock, Size;
    LookupKeepsPlace(stale, |stale|, 0, ip);
    var r := RealAddress(Partial(stale, |stale|, 0), ip);
    if r.Some? {
      var i :| && 0 <= i < |stale| && IsFirst(stale, ip, i)
               && var c := Shown(stale[i]); SamePlace(ip, c, r.value, RealBlock(stale, 0, c));
      var c := Shown(stale[i]);
      assert stale[i] in stale;
      TableGivesRealBlock(stale, 0, c);
      PlaceIsUnique(ip, c, ip, c, r.value, c);
    }
  }
}
