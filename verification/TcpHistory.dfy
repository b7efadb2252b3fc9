/** Which entry answers for a client, from the history of its SYNs and of the index, over any run of the
    TCP proxy; and what this means for one flow and for a client of a mapped network. */
module TcpHistory {
  import opened Wrappers
  import opened CidrSet
  import opened TcpNat
  import opened TcpFlows

  // ----- What happened to the source of a flow -----

  /** Of one source: the entry indexed last, and the entry made by the last SYN. */
  datatype History = History(indexed: Option<EntryId>, syn: EntryId)

  /** What the step adds to the history of `a`. */
  function Note(s: State, e: Event, a: Addr, h: History): History {
    if e.Syn? && e.src == a && e.id !in s.entries then h.(syn := e.id)
    else if e.AcceptIndex? && s.acceptor.Marked? && Holds(s, a) then h.(indexed := Some(s.acceptor.id))
    else h
  }

  function Recall(s: State, events: seq<Event>, a: Addr, h: History): History
    decreases |events|
  {
    if events == [] then h else Recall(Next(s, events[0]), events[1..], a, Note(s, events[0], a, h))
  }

  /** The connection of the entry is indexed: its task runs or is about to start. */
  predicate Served(s: State, id: EntryId) {
    id in s.tasks || s.acceptor == Indexed(id)
  }

  /** The SYN of the entry waits for its connection to be accepted. */
  predicate Pending(s: State, id: EntryId)
    requires id in s.entries
  {
    s.entries[id].state == SynReceived && s.acceptor != Unlisted(id)
  }

  /** The tables follow the history: the last indexed entry is indexed while it is served, the last SYN's entry
      is pending until it is taken or expires. */
  ghost predicate Follows(s: State, a: Addr, h: History) {
    && h.syn in s.entries && s.entries[h.syn].src == a
    && (a in s.syns <==> Pending(s, h.syn)) && (a in s.syns ==> s.syns[a] == h.syn)
    && (h.indexed.Some? ==> h.indexed.value in s.entries && s.entries[h.indexed.value].src == a)
    && (a in s.addrs <==> h.indexed.Some? && Served(s, h.indexed.value)) && (a in s.addrs ==> h.indexed == Some(s.addrs[a]))
  }

  lemma {:induction false} PendingStepFollows(s: State, e: Event, a: Addr, h: History)
    requires Inv(s) && Follows(s, a, h)
    requires e.Syn? || e.ExpireSyn? || e.AcceptLookup? || e.AcceptUnlist? || e.AcceptMark?
    ensures Follows(Next(s, e), a, Note(s, e, a, h))
  {
    hide TasksOk, AddrsOk;
  }

  lemma {:induction false} PublishStepFollows(s: State, e: Event, a: Addr, h: History)
    requires Inv(s) && Follows(s, a, h) && (e.AcceptIndex? || e.AcceptRegister?)
    ensures Follows(Next(s, e), a, Note(s, e, a, h))
  {
    hide TasksOk;
  }

  lemma {:induction false} ConnectStepFollows(s: State, e: Event, a: Addr, h: History)
    requires Inv(s) && Follows(s, a, h)
    requires e.ConnectFails? || e.ConnectSucceeds? || e.CopyEnds? || e.SrcShutDown? || e.DstShutDown?
    ensures Follows(Next(s, e), a, Note(s, e, a, h))
  {
    hide TasksOk, AddrsOk, AcceptorOk;
  }

  lemma {:induction false} LeaveStepFollows(s: State, e: Event, a: Addr, h: History)
    requires Inv(s) && Follows(s, a, h) && (e.LeaveConns? || e.LeaveAddrs?)
    ensures Follows(Next(s, e), a, Note(s, e, a, h))
  {
    hide TasksOk, AddrsOk, SynsOk;
  }

  lemma {:induction false} RunFollows(s: State, events: seq<Event>, a: Addr, h: History)
    requires Inv(s) && Follows(s, a, h)
    ensures var t := Run(s, events); Inv(t) && Follows(t, a, Recall(s, events, a, h))
    decreases |events|
  {
    if events != [] {
      hide Inv, Follows, Next, Note;
      var e := events[0];
      StepKeepsInv(s, e);
      if e.Syn? || e.ExpireSyn? || e.AcceptLookup? || e.AcceptUnlist? || e.AcceptMark? {
        PendingStepFollows(s, e, a, h);
      } else if e.AcceptIndex? || e.AcceptRegister? {
        PublishStepFollows(s, e, a, h);
      } else if e.LeaveConns? || e.LeaveAddrs? {
        LeaveStepFollows(s, e, a, h);
      } else {
        ConnectStepFollows(s, e, a, h);
      }
      RunFollows(Next(s, e), events[1..], a, Note(s, e, a, h));
    }
  }

  /** Entries keep all but their state. */
  lemma {:induction false} EntryStays(s: State, events: seq<Event>, id: EntryId)
    requires id in s.entries
    ensures var t := Run(s, events); id in t.entries && t.entries[id].(state := s.entries[id].state) == s.entries[id]
    decreases |events|
  {
    if events != [] {
      EntryStep(s, events[0], id);
      EntryStays(Next(s, events[0]), events[1..], id);
      hide Next;
    }
  }

  lemma {:induction false} EntryStep(s: State, e: Event, id: EntryId)
    requires id in s.entries
    ensures var t := Next(s, e); id in t.entries && t.entries[id].(state := s.entries[id].state) == s.entries[id]
  {}

  // ----- Which entry answers -----

  /** The last indexed entry if it is served in state `s`, else the entry of the last SYN if, after that, it is
      pending in state `t`. */
  ghost function Answering(s: State, before: History, t: State, after: History): Option<NatEntry> {
    if before.indexed.Some? && before.indexed.value in s.entries && Served(s, before.indexed.value)
    then Some(s.entries[before.indexed.value])
    else if after.syn in t.entries && Pending(t, after.syn) then Some(t.entries[after.syn])
    else None
  }

  lemma {:induction false} HistoryAnswers(s: State, before: History, t: State, after: History, a: Addr)
    requires Inv(s) && Inv(t) && Follows(s, a, before) && Follows(t, a, after)
    ensures EntryFor(s, t, a) == Answering(s, before, t, after)
    ensures Listed(s, t, a) <==> Answering(s, before, t, after).Some?
  {
    hide TasksOk, AcceptorOk;
  }

  lemma {:induction false} SynFollows(s: State, e: Event)
    requires Inv(s) && e.Syn? && e.id !in s.entries
    ensures Follows(Next(s, e), e.src, History(if e.src in s.addrs then Some(s.addrs[e.src]) else None, e.id))
  {
  }

  /** A flow of a distinguishable client over any run, whatever SYNs of its source it holds and whatever older
      connections there were: its entry keeps its destination; replies come from what was dialled to make
      the entry that answers by the history, and packets of the client are taken exactly if there is one. */
  lemma {:induction false} FlowRoundTrip(l: Local, s: State, p: Tcp, realIp: Ip, id: EntryId, now: nat,
                                         events: seq<Event>, between: seq<Event>, syn: bool, ack: bool)
    requires Inv(s) && p.syn && !p.ack && id !in s.entries && Distinguishable(l, p.src.ip)
    ensures var (s', q) := HandlePeerPacket(l, s, s, p, realIp, id, now).value;
            var t := Run(s', events);
            var u := Run(t, between);
            var before := Recall(s', events, p.src, History(if p.src in s.addrs then Some(s.addrs[p.src]) else None, id));
            var z := Answering(t, before, u, Recall(t, between, p.src, before));
            && id in u.entries && u.entries[id].realDst == Addr(realIp, p.dst.port) && Dialled(u.entries[id]) == p.dst
            && HandleNicPacket(l, t, u, Reply(q, syn, ack))
               == (if z.Some? then Rewritten(Tcp(Dialled(z.value), p.src, syn, ack)) else NotProxied)
            && (!(syn && !ack) ==>
                  HandlePeerPacket(l, t, u, p.(syn := syn, ack := ack), realIp, id, now)
                  == if z.Some? then Some((u, ToListener(l, p.(syn := syn, ack := ack)))) else None)
  {
    var e := Syn(id, p.src, Addr(realIp, p.dst.port), p.dst, now);
    var s' := Next(s, e);
    var h0 := History(if p.src in s.addrs then Some(s.addrs[p.src]) else None, id);
    assert s'.entries[id] == NatEntry(p.src, Addr(realIp, p.dst.port), p.dst, now, SynReceived);
    hide Inv, HandleNicPacket, Next, Follows, Answering, Run, Recall, Distinguishable, EntryFor;
    StepKeepsInv(s, e);
    SynFollows(s, e);
    RunFollows(s', events, p.src, h0);
    var t, before := Run(s', events), Recall(s', events, p.src, h0);
    RunFollows(t, between, p.src, before);
    var u, after := Run(t, between), Recall(t, between, p.src, before);
    EntryStays(s', events, id);
    EntryStays(t, between, id);
    HistoryAnswers(t, before, u, after, p.src);
    ReturnPath(l, t, u, p, syn, ack);
  }

  // ----- How long a SYN waits -----

  /** No step of the run displaces the entry `id` of a SYN of `a` at time `now`: no newer SYN makes an entry, the accept loop
      does not take it, and no expiry comes more than half a minute later. */
  ghost predicate LeftAlone(s: State, events: seq<Event>, a: Addr, id: EntryId, now: nat) {
    forall k :: 0 <= k < |events| ==>
      var (t, e) := (At(s, events, k), events[k]);
      && !(e.Syn? && e.src == a && e.id !in t.entries)
      && !(e.AcceptUnlist? && t.acceptor == Found(id, a))
      && (e.ExpireSyn? && e.src == a ==> e.now <= now + 30)
  }

  ghost predicate IsPendingAt(s: State, a: Addr, id: EntryId) {
    a in s.syns && s.syns[a] == id
  }

  /** The entry of a SYN waits throughout a run exactly if it is left alone. */
  lemma {:induction false} SynWaits(l: Local, s: State, p: Tcp, realIp: Ip, id: EntryId, now: nat, events: seq<Event>)
    requires Inv(s) && p.syn && !p.ack && id !in s.entries
    ensures var s' := HandlePeerPacket(l, s, s, p, realIp, id, now).value.0;
            (forall n :: 0 <= n <= |events| ==> IsPendingAt(At(s', events, n), p.src, id)) <==>
            LeftAlone(s', events, p.src, id, now)
  {
    var e := Syn(id, p.src, Addr(realIp, p.dst.port), p.dst, now);
    var s' := Next(s, e);
    StepKeepsInv(s, e);
    assert s'.entries[id].start == now && IsPendingAt(s', p.src, id);
    hide Inv, Next, Run;
    WaitsUpTo(s', events, p.src, id, now, |events|);
  }

  lemma {:induction false} WaitsUpTo(s: State, events: seq<Event>, a: Addr, id: EntryId, now: nat, n: nat)
    requires Inv(s) && n <= |events| && IsPendingAt(s, a, id) && id in s.entries && s.entries[id].start == now
    ensures (forall k :: 0 <= k <= n ==> IsPendingAt(At(s, events, k), a, id)) <==>
            forall k :: 0 <= k < n ==>
              var (t, e) := (At(s, events, k), events[k]);
              && !(e.Syn? && e.src == a && e.id !in t.entries)
              && !(e.AcceptUnlist? && t.acceptor == Found(id, a))
              && (e.ExpireSyn? && e.src == a ==> e.now <= now + 30)
  {
    hide Inv, Next, Run;
    if n == 0 {
      StartOfRun(s, events);
    } else {
      WaitsUpTo(s, events, a, id, now, n - 1);
      var t := At(s, events, n - 1);
      RunKeepsInv(s, events[..n - 1]);
      EntryStays(s, events[..n - 1], id);
      AtNext(s, events, n - 1);
      if IsPendingAt(t, a, id) {
        PendingChanges(t, events[n - 1], a);
      }
    }
  }

  // ----- One flow without others of its source -----

  ghost predicate NoSynOf(events: seq<Event>, a: Addr) {
    forall e :: e in events ==> !(e.Syn? && e.src == a)
  }

  /** Whatever answers for the source of the entry `made`, now or later, is that entry, under `id`. */
  ghost predicate Sole(s: State, id: EntryId, made: NatEntry) {
    && id in s.entries && s.entries[id].(state := made.state) == made
    && (made.src in s.syns ==> s.syns[made.src] == id)
    && (made.src in s.addrs ==> s.addrs[made.src] == id)
    && (Holds(s, made.src) ==> s.acceptor.id == id)
  }

  /** The accept loop has taken the entry out of the pending ones. */
  predicate Handed(s: State, id: EntryId) {
    (s.acceptor.Unlisted? || s.acceptor.Marked? || s.acceptor.Indexed?) && s.acceptor.id == id
  }

  /** An entry is pending, being accepted, served or closed; while it is served it is indexed. */
  ghost predicate Phased(s: State, id: EntryId) {
    && id in s.entries
    && (id in s.tasks ==> InAddrs(s, id) && s.entries[id].state != SynReceived)
    && (id in s.tasks && (s.tasks[id].Leaving? || s.tasks[id].Forgetting?) ==> s.entries[id].state == Closed)
    && (!InSyns(s, id) && !Handed(s, id) && id !in s.tasks ==> s.entries[id].state == Closed)
  }

  lemma {:induction false} PendingStepKeepsSole(s: State, e: Event, id: EntryId, made: NatEntry)
    requires Inv(s) && Sole(s, id, made) && NoSynOf([e], made.src)
    requires e.Syn? || e.ExpireSyn? || e.AcceptLookup? || e.AcceptUnlist? || e.AcceptMark?
    ensures Sole(Next(s, e), id, made)
  {
    hide TasksOk, AddrsOk;
    assert e in [e];
  }

  lemma {:induction false} OpenStepKeepsSole(s: State, e: Event, id: EntryId, made: NatEntry)
    requires Inv(s) && Sole(s, id, made)
    requires !(e.Syn? || e.ExpireSyn? || e.AcceptLookup? || e.AcceptUnlist? || e.AcceptMark?)
    ensures Sole(Next(s, e), id, made)
  {
    hide TasksOk, AddrsOk, SynsOk;
  }

  lemma {:induction false} PendingStepKeepsPhased(s: State, e: Event, id: EntryId, made: NatEntry)
    requires Inv(s) && Sole(s, id, made) && Phased(s, id) && NoSynOf([e], made.src)
    requires e.Syn? || e.ExpireSyn? || e.AcceptLookup? || e.AcceptUnlist? || e.AcceptMark?
    ensures Phased(Next(s, e), id)
  {
    assert e in [e];
  }

  lemma {:induction false} OpenStepKeepsPhased(s: State, e: Event, id: EntryId, made: NatEntry)
    requires Inv(s) && Sole(s, id, made) && Phased(s, id)
    requires !(e.Syn? || e.ExpireSyn? || e.AcceptLookup? || e.AcceptUnlist? || e.AcceptMark?)
    ensures Phased(Next(s, e), id)
  {
    hide AddrsOk, SynsOk;
  }

  lemma {:induction false} RunKeepsSole(s: State, events: seq<Event>, id: EntryId, made: NatEntry)
    requires Inv(s) && Sole(s, id, made) && Phased(s, id) && NoSynOf(events, made.src)
    ensures var t := Run(s, events); Inv(t) && Sole(t, id, made) && Phased(t, id)
    decreases |events|
  {
    if events != [] {
      hide Inv, Sole, Phased, Next;
      var e := events[0];
      StepKeepsInv(s, e);
      if e.Syn? || e.ExpireSyn? || e.AcceptLookup? || e.AcceptUnlist? || e.AcceptMark? {
        PendingStepKeepsSole(s, e, id, made);
        PendingStepKeepsPhased(s, e, id, made);
      } else {
        OpenStepKeepsSole(s, e, id, made);
        OpenStepKeepsPhased(s, e, id, made);
      }
      RunKeepsSole(Next(s, e), events[1..], id, made);
    }
  }

  /** The accept loop has taken the entry out of the pending ones and not yet indexed it, or the entry is closed
      and its connection, if any, is gone. */
  predicate Unknown(s: State, id: EntryId)
    requires id in s.entries
  {
    || s.acceptor == Unlisted(id) || s.acceptor == Marked(id)
    || (s.entries[id].state == Closed && id !in s.tasks)
  }

  lemma {:induction false} PhaseDecides(s: State, id: EntryId, made: NatEntry)
    requires Inv(s) && Sole(s, id, made) && Phased(s, id)
    ensures Served(s, id) <==> made.src in s.addrs
    ensures Pending(s, id) <==> made.src in s.syns
    ensures Unknown(s, id) <==> !Served(s, id) && !Pending(s, id)
    ensures !(Served(s, id) && Pending(s, id))
  {
  }

  /** A flow of a distinguishable client whose source has no older flow, over any run without another SYN of that
      source: the connection goes to the destination of its SYN; replies are restored, and further packets of
      the client taken, exactly if the flow is served at the first lookup or pending at the second. Of being
      served, pending and unknown to the proxy exactly one holds. */
  lemma {:induction false} LoneFlow(l: Local, s: State, p: Tcp, realIp: Ip, id: EntryId, now: nat,
                                         events: seq<Event>, between: seq<Event>, syn: bool, ack: bool)
    requires Inv(s) && p.syn && !p.ack && id !in s.entries && Distinguishable(l, p.src.ip)
    requires p.src !in s.addrs && !Holds(s, p.src) && NoSynOf(events, p.src) && NoSynOf(between, p.src)
    ensures var (s', q) := HandlePeerPacket(l, s, s, p, realIp, id, now).value;
            var t := Run(s', events);
            var u := Run(t, between);
            && id in t.entries && t.entries[id].realDst == Addr(realIp, p.dst.port) && id in u.entries
            && (Unknown(t, id) <==> !Served(t, id) && !Pending(t, id)) && !(Served(t, id) && Pending(t, id))
            && HandleNicPacket(l, t, u, Reply(q, syn, ack))
               == (if Served(t, id) || Pending(u, id) then Rewritten(Tcp(p.dst, p.src, syn, ack)) else NotProxied)
            && (!(syn && !ack) ==>
                  HandlePeerPacket(l, t, u, p.(syn := syn, ack := ack), realIp, id, now)
                  == if Served(t, id) || Pending(u, id) then Some((u, ToListener(l, p.(syn := syn, ack := ack)))) else None)
  {
    var e := Syn(id, p.src, Addr(realIp, p.dst.port), p.dst, now);
    var made := NatEntry(p.src, Addr(realIp, p.dst.port), p.dst, now, SynReceived);
    var s' := Next(s, e);
    assert Sole(s', id, made) && Phased(s', id) by {
      assert s'.entries[id] == made;
    }
    StepKeepsInv(s, e);
    RunKeepsSole(s', events, id, made);
    var t := Run(s', events);
    RunKeepsSole(t, between, id, made);
    var u := Run(t, between);
    PhaseDecides(t, id, made);
    PhaseDecides(u, id, made);
    ReturnPath(l, t, u, p, syn, ack);
    hide Inv, HandleNicPacket, Next, Unknown, Served, Pending, Run;
  }

  /** Even a lone flow is unknown for a while: between its removal from the pending entries and its entry
      into the index, its reply is not restored and its client's packets are not taken. */
  lemma {:induction false} HandoverGap(l: Local, x: Addr, d: Addr)
    requires Distinguishable(l, x.ip)
    ensures var (s', q) := HandlePeerPacket(l, INITIAL, INITIAL, Tcp(x, d, true, false), d.ip, 0, 0).value;
            var t := Run(s', [AcceptLookup(x), AcceptUnlist]);
            && HandleNicPacket(l, t, t, Reply(q, true, true)) == NotProxied
            && HandlePeerPacket(l, t, t, Tcp(x, d, false, true), d.ip, 1, 0) == None
  {
    var p := Tcp(x, d, true, false);
    LoneFlow(l, INITIAL, p, d.ip, 0, 0, [AcceptLookup(x), AcceptUnlist], [], true, true);
    var s' := HandlePeerPacket(l, INITIAL, INITIAL, p, d.ip, 0, 0).value.0;
    RunOfTwo(s', AcceptLookup(x), AcceptUnlist);
  }

  // ----- Which packets are proxied -----

  /** `ownIp` is the virtual address of this node, `noTun` that it has no network device of its own. */
  datatype Gateway = Gateway(local: Local, table: Table, exitNode: bool, noTun: bool, ownIp: Option<Ip>)

  /** The real destination of a packet for `dst`, if the proxy takes it. */
  function Admit(g: Gateway, dst: Ip, viaExitNode: bool): Option<Ip> {
    if g.table.cidrs == [] && !g.exitNode && !g.noTun then None
    else
      var r := RealAddress(g.table, dst);
      if r.Some? then r
      else if viaExitNode || (g.noTun && g.ownIp == Some(dst)) then Some(dst)
      else None
  }

  /** A packet is taken exactly if its destination is in the shown block of a proxied network or, where the node proxies
      anything at all, is sent through it as an exit node or to its own address without a network device; the latter
      two keep their destination. */
  lemma {:induction false} AdmitsExactly(g: Gateway, networks: seq<ProxyNetwork>, dst: Ip, viaExitNode: bool)
    requires g.table == Build(networks, |networks|) && forall n :: n in networks ==> WellMapped(n)
    ensures var (r, shown) := (Admit(g, dst, viaExitNode), exists k :: IsFirst(networks, dst, k));
            && (r.Some? <==> shown || ((networks != [] || g.exitNode || g.noTun)
                                       && (viaExitNode || (g.noTun && g.ownIp.Some? && g.ownIp.value == dst))))
            && (r.Some? && !shown ==> r.value == dst)
            && (forall k :: IsFirst(networks, dst, k) ==>
                  var c := Shown(networks[k]); r.Some? && SamePlace(dst, c, r.value, RealBlock(networks, |networks|, c)))
  {
    hide Within, SamePlace, RealBlock, Build;
    LookupTranslates(networks, dst);
    BuildLists(networks, |networks|);
  }

  /** A client that dials a proxied network, over any run: the connection goes to the same place in the configured
      real block, and exactly while the entry that answers was made by dialling the same address, the client
      sees replies from it. */
  lemma {:induction false} MappedFlow(g: Gateway, networks: seq<ProxyNetwork>, k: nat, s: State, p: Tcp, id: EntryId,
                                      now: nat, events: seq<Event>, between: seq<Event>, syn: bool, ack: bool)
    requires g.table == Build(networks, |networks|) && forall n :: n in networks ==> WellMapped(n)
    requires IsFirst(networks, p.dst.ip, k)
    requires Inv(s) && p.syn && !p.ack && id !in s.entries && Distinguishable(g.local, p.src.ip)
    ensures var (dest, c) := (Admit(g, p.dst.ip, false), Shown(networks[k]));
            && dest.Some? && SamePlace(p.dst.ip, c, dest.value, RealBlock(networks, |networks|, c))
            && var (s', q) := HandlePeerPacket(g.local, s, s, p, dest.value, id, now).value;
               var t := Run(s', events);
               var u := Run(t, between);
               var before := Recall(s', events, p.src, History(if p.src in s.addrs then Some(s.addrs[p.src]) else None, id));
               var z := Answering(t, before, u, Recall(t, between, p.src, before));
               && id in u.entries && u.entries[id].realDst == Addr(dest.value, p.dst.port)
               && (HandleNicPacket(g.local, t, u, Reply(q, syn, ack)) == Rewritten(Tcp(p.dst, p.src, syn, ack)) <==>
                   z.Some? && Dialled(z.value) == p.dst)
               && (HandleNicPacket(g.local, t, u, Reply(q, syn, ack)) == NotProxied <==> z.None?)
  {
    hide Contains, SamePlace, RealBlock, Build, Inv, HandleNicPacket, Next, Run, Answering, Recall, Dialled;
    LookupTranslates(networks, p.dst.ip);
    BuildLists(networks, |networks|);
    var r := RealAddress(g.table, p.dst.ip);
    assert r.Some?;
    assert Admit(g, p.dst.ip, false) == r;
    FlowRoundTrip(g.local, s, p, r.value, id, now, events, between, syn, ack);
  }
}
