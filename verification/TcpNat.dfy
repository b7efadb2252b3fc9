/** The TCP proxy's connection tables under every interleaving of SYN arrival, SYN expiry,
    accept, connect and close. */
module TcpNat {
  import opened Wrappers
  import opened CidrSet

  type EntryId = nat

  datatype Addr = Addr(ip: Ip, port: nat)

  datatype NatState = SynReceived | ConnectingDst | Connected | ClosingSrc | ClosingDst | Closed

  datatype NatEntry = NatEntry(src: Addr, realDst: Addr, mappedDst: Addr, start: nat, state: NatState)

  /** The accept loop, between its accesses to the shared maps. */
  datatype Acceptor =
    | Waiting
    | Found(id: EntryId, at: Addr)
    | Unlisted(id: EntryId)
    | Marked(id: EntryId)
    | Indexed(id: EntryId)

  /** The task of one accepted connection. */
  datatype Task = Connecting | Copying | ShuttingSrc | ShuttingDst | Leaving | Forgetting

  /** `entries` are all entries ever made, by their unique id; the maps refer to them. `failed` records
      that a run-time assertion did not hold. */
  datatype State = State(
    entries: map<EntryId, NatEntry>, syns: map<Addr, EntryId>, conns: set<EntryId>, addrs: map<Addr, EntryId>,
    acceptor: Acceptor, tasks: map<EntryId, Task>, failed: bool)

  const INITIAL := State(map[], map[], {}, map[], Waiting, map[], false)
  const SYN_TIMEOUT := 30

  datatype Event =
    | Syn(id: EntryId, src: Addr, realDst: Addr, mappedDst: Addr, now: nat)
    | ExpireSyn(src: Addr, now: nat)
    | AcceptLookup(at: Addr)
    | AcceptUnlist
    | AcceptMark
    | AcceptIndex
    | AcceptRegister
    | ConnectFails(id: EntryId)
    | ConnectSucceeds(id: EntryId)
    | CopyEnds(id: EntryId)
    | SrcShutDown(id: EntryId)
    | DstShutDown(id: EntryId)
    | LeaveConns(id: EntryId)
    | LeaveAddrs(id: EntryId)

  function Set(s: State, id: EntryId, st: NatState): State
    requires id in s.entries
  {
    s.(entries := s.entries[id := s.entries[id].(state := st)])
  }

  function Require(s: State, holds: bool): State {
    if holds then s else s.(failed := true)
  }

  predicate TaskAt(s: State, id: EntryId, t: Task) {
    id in s.tasks && s.tasks[id] == t && id in s.entries
  }

  /** Removes the entry under `a` only if it is `id`. */
  function RemoveIf(m: map<Addr, EntryId>, a: Addr, id: EntryId): map<Addr, EntryId> {
    if a in m && m[a] == id then m - {a} else m
  }

  /** The effect of an atomic step; a step that is not enabled changes nothing. */
  function Next(s: State, e: Event): State {
    match e
    case Syn(id, src, realDst, mappedDst, now) =>
      if id in s.entries then s
      else s.(entries := s.entries[id := NatEntry(src, realDst, mappedDst, now, SynReceived)], syns := s.syns[src := id])
    case ExpireSyn(src, now) =>
      if src in s.syns && s.syns[src] in s.entries && now - s.entries[s.syns[src]].start > SYN_TIMEOUT
      then Set(s, s.syns[src], Closed).(syns := s.syns - {src})
      else s
    case AcceptLookup(at) =>
      if s.acceptor.Waiting? && at in s.syns && s.syns[at] in s.entries
      then Require(s, s.entries[s.syns[at]].state == SynReceived).(acceptor := Found(s.syns[at], at))
      else s
    case AcceptUnlist =>
      if s.acceptor.Found?
      then s.(syns := RemoveIf(s.syns, s.acceptor.at, s.acceptor.id), acceptor := Unlisted(s.acceptor.id))
      else s
    case AcceptMark =>
      if s.acceptor.Unlisted? && s.acceptor.id in s.entries
      then Set(s, s.acceptor.id, ConnectingDst).(acceptor := Marked(s.acceptor.id))
      else s
    case AcceptIndex =>
      if s.acceptor.Marked? && s.acceptor.id in s.entries
      then s.(addrs := s.addrs[s.entries[s.acceptor.id].src := s.acceptor.id], acceptor := Indexed(s.acceptor.id))
      else s
    case AcceptRegister =>
      if s.acceptor.Indexed?
      then Require(s, s.acceptor.id !in s.conns).(conns := s.conns + {s.acceptor.id},
              tasks := s.tasks[s.acceptor.id := Connecting], acceptor := Waiting)
      else s
    case ConnectFails(id) =>
      if TaskAt(s, id, Connecting) then Set(s, id, Closed).(tasks := s.tasks[id := Leaving]) else s
    case ConnectSucceeds(id) =>
      if TaskAt(s, id, Connecting)
      then Set(Require(s, s.entries[id].state == ConnectingDst), id, Connected).(tasks := s.tasks[id := Copying])
      else s
    case CopyEnds(id) =>
      if TaskAt(s, id, Copying) then Set(s, id, ClosingSrc).(tasks := s.tasks[id := ShuttingSrc]) else s
    case SrcShutDown(id) =>
      if TaskAt(s, id, ShuttingSrc) then Set(s, id, ClosingDst).(tasks := s.tasks[id := ShuttingDst]) else s
    case DstShutDown(id) =>
      if TaskAt(s, id, ShuttingDst) then Set(s, id, Closed).(tasks := s.tasks[id := Leaving]) else s
    case LeaveConns(id) =>
      if TaskAt(s, id, Leaving) then s.(conns := s.conns - {id}, tasks := s.tasks[id := Forgetting]) else s
    case LeaveAddrs(id) =>
      if TaskAt(s, id, Forgetting)
      then s.(addrs := RemoveIf(s.addrs, s.entries[id].src, id), tasks := s.tasks - {id})
      else s
  }

  function Run(s: State, events: seq<Event>): State
    decreases |events|
  {
    if events == [] then s else Run(Next(s, events[0]), events[1..])
  }

  // ----- What every interleaving keeps -----

  /** The entry is pending: listed under its own source. */
  predicate InSyns(s: State, id: EntryId) {
    id in s.entries && s.entries[id].src in s.syns && s.syns[s.entries[id].src] == id
  }

  /** The entry is indexed under its own source. */
  predicate InAddrs(s: State, id: EntryId) {
    id in s.entries && s.entries[id].src in s.addrs && s.addrs[s.entries[id].src] == id
  }

  /** Entries waiting for an accept are fresh and listed under their own source. */
  ghost predicate SynsOk(s: State) {
    forall a :: a in s.syns ==>
      && s.syns[a] in s.entries && s.entries[s.syns[a]].src == a
      && s.entries[s.syns[a]].state == SynReceived
      && s.syns[a] !in s.tasks
  }

  ghost predicate AcceptorOk(s: State) {
    !s.acceptor.Waiting? ==>
      && s.acceptor.id in s.entries && s.acceptor.id !in s.tasks
      && (s.acceptor.Found? ==> s.entries[s.acceptor.id].src == s.acceptor.at)
      && (!s.acceptor.Found? ==> !InSyns(s, s.acceptor.id))
      && (s.acceptor.Marked? || s.acceptor.Indexed? ==> s.entries[s.acceptor.id].state == ConnectingDst)
      && (s.acceptor.Indexed? ==> InAddrs(s, s.acceptor.id))
  }

  /** The state that an entry shows while its connection's task is at `t`. */
  function StateOf(t: Task): NatState {
    match t
    case Connecting => ConnectingDst
    case Copying => Connected
    case ShuttingSrc => ClosingSrc
    case ShuttingDst => ClosingDst
    case Leaving => Closed
    case Forgetting => Closed
  }

  ghost predicate TasksOk(s: State) {
    && (forall id :: id in s.tasks ==> id in s.entries)
    && (forall id :: id in s.tasks ==> s.entries[id].state == StateOf(s.tasks[id]))
    && (forall id :: id in s.conns <==> id in s.tasks && !s.tasks[id].Forgetting?)
  }

  /** Indexed entries are keyed by their own source and belong to a running connection. */
  ghost predicate AddrsOk(s: State) {
    forall a :: a in s.addrs ==>
      && s.addrs[a] in s.entries && s.entries[s.addrs[a]].src == a
      && (s.addrs[a] in s.tasks || (s.acceptor.Indexed? && s.acceptor.id == s.addrs[a]))
  }

  ghost predicate Inv(s: State) {
    SynsOk(s) && AcceptorOk(s) && TasksOk(s) && AddrsOk(s) && !s.failed
  }

  lemma {:induction false} SynStepKeepsInv(s: State, e: Event)
    requires Inv(s) && (e.Syn? || e.ExpireSyn?)
    ensures Inv(Next(s, e))
  {}

  lemma {:induction false} AcceptStepKeepsInv(s: State, e: Event)
    requires Inv(s) && (e.AcceptLookup? || e.AcceptUnlist? || e.AcceptMark?)
    ensures Inv(Next(s, e))
  {}

  lemma {:induction false} PublishStepKeepsInv(s: State, e: Event)
    requires Inv(s) && (e.AcceptIndex? || e.AcceptRegister?)
    ensures Inv(Next(s, e))
  {}

  lemma {:induction false} ConnectStepKeepsInv(s: State, e: Event)
    requires Inv(s) && (e.ConnectFails? || e.ConnectSucceeds?)
    ensures Inv(Next(s, e))
  {}

  lemma {:induction false} CloseStepKeepsInv(s: State, e: Event)
    requires Inv(s) && (e.CopyEnds? || e.SrcShutDown?)
    ensures Inv(Next(s, e))
  {}

  lemma {:induction false} ClosedStepKeepsInv(s: State, e: Event)
    requires Inv(s) && e.DstShutDown?
    ensures Inv(Next(s, e))
  {}

  lemma {:induction false} LeaveStepKeepsInv(s: State, e: Event)
    requires Inv(s) && (e.LeaveConns? || e.LeaveAddrs?)
    ensures Inv(Next(s, e))
  {}

  lemma {:induction false} StepKeepsInv(s: State, e: Event)
    requires Inv(s)
    ensures Inv(Next(s, e))
  {
    hide Inv, Next;
    if e.Syn? || e.ExpireSyn? {
      SynStepKeepsInv(s, e);
    } else if e.AcceptLookup? || e.AcceptUnlist? || e.AcceptMark? {
      AcceptStepKeepsInv(s, e);
    } else if e.AcceptIndex? || e.AcceptRegister? {
      PublishStepKeepsInv(s, e);
    } else if e.LeaveConns? || e.LeaveAddrs? {
      LeaveStepKeepsInv(s, e);
    } else if e.ConnectFails? || e.ConnectSucceeds? {
      ConnectStepKeepsInv(s, e);
    } else if e.DstShutDown? {
      ClosedStepKeepsInv(s, e);
    } else {
      CloseStepKeepsInv(s, e);
    }
  }

  lemma {:induction false} RunKeepsInv(s: State, events: seq<Event>)
    requires Inv(s)
    ensures Inv(Run(s, events))
    decreases |events|
  {
    if events != [] {
      StepKeepsInv(s, events[0]);
      RunKeepsInv(Next(s, events[0]), events[1..]);
    }
  }

  /** The three run-time assertions: an accepted entry is a pending one, a registered one is new, and a connected one was
      connecting. A step that finds otherwise is recorded as failed. */
  lemma {:induction false} AssertionsAreChecked(s: State, e: Event)
    requires !s.failed
    ensures Next(s, e).failed <==>
            || (e.AcceptLookup? && s.acceptor.Waiting? && e.at in s.syns && s.syns[e.at] in s.entries
                && s.entries[s.syns[e.at]].state != SynReceived)
            || (e.AcceptRegister? && s.acceptor.Indexed? && s.acceptor.id in s.conns)
            || (e.ConnectSucceeds? && TaskAt(s, e.id, Connecting) && s.entries[e.id].state != ConnectingDst)
  {}

  /** In no interleaving does a run-time assertion fail. */
  lemma {:induction false} NoAssertionFails(events: seq<Event>)
    ensures !Run(INITIAL, events).failed
  {
    RunKeepsInv(INITIAL, events);
  }

  /** Between accepts and closes, every indexed entry is a registered connection of its own source. */
  lemma {:induction false} IndexIsRegistered(events: seq<Event>)
    ensures var s := Run(INITIAL, events);
            !s.acceptor.Indexed? && (forall id :: id in s.tasks ==> !s.tasks[id].Forgetting?) ==>
              forall a :: a in s.addrs ==>
                s.addrs[a] in s.conns && s.addrs[a] in s.entries && s.entries[s.addrs[a]].src == a
  {
    RunKeepsInv(INITIAL, events);
  }

  /** The task `t` comes after the task `s` of a connection. */
  predicate ComesAfter(s: Task, t: Task) {
    match s
    case Connecting => t.Copying? || t.Leaving?
    case Copying => t.ShuttingSrc?
    case ShuttingSrc => t.ShuttingDst?
    case ShuttingDst => t.Leaving?
    case Leaving => t.Forgetting?
    case Forgetting => false
  }

  /** A connection starts by connecting, goes through its tasks in order, and ends by leaving the index. */
  lemma {:induction false} TaskStep(s: State, e: Event, id: EntryId)
    requires Inv(s)
    ensures var t := Next(s, e);
            && (id in s.tasks && id in t.tasks && t.tasks[id] != s.tasks[id] ==> ComesAfter(s.tasks[id], t.tasks[id]))
            && (id !in s.tasks && id in t.tasks ==> t.tasks[id].Connecting?)
            && (id in s.tasks && id !in t.tasks ==> s.tasks[id].Forgetting?)
  {
    hide SynsOk, AddrsOk, TasksOk;
  }

  /** In every run, a connection shows the state that its task is in. */
  lemma {:induction false} StateFollowsTask(events: seq<Event>, id: EntryId)
    ensures var s := Run(INITIAL, events);
            id in s.tasks ==>
              && id in s.entries
              && s.entries[id].state == match s.tasks[id]
                                        case Connecting => ConnectingDst
                                        case Copying => Connected
                                        case ShuttingSrc => ClosingSrc
                                        case ShuttingDst => ClosingDst
                                        case Leaving => Closed
                                        case Forgetting => Closed
  {
    RunKeepsInv(INITIAL, events);
    hide SynsOk, AddrsOk, AcceptorOk, Run;
  }

  /** A pending entry stays pending exactly if the step is not a SYN of its source that makes a newer entry, its removal
      by the accept loop, or an expiry more than half a minute after its SYN. */
  lemma {:induction false} PendingChanges(s: State, e: Event, a: Addr)
    requires Inv(s) && a in s.syns
    ensures var (t, id) := (Next(s, e), s.syns[a]);
            && id in s.entries
            && (a in t.syns && t.syns[a] == id <==>
                && !(e.Syn? && e.src == a && e.id !in s.entries)
                && !(e.AcceptUnlist? && s.acceptor == Found(id, a))
                && !(e.ExpireSyn? && e.src == a && e.now > s.entries[id].start + 30))
  {
    hide TasksOk, AddrsOk;
  }

  /** An index entry stays, except that its own connection takes it out or an accept replaces it by a
      newer connection of the same source. */
  lemma {:induction false} IndexChanges(s: State, e: Event, a: Addr)
    requires Inv(s) && a in s.addrs
    ensures var t := Next(s, e);
            || (a in t.addrs && t.addrs[a] == s.addrs[a])
            || e == LeaveAddrs(s.addrs[a])
            || (e.AcceptIndex? && a in t.addrs && s.acceptor == Marked(t.addrs[a]) && t.entries[t.addrs[a]].src == a)
  {
    hide SynsOk, TasksOk, AddrsOk;
  }

  /** Nothing but the record of all entries refers to the entry. */
  ghost predicate Gone(s: State, id: EntryId) {
    && id in s.entries && id !in s.conns && id !in s.tasks
    && (s.acceptor.Waiting? || s.acceptor.id != id)
    && (forall a :: a in s.syns ==> s.syns[a] != id)
    && (forall a :: a in s.addrs ==> s.addrs[a] != id)
  }

  lemma {:induction false} GoneStaysGone(s: State, id: EntryId, events: seq<Event>)
    requires Gone(s, id)
    ensures Gone(Run(s, events), id)
    decreases |events|
  {
    if events != [] {
      hide Gone, Next;
      GoneStep(s, id, events[0]);
      GoneStaysGone(Next(s, events[0]), id, events[1..]);
    }
  }

  lemma {:induction false} GoneStep(s: State, id: EntryId, e: Event)
    requires Gone(s, id)
    ensures Gone(Next(s, e), id)
  {}

  lemma {:induction false} ForgettingLasts(s: State, id: EntryId, events: seq<Event>)
    requires Inv(s) && TaskAt(s, id, Forgetting) && LeaveAddrs(id) !in events
    ensures TaskAt(Run(s, events), id, Forgetting)
    decreases |events|
  {
    if events != [] {
      ForgettingStep(s, id, events[0]);
      StepKeepsInv(s, events[0]);
      ForgettingLasts(Next(s, events[0]), id, events[1..]);
    }
  }

  lemma {:induction false} ForgettingStep(s: State, id: EntryId, e: Event)
    requires Inv(s) && TaskAt(s, id, Forgetting) && e != LeaveAddrs(id)
    ensures TaskAt(Next(s, e), id, Forgetting)
  {
    hide SynsOk, TasksOk, AddrsOk;
  }

  /** A connection closes in two steps, with any steps of others in between: it takes only its own entry
      out of the index, so a newer connection of the same source stays reachable, and nothing in the
      rest of the run brings it back. */
  lemma {:induction false} CloseLeavesNewer(s: State, id: EntryId, between: seq<Event>, after: seq<Event>)
    requires Inv(s) && TaskAt(s, id, Leaving) && LeaveAddrs(id) !in between
    ensures var t := Run(Next(s, LeaveConns(id)), between);
            var u := Next(t, LeaveAddrs(id));
            && (forall a :: a in u.addrs <==> a in t.addrs && t.addrs[a] != id)
            && (forall a :: a in u.addrs ==> u.addrs[a] == t.addrs[a])
            && Gone(Run(u, after), id)
  {
    hide Gone, Next;
    LeaveStepKeepsInv(s, LeaveConns(id));
    ClosingStarts(s, id);
    var t := Run(Next(s, LeaveConns(id)), between);
    RunKeepsInv(Next(s, LeaveConns(id)), between);
    ForgettingLasts(Next(s, LeaveConns(id)), id, between);
    ClosingEnds(t, id);
    GoneStaysGone(Next(t, LeaveAddrs(id)), id, after);
  }

  lemma {:induction false} ClosingStarts(s: State, id: EntryId)
    requires TaskAt(s, id, Leaving)
    ensures TaskAt(Next(s, LeaveConns(id)), id, Forgetting)
  {}

  lemma {:induction false} ClosingEnds(t: State, id: EntryId)
    requires Inv(t) && TaskAt(t, id, Forgetting)
    ensures var u := Next(t, LeaveAddrs(id));
            && Gone(u, id)
            && (forall a :: a in u.addrs <==> a in t.addrs && t.addrs[a] != id)
            && (forall a :: a in u.addrs ==> u.addrs[a] == t.addrs[a])
  {}

  // ----- Packet rewriting -----

  /** What the proxy knows about itself: its address, the network address of its prefix (used as a
      stand-in for its own address), its listening port, and whether its own network stack is in use. */
  datatype Local = Local(ip: Ip, network: Ip, port: nat, ownStack: bool)

  datatype Tcp = Tcp(src: Addr, dst: Addr, syn: bool, ack: bool)

  datatype FromNic = NotProxied | Rewritten(packet: Tcp) | AssertionFailed

  /** A packet is redirected to the local listener; the stand-in replaces the proxy's own address. */
  function ToListener(l: Local, p: Tcp): Tcp {
    var src := if !l.ownStack && p.src.ip == l.ip then Addr(l.network, p.src.port) else p.src;
    Tcp(src, Addr(l.ip, l.port), p.syn, p.ack)
  }

  /** A packet from a peer for a proxied address, whose real address is `realIp`: a SYN makes a fresh
      entry, other packets need one; the packet then goes to the local listener. The index is looked up
      in state `s`, the pending entries after it, in state `t`. */
  function HandlePeerPacket(l: Local, s: State, t: State, p: Tcp, realIp: Ip, id: EntryId, now: nat)
    : Option<(State, Tcp)>
  {
    if p.syn && !p.ack then Some((Next(s, Syn(id, p.src, Addr(realIp, p.dst.port), p.dst, now)), ToListener(l, p)))
    else if p.src !in s.addrs && p.src !in t.syns then None
    else Some((t, ToListener(l, p)))
  }

  /** The entry that answers for `a`: an accepted connection in state `s` before a pending SYN in state `t`. */
  function EntryFor(s: State, t: State, a: Addr): Option<NatEntry> {
    if a in s.addrs && s.addrs[a] in s.entries then Some(s.entries[s.addrs[a]])
    else if a in t.syns && t.syns[a] in t.entries then Some(t.entries[t.syns[a]])
    else None
  }

  /** The address a client dialled to make the entry. */
  function Dialled(e: NatEntry): Addr {
    Addr(e.mappedDst.ip, e.realDst.port)
  }

  /** A packet of the local listener back to a client gets the source that the client dialled. The index is
      looked up in state `s`, the pending entries after it, in state `t`. */
  function HandleNicPacket(l: Local, s: State, t: State, p: Tcp): FromNic {
    if p.src != Addr(l.ip, l.port) then NotProxied
    else
      var disguised := !l.ownStack && p.dst.ip == l.network;
      var dst := if disguised then Addr(l.ip, p.dst.port) else p.dst;
      var e := EntryFor(s, t, dst);
      if e.None? then NotProxied
      else if e.value.src != dst then AssertionFailed
      else Rewritten(p.(src := Dialled(e.value), dst := dst))
  }

  function Reply(p: Tcp, syn: bool, ack: bool): Tcp {
    Tcp(p.dst, p.src, syn, ack)
  }

  /** The client is not confused with the stand-in for the proxy's own address. */
  predicate Distinguishable(l: Local, client: Ip) {
    l.ownStack || client != l.network || l.ip == l.network
  }

  /** In all reachable states the lookups of the return path find entries under their own source. */
  lemma {:induction false} NicPathIsSafe(l: Local, s: State, t: State, p: Tcp)
    requires Inv(s) && Inv(t)
    ensures !HandleNicPacket(l, s, t, p).AssertionFailed?
    ensures HandleNicPacket(l, s, t, p).Rewritten? ==> p.src == Addr(l.ip, l.port)
  {
    hide TasksOk, AcceptorOk;
  }

  /** What happens to the reply to a redirected packet of a client. */
  lemma {:induction false} ReturnPath(l: Local, s: State, t: State, p: Tcp, syn: bool, ack: bool)
    requires Inv(s) && Inv(t)
    ensures var (r, e) := (HandleNicPacket(l, s, t, Reply(ToListener(l, p), syn, ack)), EntryFor(s, t, p.src));
            if Distinguishable(l, p.src.ip)
            then r == if e.Some? then Rewritten(Tcp(Dialled(e.value), p.src, syn, ack)) else NotProxied
            else r.Rewritten? ==> r.packet.dst != p.src
  {
    hide TasksOk, AcceptorOk;
  }

  /** What is taken goes to the local listener with its flags, from the client's own port; with the kernel's stack it never
      comes from the proxy's own address unless that is its stand-in. */
  lemma {:induction false} RedirectedToListener(l: Local, s: State, t: State, p: Tcp, realIp: Ip, id: EntryId, now: nat)
    ensures var h := HandlePeerPacket(l, s, t, p, realIp, id, now);
            h.Some? ==>
              var q := h.value.1;
              && q.dst.ip == l.ip && q.dst.port == l.port && q.syn == p.syn && q.ack == p.ack && q.src.port == p.src.port
              && (q.src.ip == if !l.ownStack && p.src.ip == l.ip then l.network else p.src.ip)
  {}

  /** The virtual address of this node and the network address of its prefix. */
  datatype Inet = Inet(ip: Ip, network: Ip)

  /** Where the accept loop looks up a peer: the stand-in means the node's own address. */
  function AcceptAddress(own: Option<Inet>, peer: Addr): Addr {
    if own.Some? && peer.ip == own.value.network then Addr(own.value.ip, peer.port) else peer
  }

  /** The accept loop uses the node's virtual address with either stack, the rewriting only with the
      kernel's. A waiting accept loop finds the entry of a rewritten SYN exactly if the client's address
      is not the stand-in of another one. */
  lemma {:induction false} AcceptFindsSyn(l: Local, own: Option<Inet>, s: State, p: Tcp, realIp: Ip, id: EntryId,
                                          now: nat)
    requires Inv(s) && p.syn && !p.ack && id !in s.entries && s.acceptor.Waiting?
    requires !l.ownStack ==> own == Some(Inet(l.ip, l.network))
    ensures var (s', q) := HandlePeerPacket(l, s, s, p, realIp, id, now).value;
            Next(s', AcceptLookup(AcceptAddress(own, q.src))).acceptor == Found(id, p.src) <==>
              own.None? || p.src.ip != own.value.network || own.value.ip == own.value.network
  {
    hide TasksOk, AcceptorOk, AddrsOk;
  }

  /** A packet that is no SYN is taken exactly if its source has an entry; the reply that the same entry gets
      comes from the address that was dialled to make it. */
  lemma {:induction false} EstablishedRoundTrip(l: Local, s: State, t: State, p: Tcp, realIp: Ip, id: EntryId, now: nat,
                                                syn: bool, ack: bool)
    requires Inv(s) && Inv(t) && !(p.syn && !p.ack) && Distinguishable(l, p.src.ip)
    ensures var (h, e) := (HandlePeerPacket(l, s, t, p, realIp, id, now), EntryFor(s, t, p.src));
            && (h.Some? <==> e.Some?)
            && (h.Some? ==>
                  && h.value.0 == t
                  && HandleNicPacket(l, s, t, Reply(h.value.1, syn, ack))
                     == Rewritten(Tcp(Dialled(e.value), p.src, syn, ack)))
  {
    ReturnPath(l, s, t, p, syn, ack);
    hide TasksOk, AcceptorOk, HandleNicPacket;
  }
}
