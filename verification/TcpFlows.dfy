/** Flows through the TCP proxy over whole runs: when a client's packets and the replies to them
    are rewritten so that the client sees the address it dialled. */
module TcpFlows {
  import opened CidrSet
  import opened TcpNat

  /** The proxy finds an entry for packets from and to `a`, in the index in state `s` or, after that, among the
      pending ones in state `t`. */
  predicate Listed(s: State, t: State, a: Addr) {
    a in s.addrs || a in t.syns
  }

  /** The accept loop is busy with an entry of source `a`. */
  predicate Holds(s: State, a: Addr) {
    !s.acceptor.Waiting? && s.acceptor.id in s.entries && s.entries[s.acceptor.id].src == a
  }

  /** Every reply to the rewritten packet `q` of the client packet `p` is restored if the client is listed,
      and is otherwise not taken for a proxied packet. */
  ghost predicate AnswersIfListed(l: Local, s: State, t: State, p: Tcp, q: Tcp) {
    forall syn, ack :: HandleNicPacket(l, s, t, Reply(q, syn, ack))
                    == if Listed(s, t, p.src) then Rewritten(Tcp(p.dst, p.src, syn, ack)) else NotProxied
  }

  // ----- Runs in which no SYN of the source dials elsewhere -----

  predicate Dials(e: Event, a: Addr, d: Addr) {
    e.Syn? && e.src == a ==> Addr(e.mappedDst.ip, e.realDst.port) == d
  }

  /** Further SYNs of `a`, such as repetitions of the first one, dial `d` too. */
  ghost predicate Undisturbed(events: seq<Event>, a: Addr, d: Addr) {
    forall e :: e in events ==> Dials(e, a, d)
  }

  /** No accepted connection of `a`, and none being accepted, was made by dialling anything but `d`. */
  ghost predicate NoOlderFlow(s: State, a: Addr, d: Addr) {
    && (a in s.addrs ==> s.addrs[a] in s.entries && Dialled(s.entries[s.addrs[a]]) == d)
    && (Holds(s, a) ==> Dialled(s.entries[s.acceptor.id]) == d)
  }

  /** All entries that answer for `a`, or may come to do so without another SYN, were made by dialling `d`. */
  ghost predicate Leads(s: State, a: Addr, d: Addr) {
    NoOlderFlow(s, a, d) && (a in s.syns ==> s.syns[a] in s.entries && Dialled(s.entries[s.syns[a]]) == d)
  }

  lemma {:induction false} PendingStepKeepsLeads(s: State, e: Event, a: Addr, d: Addr)
    requires Inv(s) && Leads(s, a, d) && Dials(e, a, d)
    requires e.Syn? || e.ExpireSyn? || e.AcceptLookup? || e.AcceptUnlist? || e.AcceptMark?
    ensures Leads(Next(s, e), a, d)
  {
    hide TasksOk, AddrsOk;
  }

  lemma {:induction false} OpenStepKeepsLeads(s: State, e: Event, a: Addr, d: Addr)
    requires Inv(s) && Leads(s, a, d)
    requires !(e.Syn? || e.ExpireSyn? || e.AcceptLookup? || e.AcceptUnlist? || e.AcceptMark?)
    ensures Leads(Next(s, e), a, d)
  {
    hide TasksOk, AddrsOk, SynsOk;
  }

  lemma {:induction false} StepKeepsLeads(s: State, e: Event, a: Addr, d: Addr)
    requires Inv(s) && Leads(s, a, d) && Dials(e, a, d)
    ensures Leads(Next(s, e), a, d)
  {
    hide Inv, Leads, Next, Dials;
    if e.Syn? || e.ExpireSyn? || e.AcceptLookup? || e.AcceptUnlist? || e.AcceptMark? {
      PendingStepKeepsLeads(s, e, a, d);
    } else {
      OpenStepKeepsLeads(s, e, a, d);
    }
  }

  lemma {:induction false} RunKeepsLeads(s: State, events: seq<Event>, a: Addr, d: Addr)
    requires Inv(s) && Leads(s, a, d) && Undisturbed(events, a, d)
    ensures Leads(Run(s, events), a, d)
    decreases |events|
  {
    if events != [] {
      hide Inv, Leads, Next, Dials;
      StepKeepsInv(s, events[0]);
      StepKeepsLeads(s, events[0], a, d);
      RunKeepsLeads(Next(s, events[0]), events[1..], a, d);
    }
  }

  lemma {:induction false} LeadsAnswers(l: Local, s: State, t: State, p: Tcp, q: Tcp)
    requires Inv(s) && Inv(t) && Leads(s, p.src, p.dst) && Leads(t, p.src, p.dst)
    requires Distinguishable(l, p.src.ip) && q == ToListener(l, p)
    ensures AnswersIfListed(l, s, t, p, q)
  {
    hide HandleNicPacket, TasksOk, AcceptorOk;
    forall syn, ack ensures HandleNicPacket(l, s, t, Reply(q, syn, ack))
                         == if Listed(s, t, p.src) then Rewritten(Tcp(p.dst, p.src, syn, ack)) else NotProxied {
      ReturnPath(l, s, t, p, syn, ack);
    }
  }

  /** Whatever happens after a SYN, before and between the lookups for a reply, as long as no SYN of the same
      source dials elsewhere, replies are restored. */
  ghost predicate AlwaysAnswers(l: Local, s: State, p: Tcp, q: Tcp) {
    forall events, between :: Undisturbed(events, p.src, p.dst) && Undisturbed(between, p.src, p.dst) ==>
      var t := Run(s, events);
      AnswersIfListed(l, t, Run(t, between), p, q)
  }

  lemma {:induction false} SynLeads(s: State, e: Event, a: Addr, d: Addr)
    requires Inv(s) && e.Syn? && e.id !in s.entries && e.src == a && Dials(e, a, d) && NoOlderFlow(s, a, d)
    ensures Leads(Next(s, e), a, d)
  {
    hide TasksOk;
  }

  lemma {:induction false} RunsAnswer(l: Local, s: State, p: Tcp, q: Tcp)
    requires Inv(s) && Leads(s, p.src, p.dst) && Distinguishable(l, p.src.ip) && q == ToListener(l, p)
    ensures AlwaysAnswers(l, s, p, q)
  {
    hide Inv, Leads, AnswersIfListed, Distinguishable, Run;
    forall events, between | Undisturbed(events, p.src, p.dst) && Undisturbed(between, p.src, p.dst)
      ensures var t := Run(s, events); AnswersIfListed(l, t, Run(t, between), p, q)
    {
      var t := Run(s, events);
      RunKeepsInv(s, events);
      RunKeepsLeads(s, events, p.src, p.dst);
      RunKeepsInv(t, between);
      RunKeepsLeads(t, between, p.src, p.dst);
      LeadsAnswers(l, t, Run(t, between), p, q);
    }
  }

  /** In particular the reply to both lookups in one state is restored. */
  lemma {:induction false} AnsweredIn(l: Local, s: State, p: Tcp, events: seq<Event>)
    requires AlwaysAnswers(l, s, p, ToListener(l, p)) && Undisturbed(events, p.src, p.dst)
    ensures var t := Run(s, events);
            HandleNicPacket(l, t, t, Reply(ToListener(l, p), false, false))
            == if Listed(t, t, p.src) then Rewritten(Tcp(p.dst, p.src, false, false)) else NotProxied
  {
    hide HandleNicPacket;
    var t := Run(s, events);
    assert Undisturbed([], p.src, p.dst);
    assert Run(t, []) == t;
  }

  const FINISH_ACCEPT := [AcceptUnlist, AcceptMark, AcceptIndex]

  /** The accept loop is busy with entry `id` of source `a`, made by dialling `d`. */
  ghost predicate Accepting(s: State, a: Addr, id: EntryId, d: Addr) {
    && Holds(s, a) && s.acceptor.id == id && Dialled(s.entries[id]) == d
    && (s.acceptor.Indexed? ==> InAddrs(s, id))
  }

  lemma {:induction false} UnlistAdvances(s: State, a: Addr, id: EntryId, d: Addr)
    requires Accepting(s, a, id, d)
    ensures var t := Next(s, AcceptUnlist); Accepting(t, a, id, d) && !t.acceptor.Found?
  {}

  lemma {:induction false} MarkAdvances(s: State, a: Addr, id: EntryId, d: Addr)
    requires Accepting(s, a, id, d) && !s.acceptor.Found?
    ensures var t := Next(s, AcceptMark); Accepting(t, a, id, d) && (t.acceptor.Marked? || t.acceptor.Indexed?)
  {}

  lemma {:induction false} IndexAdvances(s: State, a: Addr, id: EntryId, d: Addr)
    requires Accepting(s, a, id, d) && (s.acceptor.Marked? || s.acceptor.Indexed?)
    ensures var t := Next(s, AcceptIndex); Accepting(t, a, id, d) && t.acceptor.Indexed?
  {}

  /** The accept loop goes on to index the entry it holds. */
  lemma {:induction false} AcceptGetsIndexed(s: State, a: Addr, id: EntryId, d: Addr)
    requires Accepting(s, a, id, d)
    ensures var t := Run(s, FINISH_ACCEPT);
            a in t.addrs && t.addrs[a] == id && id in t.entries && Dialled(t.entries[id]) == d
  {
    RunOfAccept(s);
    hide Run, Next;
    UnlistAdvances(s, a, id, d);
    MarkAdvances(Next(s, AcceptUnlist), a, id, d);
    IndexAdvances(Next(Next(s, AcceptUnlist), AcceptMark), a, id, d);
  }

  lemma {:induction false} RunOfAccept(s: State)
    ensures Run(s, FINISH_ACCEPT) == Next(Next(Next(s, AcceptUnlist), AcceptMark), AcceptIndex)
  {
    hide Next;
    assert FINISH_ACCEPT[1..] == [AcceptMark, AcceptIndex];
    assert FINISH_ACCEPT[1..][1..] == [AcceptIndex];
    assert FINISH_ACCEPT[1..][1..][1..] == [];
  }

  /** Rewriting in the two directions undoes itself, in every run after a SYN in which no later SYN of the source
      dials elsewhere, exactly if the client's address is distinguishable and no older flow of the source
      leads elsewhere. */
  lemma {:induction false} UndisturbedRoundTrip(l: Local, s: State, p: Tcp, realIp: Ip, id: EntryId, now: nat)
    requires Inv(s) && p.syn && !p.ack && id !in s.entries
    ensures var h := HandlePeerPacket(l, s, s, p, realIp, id, now);
            && h.Some?
            && (AlwaysAnswers(l, h.value.0, p, h.value.1) <==>
                Distinguishable(l, p.src.ip) && NoOlderFlow(s, p.src, p.dst))
  {
    hide Inv, Next, AlwaysAnswers, Leads;
    var e := Syn(id, p.src, Addr(realIp, p.dst.port), p.dst, now);
    var s' := Next(s, e);
    StepKeepsInv(s, e);
    if Distinguishable(l, p.src.ip) && NoOlderFlow(s, p.src, p.dst) {
      SynLeads(s, e, p.src, p.dst);
      RunsAnswer(l, s', p, ToListener(l, p));
    }
    if AlwaysAnswers(l, s', p, ToListener(l, p)) {
      AnsweredAtOnce(l, s, p, e);
      HeldLeads(l, s, p, e);
    }
  }

  lemma {:induction false} AnsweredAtOnce(l: Local, s: State, p: Tcp, e: Event)
    requires Inv(s) && e.Syn? && e.id !in s.entries && e.src == p.src
    requires AlwaysAnswers(l, Next(s, e), p, ToListener(l, p))
    ensures Distinguishable(l, p.src.ip)
    ensures p.src in s.addrs ==> s.addrs[p.src] in s.entries && Dialled(s.entries[s.addrs[p.src]]) == p.dst
  {
    var s' := Next(s, e);
    StepKeepsInv(s, e);
    assert Listed(s', s', p.src) && EntryFor(s', s', p.src).Some?;
    assert p.src in s.addrs ==> EntryFor(s', s', p.src).value == s.entries[s.addrs[p.src]];
    hide Inv, HandleNicPacket, Next, EntryFor;
    AnsweredIn(l, s', p, []);
    ReturnPath(l, s', s', p, false, false);
  }

  lemma {:induction false} HeldLeads(l: Local, s: State, p: Tcp, e: Event)
    requires Inv(s) && e.Syn? && e.id !in s.entries && Distinguishable(l, p.src.ip)
    requires AlwaysAnswers(l, Next(s, e), p, ToListener(l, p))
    ensures Holds(s, p.src) ==> Dialled(s.entries[s.acceptor.id]) == p.dst
  {
    if Holds(s, p.src) {
      var s' := Next(s, e);
      StepKeepsInv(s, e);
      assert Accepting(s', p.src, s.acceptor.id, Dialled(s.entries[s.acceptor.id]));
      AcceptGetsIndexed(s', p.src, s.acceptor.id, Dialled(s.entries[s.acceptor.id]));
      RunKeepsInv(s', FINISH_ACCEPT);
      AnsweredIn(l, s', p, FINISH_ACCEPT);
      var t := Run(s', FINISH_ACCEPT);
      ReturnPath(l, t, t, p, false, false);
      hide HandleNicPacket, Inv, Next, Run;
    }
  }

  /** The condition on the accept loop is needed: it can hold an older entry of the same source, which it
      then puts in front of the new one. */
  lemma {:induction false} OlderAcceptWins(l: Local, x: Addr, d1: Addr, d2: Addr)
    requires Distinguishable(l, x.ip) && d1 != d2
    ensures var s := Run(INITIAL, [Syn(0, x, d1, d1, 0), AcceptLookup(x)]);
            var p := Tcp(x, d2, true, false);
            var (s', q) := HandlePeerPacket(l, s, s, p, d2.ip, 1, 0).value;
            var t := Run(s', FINISH_ACCEPT);
            && x !in s.addrs && x in s'.syns && s'.syns[x] == 1
            && HandleNicPacket(l, t, t, Reply(q, true, true)) == Rewritten(Tcp(d1, x, true, true))
  {
    var s1 := Next(INITIAL, Syn(0, x, d1, d1, 0));
    var s := Next(s1, AcceptLookup(x));
    assert Run(INITIAL, [Syn(0, x, d1, d1, 0), AcceptLookup(x)]) == s by {
      RunOfTwo(INITIAL, Syn(0, x, d1, d1, 0), AcceptLookup(x));
    }
    var p := Tcp(x, d2, true, false);
    var (s', q) := HandlePeerPacket(l, s, s, p, d2.ip, 1, 0).value;
    assert Inv(s');
    assert Accepting(s', x, 0, d1);
    AcceptGetsIndexed(s', x, 0, d1);
    RunKeepsInv(s', FINISH_ACCEPT);
    ReturnPath(l, Run(s', FINISH_ACCEPT), Run(s', FINISH_ACCEPT), p, true, true);
  }

  lemma {:induction false} RunOfTwo(s: State, e1: Event, e2: Event)
    ensures Run(s, [e1, e2]) == Next(Next(s, e1), e2)
  {
    hide Next;
    calc {
      Run(s, [e1, e2]);
      { assert [e1, e2][1..] == [e2]; }
      Run(Next(s, e1), [e2]);
      { assert [e2][1..] == []; }
      Run(Next(Next(s, e1), e2), []);
    }
  }

  /** The restriction on later SYNs is needed: the connection of a newer one takes the place of the older flow. */
  lemma {:induction false} NewerAcceptWins(l: Local, x: Addr, d1: Addr, d2: Addr)
    requires Distinguishable(l, x.ip) && d1 != d2
    ensures var p := Tcp(x, d1, true, false);
            var (s', q) := HandlePeerPacket(l, INITIAL, INITIAL, p, d1.ip, 0, 0).value;
            var t := Run(s', [Syn(1, x, d2, d2, 0), AcceptLookup(x)] + FINISH_ACCEPT);
            && NoOlderFlow(INITIAL, x, d1)
            && HandleNicPacket(l, t, t, Reply(q, true, true)) == Rewritten(Tcp(d2, x, true, true))
  {
    var p := Tcp(x, d1, true, false);
    var s' := HandlePeerPacket(l, INITIAL, INITIAL, p, d1.ip, 0, 0).value.0;
    var e1, e2 := Syn(1, x, d2, d2, 0), AcceptLookup(x);
    var s2 := Next(Next(s', e1), e2);
    RunOfTwo(s', e1, e2);
    RunOfBoth(s', [e1, e2], FINISH_ACCEPT);
    assert Inv(s2) && Accepting(s2, x, 1, d2);
    AcceptGetsIndexed(s2, x, 1, d2);
    RunKeepsInv(s2, FINISH_ACCEPT);
    ReturnPath(l, Run(s2, FINISH_ACCEPT), Run(s2, FINISH_ACCEPT), p, true, true);
  }

  lemma {:induction false} RunOfBoth(s: State, first: seq<Event>, second: seq<Event>)
    ensures Run(s, first + second) == Run(Run(s, first), second)
    decreases |first|
  {
    hide Next;
    if first == [] {
      assert first + second == second;
    } else {
      RunOfBoth(Next(s, first[0]), first[1..], second);
      assert (first + second)[1..] == first[1..] + second;
    }
  }

  // ----- Any run -----

  /** The state after the first `n` steps. */
  function At(s: State, events: seq<Event>, n: nat): State
    requires n <= |events|
  {
    Run(s, events[..n])
  }

  lemma {:induction false} AtNext(s: State, events: seq<Event>, n: nat)
    requires n < |events|
    ensures At(s, events, n + 1) == Next(At(s, events, n), events[n])
  {
    hide Next;
    assert events[..n + 1] == events[..n] + [events[n]];
    RunOfBoth(s, events[..n], [events[n]]);
    RunOfOne(At(s, events, n), events[n]);
  }

  lemma {:induction false} RunOfOne(s: State, e: Event)
    ensures Run(s, [e]) == Next(s, e)
  {
    hide Next;
    assert [e][1..] == [];
  }

  /** A SYN of `a` that makes an entry for another destination than `d`. */
  predicate DialsElsewhere(s: State, e: Event, a: Addr, d: Addr) {
    e.Syn? && e.id !in s.entries && !Dials(e, a, d)
  }

  /** The accept loop indexes an entry of `a` that was made by dialling elsewhere. */
  predicate IndexesElsewhere(s: State, e: Event, a: Addr, d: Addr) {
    e.AcceptIndex? && s.acceptor.Marked? && Holds(s, a) && Dialled(s.entries[s.acceptor.id]) != d
  }

  /** The connection indexed for `a` takes its entry out of the index. */
  predicate Unindexes(s: State, e: Event, a: Addr) {
    e.LeaveAddrs? && TaskAt(s, e.id, Forgetting) && a in s.addrs && s.addrs[a] == e.id
  }

  /** `a` has a pending entry that was made by dialling elsewhere. */
  predicate Crossed(s: State, a: Addr, d: Addr) {
    a in s.syns && s.syns[a] in s.entries && Dialled(s.entries[s.syns[a]]) != d
  }

  /** The index leads from `a` to nothing but `d`. */
  predicate Straight(s: State, a: Addr, d: Addr) {
    a in s.addrs ==> s.addrs[a] in s.entries && Dialled(s.entries[s.addrs[a]]) == d
  }

  /** No step of the run leads replies for `a` away from `d`: no entry made by dialling elsewhere is indexed, none
      comes to light when a connection leaves the index, and a SYN dials elsewhere only behind an index entry
      that has been there all along. */
  ghost predicate Unbroken(s: State, events: seq<Event>, a: Addr, d: Addr) {
    forall k :: 0 <= k < |events| ==>
      var (t, e) := (At(s, events, k), events[k]);
      && !IndexesElsewhere(t, e, a, d)
      && !(Unindexes(t, e, a) && Crossed(t, a, d))
      && (DialsElsewhere(t, e, a, d) ==> forall n :: 0 <= n <= k ==> a in At(s, events, n).addrs)
  }

  /** At every moment of the run, and with any of its steps between the two lookups, replies are restored. */
  ghost predicate AnsweredThroughout(l: Local, s: State, events: seq<Event>, p: Tcp, q: Tcp) {
    forall n, m :: 0 <= n <= m <= |events| ==> AnswersIfListed(l, At(s, events, n), At(s, events, m), p, q)
  }

  /** For a distinguishable client, exactly the dialled destination of the entry found matters. */
  lemma {:induction false} AnswersIffDialled(l: Local, s: State, t: State, p: Tcp)
    requires Inv(s) && Inv(t) && Distinguishable(l, p.src.ip)
    ensures AnswersIfListed(l, s, t, p, ToListener(l, p)) <==>
            Straight(s, p.src, p.dst) && (p.src !in s.addrs ==> !Crossed(t, p.src, p.dst))
  {
    var q := ToListener(l, p);
    assert EntryFor(s, t, p.src).Some? <==> Listed(s, t, p.src);
    hide HandleNicPacket, Inv;
    forall syn, ack ensures
        HandleNicPacket(l, s, t, Reply(q, syn, ack)) ==
        if Listed(s, t, p.src) then Rewritten(Tcp(Dialled(EntryFor(s, t, p.src).value), p.src, syn, ack)) else NotProxied {
      ReturnPath(l, s, t, p, syn, ack);
    }
    if AnswersIfListed(l, s, t, p, q) {
      assert HandleNicPacket(l, s, t, Reply(q, false, false))
          == if Listed(s, t, p.src) then Rewritten(Tcp(p.dst, p.src, false, false)) else NotProxied;
    }
  }

  lemma {:induction false} StraightStep(s: State, e: Event, a: Addr, d: Addr)
    requires Inv(s) && Straight(s, a, d)
    ensures Straight(Next(s, e), a, d) <==> !IndexesElsewhere(s, e, a, d)
  {
    hide TasksOk, SynsOk;
  }

  lemma {:induction false} CrossedStep(s: State, e: Event, a: Addr, d: Addr)
    requires Inv(s)
    ensures var t := Next(s, e);
            && (DialsElsewhere(s, e, a, d) ==> Crossed(t, a, d) && t.addrs == s.addrs)
            && (Crossed(t, a, d) ==> DialsElsewhere(s, e, a, d) || Crossed(s, a, d))
  {
    hide TasksOk, AddrsOk;
  }

  lemma {:induction false} IndexedStep(s: State, e: Event, a: Addr)
    requires Inv(s) && a in s.addrs
    ensures var t := Next(s, e);
            && (a in t.addrs <==> !Unindexes(s, e, a))
            && (Unindexes(s, e, a) ==> t.syns == s.syns && t.entries == s.entries)
  {
    IndexChanges(s, e, a);
    hide Inv;
  }

  /** Along an unbroken run the index leads to `d`, and entries of other destinations pend only behind it. */
  lemma {:induction false} UnbrokenIsStraight(s: State, events: seq<Event>, a: Addr, d: Addr, k: nat)
    requires Inv(s) && k <= |events| && Straight(s, a, d) && !Crossed(s, a, d) && Unbroken(s, events, a, d)
    ensures var t := At(s, events, k);
            && Inv(t) && Straight(t, a, d)
            && (Crossed(t, a, d) ==> forall n :: 0 <= n <= k ==> a in At(s, events, n).addrs)
  {
    hide Inv, Next, Straight, Crossed, IndexesElsewhere, DialsElsewhere, Unindexes, Run;
    if k == 0 {
      StartOfRun(s, events);
    } else {
      UnbrokenIsStraight(s, events, a, d, k - 1);
      var (t, e) := (At(s, events, k - 1), events[k - 1]);
      AtNext(s, events, k - 1);
      StepKeepsInv(t, e);
      StraightStep(t, e, a, d);
      CrossedStep(t, e, a, d);
      if a in t.addrs {
        IndexedStep(t, e, a);
      }
    }
  }

  lemma {:induction false} StartOfRun(s: State, events: seq<Event>)
    ensures At(s, events, 0) == s
  {}

  /** A step that breaks the run leads the reply of a moment of it elsewhere. */
  lemma {:induction false} BreakIsSeen(l: Local, s: State, events: seq<Event>, p: Tcp, k: nat)
    requires Inv(s) && k < |events| && Distinguishable(l, p.src.ip)
    requires AnsweredThroughout(l, s, events, p, ToListener(l, p))
    ensures var (t, e) := (At(s, events, k), events[k]);
            && !IndexesElsewhere(t, e, p.src, p.dst)
            && !(Unindexes(t, e, p.src) && Crossed(t, p.src, p.dst))
    ensures DialsElsewhere(At(s, events, k), events[k], p.src, p.dst) ==>
              forall n :: 0 <= n <= k ==> p.src in At(s, events, n).addrs
  {
    hide Inv, Next, Straight, Crossed, IndexesElsewhere, DialsElsewhere, Unindexes, Run, AnswersIfListed, Distinguishable;
    var (t, e, a, d) := (At(s, events, k), events[k], p.src, p.dst);
    RunKeepsInv(s, events[..k]);
    RunKeepsInv(s, events[..k + 1]);
    var u := At(s, events, k + 1);
    AtNext(s, events, k);
    AnswersIffDialled(l, t, t, p);
    AnswersIffDialled(l, u, u, p);
    StraightStep(t, e, a, d);
    CrossedStep(t, e, a, d);
    if Unindexes(t, e, a) {
      UncoveredStep(t, e, a, d);
    }
    forall n | 0 <= n <= k && DialsElsewhere(t, e, a, d) ensures a in At(s, events, n).addrs {
      RunKeepsInv(s, events[..n]);
      AnswersIffDialled(l, At(s, events, n), u, p);
    }
  }

  lemma {:induction false} UncoveredStep(s: State, e: Event, a: Addr, d: Addr)
    requires Inv(s) && Unindexes(s, e, a)
    ensures a !in Next(s, e).addrs && (Crossed(s, a, d) <==> Crossed(Next(s, e), a, d))
  {
    IndexedStep(s, e, a);
    hide Inv, Next;
  }

  lemma {:induction false} RunRoundTrip(l: Local, s: State, events: seq<Event>, p: Tcp)
    requires Inv(s) && Distinguishable(l, p.src.ip) && Straight(s, p.src, p.dst) && !Crossed(s, p.src, p.dst)
    ensures AnsweredThroughout(l, s, events, p, ToListener(l, p)) <==> Unbroken(s, events, p.src, p.dst)
  {
    hide Inv, Next, Straight, Crossed, IndexesElsewhere, DialsElsewhere, Unindexes, At, AnswersIfListed, Distinguishable;
    var (a, d, q) := (p.src, p.dst, ToListener(l, p));
    if Unbroken(s, events, a, d) {
      forall n, m | 0 <= n <= m <= |events| ensures AnswersIfListed(l, At(s, events, n), At(s, events, m), p, q) {
        UnbrokenIsStraight(s, events, a, d, n);
        UnbrokenIsStraight(s, events, a, d, m);
        AnswersIffDialled(l, At(s, events, n), At(s, events, m), p);
      }
    }
    if AnsweredThroughout(l, s, events, p, q) {
      forall k | 0 <= k < |events|
        ensures var (t, e) := (At(s, events, k), events[k]);
                && !IndexesElsewhere(t, e, a, d)
                && !(Unindexes(t, e, a) && Crossed(t, a, d))
                && (DialsElsewhere(t, e, a, d) ==> forall n :: 0 <= n <= k ==> a in At(s, events, n).addrs)
      {
        BreakIsSeen(l, s, events, p, k);
      }
    }
  }

  /** For a SYN and any run after it, whatever SYNs it holds: replies are restored at every moment of the run and
      with any of its steps between their lookups, exactly if the client is distinguishable, an accepted
      connection of its source was made by dialling the same destination, and no step of the run
      leads replies elsewhere. */
  lemma {:induction false} SynRoundTrip(l: Local, s: State, p: Tcp, realIp: Ip, id: EntryId, now: nat,
                                        events: seq<Event>)
    requires Inv(s) && p.syn && !p.ack && id !in s.entries
    ensures var h := HandlePeerPacket(l, s, s, p, realIp, id, now);
            && h.Some?
            && (AnsweredThroughout(l, h.value.0, events, p, h.value.1) <==>
                && Distinguishable(l, p.src.ip)
                && Straight(s, p.src, p.dst)
                && Unbroken(h.value.0, events, p.src, p.dst))
  {
    var e := Syn(id, p.src, Addr(realIp, p.dst.port), p.dst, now);
    var s' := Next(s, e);
    StepKeepsInv(s, e);
    assert Straight(s', p.src, p.dst) <==> Straight(s, p.src, p.dst) by { hide TasksOk; }
    assert !Crossed(s', p.src, p.dst) && Listed(s', s', p.src);
    hide Inv, Next, Straight, Crossed, Unbroken;
    if Distinguishable(l, p.src.ip) && Straight(s, p.src, p.dst) {
      RunRoundTrip(l, s', events, p);
    } else if AnsweredThroughout(l, s', events, p, ToListener(l, p)) {
      StartOfRun(s', events);
      assert AnswersIfListed(l, At(s', events, 0), At(s', events, 0), p, ToListener(l, p));
      StartIsAnswered(l, s', p);
    }
  }

  lemma {:induction false} StartIsAnswered(l: Local, s: State, p: Tcp)
    requires Inv(s) && Listed(s, s, p.src) && AnswersIfListed(l, s, s, p, ToListener(l, p))
    ensures Distinguishable(l, p.src.ip) && Straight(s, p.src, p.dst)
  {
    assert HandleNicPacket(l, s, s, Reply(ToListener(l, p), false, false)) == Rewritten(Tcp(p.dst, p.src, false, false)) by {
      hide HandleNicPacket, Inv;
    }
    hide HandleNicPacket, Inv;
    ReturnPath(l, s, s, p, false, false);
    if Distinguishable(l, p.src.ip) {
      AnswersIffDialled(l, s, s, p);
    }
  }

  // ----- A served flow -----

  /** The reply to a packet of the client is restored, whatever steps come between its two lookups. */
  ghost predicate Settled(l: Local, s: State, p: Tcp) {
    forall between, syn, ack ::
      HandleNicPacket(l, s, Run(s, between), Reply(ToListener(l, p), syn, ack)) == Rewritten(Tcp(p.dst, p.src, syn, ack))
  }

  /** The index leads from `a` to `d`. */
  predicate Leading(s: State, a: Addr, d: Addr) {
    a in s.addrs && Straight(s, a, d)
  }

  lemma {:induction false} LeadingSettles(l: Local, s: State, p: Tcp)
    requires Inv(s) && Distinguishable(l, p.src.ip) && Leading(s, p.src, p.dst)
    ensures Settled(l, s, p)
  {
    forall between, syn, ack ensures
        HandleNicPacket(l, s, Run(s, between), Reply(ToListener(l, p), syn, ack)) == Rewritten(Tcp(p.dst, p.src, syn, ack)) {
      RunKeepsInv(s, between);
      ReturnPath(l, s, Run(s, between), p, syn, ack);
      hide Inv, HandleNicPacket, Run;
    }
  }

  /** Without an index entry, the expiry of a pending one can come between the lookups. */
  lemma {:induction false} SettledIsLeading(l: Local, s: State, p: Tcp)
    requires Inv(s) && Distinguishable(l, p.src.ip) && Settled(l, s, p)
    ensures Leading(s, p.src, p.dst)
  {
    var expire := ExpireSyn(p.src, if p.src in s.syns && s.syns[p.src] in s.entries
                                   then s.entries[s.syns[p.src]].start + SYN_TIMEOUT + 1 else 0);
    var t := Next(s, expire);
    StepKeepsInv(s, expire);
    RunOfOne(s, expire);
    assert p.src !in t.syns by { hide TasksOk, AcceptorOk, AddrsOk; }
    assert HandleNicPacket(l, s, Run(s, [expire]), Reply(ToListener(l, p), false, false))
        == Rewritten(Tcp(p.dst, p.src, false, false)) by { hide HandleNicPacket, Inv, Next, Run; }
    ReturnPath(l, s, t, p, false, false);
    hide HandleNicPacket, Inv, Next, Run;
  }

  /** The index stops leading from `a` to `d`: the connection leaves it, or another one is indexed. */
  predicate Displaces(s: State, e: Event, a: Addr, d: Addr) {
    Unindexes(s, e, a) || IndexesElsewhere(s, e, a, d)
  }

  lemma {:induction false} LeadingStep(s: State, e: Event, a: Addr, d: Addr)
    requires Inv(s) && Leading(s, a, d)
    ensures Leading(Next(s, e), a, d) <==> !Displaces(s, e, a, d)
  {
    hide Inv, Next, IndexesElsewhere, Unindexes;
    StraightStep(s, e, a, d);
    IndexedStep(s, e, a);
  }

  lemma {:induction false} LeadsUntilDisplaced(s: State, events: seq<Event>, a: Addr, d: Addr, n: nat)
    requires Inv(s) && n <= |events| && Leading(s, a, d)
    ensures (forall k :: 0 <= k <= n ==> Leading(At(s, events, k), a, d)) <==>
            forall k :: 0 <= k < n ==> !Displaces(At(s, events, k), events[k], a, d)
  {
    hide Inv, Next, Leading, Displaces, Run;
    if n == 0 {
      StartOfRun(s, events);
    } else {
      LeadsUntilDisplaced(s, events, a, d, n - 1);
      RunKeepsInv(s, events[..n - 1]);
      AtNext(s, events, n - 1);
      if Leading(At(s, events, n - 1), a, d) {
        LeadingStep(At(s, events, n - 1), events[n - 1], a, d);
      }
    }
  }

  /** A flow that is served stays answered over any run, whatever SYNs of its source the run holds, exactly until
      its connection leaves the index or an entry made by dialling elsewhere is indexed. */
  lemma {:induction false} ServedRoundTrip(l: Local, s: State, events: seq<Event>, p: Tcp)
    requires Inv(s) && Distinguishable(l, p.src.ip) && Leading(s, p.src, p.dst)
    ensures (forall n :: 0 <= n <= |events| ==> Settled(l, At(s, events, n), p)) <==>
            forall k :: 0 <= k < |events| ==> !Displaces(At(s, events, k), events[k], p.src, p.dst)
  {
    hide Inv, Next, Leading, Displaces, Settled, Run, Distinguishable;
    forall n | 0 <= n <= |events| ensures Settled(l, At(s, events, n), p) <==> Leading(At(s, events, n), p.src, p.dst) {
      RunKeepsInv(s, events[..n]);
      if Leading(At(s, events, n), p.src, p.dst) {
        LeadingSettles(l, At(s, events, n), p);
      }
      if Settled(l, At(s, events, n), p) {
        SettledIsLeading(l, At(s, events, n), p);
      }
    }
    LeadsUntilDisplaced(s, events, p.src, p.dst, |events|);
  }
}
