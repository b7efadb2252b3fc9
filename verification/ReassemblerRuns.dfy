/** The table of partial datagrams over whole runs of arrivals and expiry sweeps. */
module ReassemblerRuns {
  import opened Wrappers
  import opened Ipv4
  import opened Reassembler

  datatype Key = Key(source: seq<Byte>, destination: seq<Byte>, id: nat)

  datatype Entry = Entry(packet: Partial, timestamp: nat)

  type Table = map<Key, Entry>

  datatype Event =
    | Arrival(source: seq<Byte>, destination: seq<Byte>, packet: Packet, now: nat)
    | Sweep(now: nat, timeout: nat)

  function KeyOf(e: Event): Key
    requires e.Arrival?
  {
    Key(e.source, e.destination, e.packet.id)
  }

  function FragmentOf(packet: Packet): Fragment {
    Fragment(U16(packet.fragmentOffset * 8), packet.payload)
  }

  /** The payload length the header claims, in 16-bit arithmetic. */
  function ClaimedLength(packet: Packet): nat {
    U16(packet.totalLength - packet.headerLength * 4)
  }

  /** The partial datagram after one more packet; the last fragment also tells the length. */
  function Extend(p: Partial, packet: Packet): Partial {
    var f := FragmentOf(packet);
    Partial(if packet.moreFragments then p.totalLength else Some(U16(ClaimedLength(packet) + f.offset)),
            Add(p.fragments, f))
  }

  function KnownSoFar(table: Table, k: Key): Partial {
    if k in table then table[k].packet else Partial(None, [])
  }

  function Arrive(table: Table, e: Event): (Table, Reassembly)
    requires e.Arrival?
  {
    if ClaimedLength(e.packet) != U16(|e.packet.payload|) then (table, Nothing)
    else
      var k := KeyOf(e);
      var p := Extend(KnownSoFar(table, k), e.packet);
      var r := Assemble(p);
      (if r.Assembled? then table - {k} else table[k := Entry(p, e.now)], r)
  }

  function RemoveExpired(table: Table, now: nat, timeout: nat): Table {
    map k | k in table && now - table[k].timestamp <= timeout :: table[k]
  }

  function Next(table: Table, e: Event): (Table, Reassembly) {
    if e.Arrival? then Arrive(table, e) else (RemoveExpired(table, e.now, e.timeout), Nothing)
  }

  function Run(table: Table, events: seq<Event>): Table {
    if events == [] then table else Next(Run(table, events[..|events| - 1]), events[|events| - 1]).0
  }

  // ----- Soundness -----

  /** The packet carries a slice of the datagram, and claims to be the last only if it ends it. */
  ghost predicate CarriesSlice(packet: Packet, datagram: seq<Byte>) {
    var f := FragmentOf(packet);
    IsSlice(f, datagram) && (!packet.moreFragments ==> f.offset + |f.data| == |datagram|)
  }

  /** The one datagram sent from a source to a destination under an identification. */
  type Datagrams = (seq<Byte>, seq<Byte>, nat) -> seq<Byte>

  /** An arriving packet carries a slice of the datagram of its source, destination and identification. */
  ghost predicate Honest(e: Event, datagrams: Datagrams) {
    e.Arrival? ==>
      var datagram := datagrams(e.source, e.destination, e.packet.id);
      |datagram| <= 0xffff && CarriesSlice(e.packet, datagram)
  }

  ghost predicate PartialOk(p: Partial, datagram: seq<Byte>) {
    && AllSlices(p.fragments, datagram)
    && (p.totalLength.None? || p.totalLength == Some(|datagram|))
  }

  ghost predicate TableOk(table: Table, datagrams: Datagrams) {
    forall k :: k in table ==> PartialOk(table[k].packet, datagrams(k.source, k.destination, k.id))
  }

  lemma {:induction false} ExtendKeepsOk(p: Partial, packet: Packet, datagram: seq<Byte>)
    requires PartialOk(p, datagram) && CarriesSlice(packet, datagram) && |datagram| <= 0xffff
    requires ClaimedLength(packet) == U16(|packet.payload|)
    ensures PartialOk(Extend(p, packet), datagram)
  {
    AddKeepsSlices(p.fragments, FragmentOf(packet), datagram);
  }

  /** An arrival returns nothing or exactly the datagram of its source, destination and identification. */
  predicate SoundAnswer(e: Event, r: Reassembly, datagrams: Datagrams) {
    r == Nothing || (e.Arrival? && r == Assembled(datagrams(e.source, e.destination, e.packet.id)))
  }

  lemma {:induction false} StepIsSound(table: Table, e: Event, datagrams: Datagrams)
    requires TableOk(table, datagrams) && Honest(e, datagrams)
    ensures TableOk(Next(table, e).0, datagrams) && SoundAnswer(e, Next(table, e).1, datagrams)
  {
    if e.Arrival? && ClaimedLength(e.packet) == U16(|e.packet.payload|) {
      var (p, datagram) := (KnownSoFar(table, KeyOf(e)), datagrams(e.source, e.destination, e.packet.id));
      ExtendKeepsOk(p, e.packet, datagram);
      AssembleIsExact(Extend(p, e.packet), datagram);
      hide PartialOk, Assemble, Extend, Tiles;
    }
  }

  /** The answer to event number `i` of a run from the empty table. */
  function Answer(events: seq<Event>, i: nat): Reassembly
    requires i < |events|
  {
    Next(Run(map[], events[..i]), events[i]).1
  }

  /** A packet counts exactly if the length in its header is that of its header and payload, options included. */
  lemma {:induction false} CountsExactly(table: Table, e: Event)
    requires e.Arrival? && e.packet.headerLength * 4 <= e.packet.totalLength <= 0xffff && |e.packet.payload| <= 0xffff
    ensures var (table', r) := Arrive(table, e);
            if e.packet.totalLength != e.packet.headerLength * 4 + |e.packet.payload| then table' == table && r == Nothing
            else var k := KeyOf(e);
                 r.Assembled? || (k in table' && table'[k] == Entry(Extend(KnownSoFar(table, k), e.packet), e.now))
  {
    hide Extend, Assemble, KnownSoFar;
  }

  /** Whatever the order, repeats, overlaps and sweeps, every answer is sound. */
  lemma {:induction false} ReassemblyIsSound(events: seq<Event>, datagrams: Datagrams, n: nat)
    requires (forall i :: 0 <= i < |events| ==> Honest(events[i], datagrams)) && n <= |events|
    ensures TableOk(Run(map[], events[..n]), datagrams)
    ensures forall i :: 0 <= i < n ==> SoundAnswer(events[i], Answer(events, i), datagrams)
  {
    hide Honest, Next, TableOk, SoundAnswer;
    if n > 0 {
      ReassemblyIsSound(events, datagrams, n - 1);
      StepIsSound(Run(map[], events[..n - 1]), events[n - 1], datagrams);
      assert events[..n][..n - 1] == events[..n - 1];
    } else {
      EmptyIsOk(datagrams);
    }
  }

  lemma {:induction false} EmptyIsOk(datagrams: Datagrams)
    ensures TableOk(map[], datagrams)
  {}

  // ----- Arrivals whose removal comes later -----

  /** The accesses of concurrent arrivals and sweeps to the table: an arrival up to its assembly, the removal
      after it, and a sweep. */
  datatype Access =
    | Collect(source: seq<Byte>, destination: seq<Byte>, packet: Packet, now: nat)
    | Remove(key: Key)
    | Expire(now: nat, timeout: nat)

  function ArrivalOf(x: Access): Event
    requires x.Collect?
  {
    Arrival(x.source, x.destination, x.packet, x.now)
  }

  /** An assembled datagram stays in the table, with the time of its last packet but one. */
  function CollectNext(table: Table, e: Event): (Table, Reassembly)
    requires e.Arrival?
  {
    if ClaimedLength(e.packet) != U16(|e.packet.payload|) then (table, Nothing)
    else
      var k := KeyOf(e);
      var p := Extend(KnownSoFar(table, k), e.packet);
      var r := Assemble(p);
      (table[k := Entry(p, if r.Assembled? && k in table then table[k].timestamp else e.now)], r)
  }

  function AccessNext(table: Table, x: Access): (Table, Reassembly) {
    match x
    case Collect(_, _, _, _) => CollectNext(table, ArrivalOf(x))
    case Remove(k) => (table - {k}, Nothing)
    case Expire(now, timeout) => (RemoveExpired(table, now, timeout), Nothing)
  }

  function AccessRun(table: Table, xs: seq<Access>): Table {
    if xs == [] then table else AccessNext(AccessRun(table, xs[..|xs| - 1]), xs[|xs| - 1]).0
  }

  /** An arrival whose removal follows at once is the arrival of a run; until then the time of the entry stands. */
  lemma {:induction false} ArriveIsTwoAccesses(table: Table, x: Access)
    requires x.Collect?
    ensures var (t, r) := AccessNext(table, x);
            Arrive(table, ArrivalOf(x)) == (if r.Assembled? then AccessNext(t, Remove(KeyOf(ArrivalOf(x)))).0 else t, r)
    ensures var (t, k) := (AccessNext(table, x), KeyOf(ArrivalOf(x)));
            t.1.Assembled? && k in table ==> k in t.0 && t.0[k].timestamp == table[k].timestamp
  {
    hide Extend, Assemble, ClaimedLength, KnownSoFar, U16;
    var (t, r) := AccessNext(table, x);
    if r.Assembled? {
      var k := KeyOf(ArrivalOf(x));
      assert t - {k} == table - {k};
    }
  }

  /** The access returns nothing or exactly the datagram of its key, and never fails. */
  predicate AccessSound(x: Access, r: Reassembly, datagrams: Datagrams) {
    r == Nothing || (x.Collect? && SoundAnswer(ArrivalOf(x), r, datagrams))
  }

  lemma {:induction false} AccessIsSound(table: Table, x: Access, datagrams: Datagrams)
    requires TableOk(table, datagrams) && (x.Collect? ==> Honest(ArrivalOf(x), datagrams))
    ensures TableOk(AccessNext(table, x).0, datagrams) && AccessSound(x, AccessNext(table, x).1, datagrams)
  {
    if x.Collect? && ClaimedLength(x.packet) == U16(|x.packet.payload|) {
      var p := KnownSoFar(table, KeyOf(ArrivalOf(x)));
      var datagram := datagrams(x.source, x.destination, x.packet.id);
      ExtendKeepsOk(p, x.packet, datagram);
      AssembleIsExact(Extend(p, x.packet), datagram);
      hide PartialOk, Assemble, Extend, Tiles;
    }
  }

  /** Also when other arrivals, removals and sweeps come between an assembly and its removal, every answer is
      nothing or exactly the datagram of its source, destination and identification. */
  lemma {:induction false} ConcurrentReassemblyIsSound(xs: seq<Access>, datagrams: Datagrams, n: nat)
    requires (forall i :: 0 <= i < |xs| && xs[i].Collect? ==> Honest(ArrivalOf(xs[i]), datagrams)) && n <= |xs|
    ensures TableOk(AccessRun(map[], xs[..n]), datagrams)
    ensures forall i :: 0 <= i < n ==>
              AccessSound(xs[i], AccessNext(AccessRun(map[], xs[..i]), xs[i]).1, datagrams)
  {
    hide Honest, AccessNext, TableOk, AccessSound;
    if n > 0 {
      ConcurrentReassemblyIsSound(xs, datagrams, n - 1);
      AccessIsSound(AccessRun(map[], xs[..n - 1]), xs[n - 1], datagrams);
      assert xs[..n][..n - 1] == xs[..n - 1];
    } else {
      EmptyIsOk(datagrams);
    }
  }

  /** A packet that comes between the assembly of its datagram and the removal gets the datagram once more. */
  lemma {:induction false} AnsweredTwice(table: Table, e: Event, datagram: seq<Byte>)
    requires e.Arrival? && |datagram| <= 0xffff && CarriesSlice(e.packet, datagram)
    requires PartialOk(KnownSoFar(table, KeyOf(e)), datagram)
    requires CollectNext(table, e).1 == Assembled(datagram)
    ensures CollectNext(CollectNext(table, e).0, e).1 == Assembled(datagram)
  {
    var p := Extend(KnownSoFar(table, KeyOf(e)), e.packet);
    ExtendKeepsOk(KnownSoFar(table, KeyOf(e)), e.packet, datagram);
    ExtendKeepsOk(p, e.packet, datagram);
    AssembleIsExact(p, datagram);
    AssembleIsExact(Extend(p, e.packet), datagram);
    ExtendCovers(p, e.packet, |datagram|);
    hide Assemble, PartialOk, Tiles;
  }

  lemma {:induction false} ExtendCovers(p: Partial, packet: Packet, n: nat)
    requires Tiles(p.fragments, n)
    ensures Tiles(Extend(p, packet).fragments, n)
    ensures p.totalLength.Some? ==> Extend(p, packet).totalLength.Some?
  {
    forall i | 0 <= i < n ensures IsCovered(Extend(p, packet).fragments, i) {
      assert IsCovered(p.fragments, i);
      var f :| f in p.fragments && Covers(f, i);
      assert f in Extend(p, packet).fragments;
    }
  }
}
