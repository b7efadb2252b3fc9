/** Fragments made by the composer, fed to the reassembler: it behaves like a plain set of the
    piece numbers seen so far. */
module RoundTrip {
  import opened Wrappers
  import opened Ipv4
  import opened Reassembler
  import opened ReassemblerRuns
  import opened Composer

  /** A payload cut into more than one piece. */
  datatype Job = Job(args: Args, payload: seq<Byte>)

  predicate ValidJob(j: Job) {
    && ValidEndpoints(j.args.ends) && j.args.id <= 0xffff
    && 0 < j.args.mtu && j.args.mtu % 8 == 0
    && j.args.mtu < |j.payload| <= 0xffff
  }

  function Pieces(j: Job): nat
    requires ValidJob(j)
  {
    Count(|j.payload|, j.args.mtu)
  }

  /** The event is the arrival of a packet from the job's source to its destination under its identification. */
  predicate IsFor(j: Job, e: Event) {
    e.Arrival? && e.source == j.args.ends.src && e.destination == j.args.ends.dst && e.packet.id == j.args.id
  }

  function KeyFor(j: Job): Key {
    Key(j.args.ends.src, j.args.ends.dst, j.args.id)
  }

  /** The fragment that packet `i` of the job carries. */
  function Piece(j: Job, i: nat): Fragment {
    Fragment(Cut(|j.payload|, j.args.mtu, i), Data(j.payload, j.args.mtu, i))
  }

  ghost function UpTo(n: nat): (r: set<nat>)
    ensures forall i: nat :: i in r <==> i < n
  {
    if n == 0 then {} else UpTo(n - 1) + {n - 1}
  }

  ghost function AllPieces(j: Job): set<nat>
    requires ValidJob(j)
  {
    UpTo(Pieces(j))
  }

  // ----- Pieces -----

  lemma {:induction false} CutsAscend(len: nat, mtu: nat, i: nat, k: nat)
    requires i <= k
    ensures Cut(len, mtu, i) <= Cut(len, mtu, k) <= len
  {
    Scale(i, k, mtu);
  }

  lemma {:induction false} PieceIsProper(j: Job, i: nat)
    requires ValidJob(j) && i < Pieces(j)
    ensures IsSlice(Piece(j, i), j.payload) && Piece(j, i).data != []
    ensures Piece(j, i).offset + |Piece(j, i).data| == Cut(|j.payload|, j.args.mtu, i + 1)
    ensures Piece(j, i).offset + |Piece(j, i).data| == |j.payload| <==> i == Pieces(j) - 1
  {
    PieceBounds(|j.payload|, j.args.mtu, i);
  }

  /** Piece `i` is too long for the length field of its packet. */
  predicate Truncated(j: Job, i: nat) {
    IsTruncated(j.payload, j.args.mtu, i)
  }

  /** The receiver discards a truncated packet, whose length field contradicts its payload. */
  lemma {:induction false} TruncatedIsRefused(j: Job, i: nat, packet: Packet)
    requires ValidJob(j) && i < Pieces(j) && Truncated(j, i)
    requires Parse(PieceOf(j.args, j.payload, i)) == Some(packet)
    ensures ClaimedLength(packet) != U16(|packet.payload|)
  {
    PieceReadsBack(j.args, j.payload, i);
    FieldsFit(|j.payload|, j.args.mtu, i);
    hide Count, Parse, PieceOf;
  }

  /** The packet read back carries the piece, and the last one ends the payload. */
  lemma {:induction false} PacketCarriesPiece(j: Job, i: nat, packet: Packet)
    requires ValidJob(j) && i < Pieces(j) && Parse(PieceOf(j.args, j.payload, i)) == Some(packet)
    requires !Truncated(j, i)
    ensures FragmentOf(packet) == Piece(j, i) && packet.id == j.args.id
    ensures ClaimedLength(packet) == |packet.payload| == U16(|packet.payload|)
    ensures packet.moreFragments <==> i != Pieces(j) - 1
  {
    PieceReadsBack(j.args, j.payload, i);
    PieceIsProper(j, i);
    FieldsFit(|j.payload|, j.args.mtu, i);
    hide Count, Cut, Data, Parse, PieceOf;
  }

  lemma {:induction false} PiecesAreDisjoint(j: Job, i: nat, k: nat)
    requires ValidJob(j) && i < Pieces(j) && k < Pieces(j)
    ensures Overlaps(Piece(j, i), Piece(j, k)) <==> i == k
  {
    PieceIsProper(j, i);
    PieceIsProper(j, k);
    var (len, mtu) := (|j.payload|, j.args.mtu);
    hide Count, Cut, Data;
    if i < k {
      CutsAscend(len, mtu, i + 1, k);
      CutsAscend(len, mtu, k + 1, k + 1);
    } else if k < i {
      CutsAscend(len, mtu, k + 1, i);
      CutsAscend(len, mtu, i + 1, i + 1);
    } else {
      CutsAscend(len, mtu, i + 1, i + 1);
    }
  }

  // ----- A partial datagram as a set of piece numbers -----

  ghost predicate Holds(j: Job, p: Partial, seen: set<nat>)
    requires ValidJob(j)
  {
    && seen <= AllPieces(j)
    && AllSlices(p.fragments, j.payload)
    && (forall f :: f in p.fragments ==> exists i :: i in seen && f == Piece(j, i))
    && (forall i :: i in seen ==> Piece(j, i) in p.fragments)
    && p.totalLength == if Pieces(j) - 1 in seen then Some(|j.payload|) else None
  }

  lemma {:induction false} AddPiece(j: Job, p: Partial, seen: set<nat>, i: nat)
    requires ValidJob(j) && i < Pieces(j) && Holds(j, p, seen)
    ensures i in seen ==> Add(p.fragments, Piece(j, i)) == p.fragments
    ensures i !in seen ==> Add(p.fragments, Piece(j, i)) == p.fragments + [Piece(j, i)]
  {
    var f := Piece(j, i);
    hide Piece, Overlaps, AllSlices;
    if i in seen {
      PiecesAreDisjoint(j, i, i);
      assert f in p.fragments && Overlaps(f, f);
    } else {
      forall g | g in p.fragments ensures !Overlaps(g, f) {
        var k :| k in seen && g == Piece(j, k);
        PiecesAreDisjoint(j, k, i);
      }
    }
  }

  lemma {:induction false} ExtendHolds(j: Job, p: Partial, seen: set<nat>, i: nat, packet: Packet)
    requires ValidJob(j) && i < Pieces(j) && Holds(j, p, seen) && !Truncated(j, i)
    requires Parse(PieceOf(j.args, j.payload, i)) == Some(packet)
    ensures Holds(j, Extend(p, packet), seen + {i})
  {
    hide Parse, PieceOf, Piece, AllSlices, Add, IsSlice, Pieces, Overlaps, U16, ClaimedLength, FragmentOf;
    PacketCarriesPiece(j, i, packet);
    PieceIsProper(j, i);
    AddPiece(j, p, seen, i);
    AddKeepsSlices(p.fragments, Piece(j, i), j.payload);
    LastTellsLength(packet, |j.payload|);
    var q := Extend(p, packet);
    assert q.fragments == if i in seen then p.fragments else p.fragments + [Piece(j, i)];
  }

  lemma {:induction false} LastTellsLength(packet: Packet, len: nat)
    requires len <= 0xffff && ClaimedLength(packet) == |packet.payload|
    ensures FragmentOf(packet).offset + |FragmentOf(packet).data| == len
            ==> U16(ClaimedLength(packet) + FragmentOf(packet).offset) == len
  {}

  /** Position `x` belongs to exactly one piece. */
  lemma {:induction false} PieceAt(j: Job, x: nat) returns (i: nat)
    requires ValidJob(j) && x < |j.payload|
    ensures i < Pieces(j) && Covers(Piece(j, i), x)
  {
    i := x / j.args.mtu;
    PieceBounds(|j.payload|, j.args.mtu, i);
    Quotient(x, j.args.mtu);
    hide Count, Data;
    assert Covers(Piece(j, i), x) by { PieceIsProper(j, i); }
  }

  lemma {:induction false} Quotient(x: nat, mtu: nat)
    requires mtu > 0
    ensures x / mtu * mtu <= x < x / mtu * mtu + mtu
  {}

  lemma {:induction false} TiledIffAllSeen(j: Job, p: Partial, seen: set<nat>)
    requires ValidJob(j) && Holds(j, p, seen)
    ensures Tiles(p.fragments, |j.payload|) <==> seen == AllPieces(j)
  {
    hide Piece, AllSlices;
    if seen == AllPieces(j) {
      forall x | 0 <= x < |j.payload| ensures IsCovered(p.fragments, x) {
        var i := PieceAt(j, x);
        assert Piece(j, i) in p.fragments;
      }
    } else {
      var i :| i in AllPieces(j) && i !in seen;
      PieceIsProper(j, i);
      var x := Piece(j, i).offset;
      if IsCovered(p.fragments, x) {
        var f :| f in p.fragments && Covers(f, x);
        var k :| k in seen && f == Piece(j, k);
        PieceIsProper(j, k);
        PiecesAreDisjoint(j, k, i);
        NoCommonPosition(f, Piece(j, i), j.payload, x);
      }
    }
  }

  // ----- The table as a set of piece numbers -----

  /** The piece numbers seen since the last completion or expiry, and when the last one came. */
  datatype Tracker = Tracker(seen: set<nat>, stamp: nat)

  const EMPTY := Tracker({}, 0)

  ghost predicate Tracks(j: Job, table: Table, tr: Tracker)
    requires ValidJob(j)
  {
    var k := KeyFor(j);
    if tr.seen == {} then k !in table
    else k in table && Holds(j, table[k].packet, tr.seen) && table[k].timestamp == tr.stamp
  }

  /** An event of the run: piece `i` of the job, any packet of another key, or a sweep. */
  ghost predicate Allowed(j: Job, e: Event, i: nat)
    requires ValidJob(j)
  {
    IsFor(j, e) ==> i < Pieces(j) && Some(e.packet) == Parse(PieceOf(j.args, j.payload, i))
  }

  /** What the reassembler should do about the job, in terms of piece numbers only. */
  ghost function TrackNext(j: Job, tr: Tracker, e: Event, i: nat): (Tracker, Reassembly)
    requires ValidJob(j)
  {
    if e.Sweep? then (if e.now - tr.stamp <= e.timeout then tr else EMPTY, Nothing)
    else if !IsFor(j, e) || Truncated(j, i) then (tr, Nothing)
    else if tr.seen + {i} == AllPieces(j) then (EMPTY, Assembled(j.payload))
    else (Tracker(tr.seen + {i}, e.now), Nothing)
  }

  lemma {:induction false} EmptyHolds(j: Job)
    requires ValidJob(j)
    ensures Holds(j, Partial(None, []), {})
  {}

  lemma {:induction false} PieceArrives(j: Job, table: Table, tr: Tracker, e: Event, i: nat)
    requires ValidJob(j) && Tracks(j, table, tr) && Allowed(j, e, i) && IsFor(j, e)
    requires !Truncated(j, i)
    ensures var (table', r) := Next(table, e);
            Tracks(j, table', TrackNext(j, tr, e, i).0) && r == TrackNext(j, tr, e, i).1
  {
    var p := KnownSoFar(table, KeyFor(j));
    EmptyHolds(j);
    PacketCarriesPiece(j, i, e.packet);
    ExtendHolds(j, p, tr.seen, i, e.packet);
    var q := Extend(p, e.packet);
    TiledIffAllSeen(j, q, tr.seen + {i});
    AssembleIsExact(q, j.payload);
    hide Extend, Assemble, Tiles, Parse, PieceOf;
  }

  lemma {:induction false} StepTracks(j: Job, table: Table, tr: Tracker, e: Event, i: nat)
    requires ValidJob(j) && Tracks(j, table, tr) && Allowed(j, e, i)
    ensures Tracks(j, Next(table, e).0, TrackNext(j, tr, e, i).0)
    ensures IsFor(j, e) ==> Next(table, e).1 == TrackNext(j, tr, e, i).1
  {
    hide Holds, Extend, Assemble, Truncated;
    if IsFor(j, e) {
      if Truncated(j, i) {
        TruncatedIsRefused(j, i, e.packet);
      } else {
        PieceArrives(j, table, tr, e, i);
      }
    }
  }

  ghost function TrackRun(j: Job, events: seq<Event>, labels: seq<nat>, n: nat): Tracker
    requires ValidJob(j) && n <= |events| == |labels|
  {
    if n == 0 then EMPTY else TrackNext(j, TrackRun(j, events, labels, n - 1), events[n - 1], labels[n - 1]).0
  }

  /** A job with a piece too long for the length field is never delivered. */
  lemma {:induction false} TruncatedIsNeverDelivered(j: Job, events: seq<Event>, labels: seq<nat>, n: nat)
    requires ValidJob(j) && n <= |events| == |labels| && !PiecesFit(|j.payload|, j.args.mtu)
    requires forall m :: 0 <= m < |events| ==> Allowed(j, events[m], labels[m])
    ensures 0 !in TrackRun(j, events, labels, n).seen
    ensures forall m :: 0 <= m < n && IsFor(j, events[m]) ==> Answer(events, m) == Nothing
  {
    hide Answer, Truncated, PiecesFit, Allowed, TrackNext, Tracks;
    if n > 0 {
      TruncatedIsNeverDelivered(j, events, labels, n - 1);
      ReassemblyInvertsFragmentation(j, events, labels, n);
      NeverComplete(j, TrackRun(j, events, labels, n - 1), events[n - 1], labels[n - 1]);
    }
  }

  lemma {:induction false} NeverComplete(j: Job, tr: Tracker, e: Event, i: nat)
    requires ValidJob(j) && !PiecesFit(|j.payload|, j.args.mtu) && 0 !in tr.seen
    ensures var (tr', r) := TrackNext(j, tr, e, i); 0 !in tr'.seen && r == Nothing
  {
    FirstIsLost(j);
    hide Truncated, AllPieces, PiecesFit;
  }

  lemma {:induction false} FirstIsLost(j: Job)
    requires ValidJob(j) && !PiecesFit(|j.payload|, j.args.mtu)
    ensures Truncated(j, 0) && 0 in AllPieces(j)
  {
    PieceBounds(|j.payload|, j.args.mtu, 0);
    FirstIsTruncated(j.payload, j.args.mtu, 0);
  }

  /** Pieces in any order, with repeats, sweeps and arbitrary traffic of other keys: every piece
      gets the answer of the set of piece numbers that are not truncated: nothing until it completes the set,
      and then the payload. */
  lemma {:induction false} ReassemblyInvertsFragmentation(j: Job, events: seq<Event>, labels: seq<nat>, n: nat)
    requires ValidJob(j) && n <= |events| == |labels|
    requires forall m :: 0 <= m < |events| ==> Allowed(j, events[m], labels[m])
    ensures Tracks(j, Run(map[], events[..n]), TrackRun(j, events, labels, n))
    ensures forall m :: 0 <= m < n && IsFor(j, events[m]) ==>
              Answer(events, m) == TrackNext(j, TrackRun(j, events, labels, m), events[m], labels[m]).1
  {
    hide Tracks, Allowed, TrackNext, Next;
    if n == 0 {
      NothingTracked(j);
    } else {
      ReassemblyInvertsFragmentation(j, events, labels, n - 1);
      StepTracks(j, Run(map[], events[..n - 1]), TrackRun(j, events, labels, n - 1), events[n - 1], labels[n - 1]);
      assert events[..n][..n - 1] == events[..n - 1];
    }
  }

  lemma {:induction false} NothingTracked(j: Job)
    requires ValidJob(j)
    ensures Tracks(j, map[], EMPTY)
  {}
}
