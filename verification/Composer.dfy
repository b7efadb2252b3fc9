/** Cutting a payload into IPv4 packets inside one buffer, each header written over bytes already sent. */
module Composer {
  import opened Wrappers
  import opened Ipv4

  /** `checksum` is the header checksum; `mtu` bounds the payload of one packet. */
  datatype Args = Args(ends: Endpoints, id: nat, mtu: nat, checksum: seq<Byte> -> nat)

  /** The number of packets: the payload length over the mtu, rounded up. */
  function Count(len: nat, mtu: nat): nat
    requires mtu > 0
  {
    (len + mtu - 1) / mtu
  }

  function Cut(len: nat, mtu: nat, i: nat): nat {
    if i * mtu < len then i * mtu else len
  }

  lemma {:induction false} CountIsCeiling(len: nat, mtu: nat)
    requires mtu > 0
    ensures len == 0 ==> Count(len, mtu) == 0
    ensures len > 0 ==> Count(len, mtu) > 0 && (Count(len, mtu) - 1) * mtu < len
    ensures len <= Count(len, mtu) * mtu
  {
    var q, r := (len + mtu - 1) / mtu, (len + mtu - 1) % mtu;
    assert len + mtu - 1 == q * mtu + r;
    assert (q - 1) * mtu == q * mtu - mtu;
  }

  lemma {:induction false} Scale(a: nat, b: nat, mtu: nat)
    requires a <= b
    ensures a * mtu <= b * mtu
    ensures (a + 1) * mtu == a * mtu + mtu
  {
    assert (b - a) * mtu >= 0;
    assert b * mtu == a * mtu + (b - a) * mtu;
  }

  /** Piece `i` starts inside the payload, and only the last one reaches its end. */
  lemma {:induction false} PieceBounds(len: nat, mtu: nat, i: nat)
    requires mtu > 0
    ensures i < Count(len, mtu) <==> i * mtu < len
    ensures i < Count(len, mtu) ==> (Cut(len, mtu, i + 1) == len <==> i == Count(len, mtu) - 1)
    ensures (i + 1) * mtu == i * mtu + mtu
  {
    CountIsCeiling(len, mtu);
    var c := Count(len, mtu);
    if i < c {
      Scale(i, c - 1, mtu);
      if i < c - 1 {
        Scale(i + 1, c - 1, mtu);
      }
    } else {
      Scale(c, i, mtu);
    }
    Scale(i, i, mtu);
  }

  function Data(payload: seq<Byte>, mtu: nat, i: nat): seq<Byte> {
    assert Cut(|payload|, mtu, i) <= Cut(|payload|, mtu, i + 1) by { Scale(i, i + 1, mtu); }
    payload[Cut(|payload|, mtu, i)..Cut(|payload|, mtu, i + 1)]
  }

  function Flags(len: nat, mtu: nat, i: nat): nat
    requires mtu > 0
  {
    if Count(len, mtu) > 1 then (if i != Count(len, mtu) - 1 then MORE_FRAGMENTS else 0) else DONT_FRAGMENT
  }

  function OffsetField(len: nat, mtu: nat, i: nat): nat
    requires mtu > 0
  {
    if Count(len, mtu) > 1 then U16(Cut(len, mtu, i)) / 8 else 0
  }

  /** Packet number `i`: a header and its piece of the payload. */
  function PieceOf(args: Args, payload: seq<Byte>, i: nat): seq<Byte>
    requires ValidEndpoints(args.ends) && args.mtu > 0
  {
    var data := Data(payload, args.mtu, i);
    Header(args.ends, U16(|data| + 20), args.id, Flags(|payload|, args.mtu, i),
           OffsetField(|payload|, args.mtu, i), args.checksum) + data
  }

  /** `sent` is a prefix of the packets of the payload, in order. */
  predicate Sends(args: Args, payload: seq<Byte>, sent: seq<seq<Byte>>)
    requires ValidEndpoints(args.ends) && args.mtu > 0
  {
    && |sent| <= Count(|payload|, args.mtu)
    && forall i :: 0 <= i < |sent| ==> sent[i] == PieceOf(args, payload, i)
  }

  method WriteHeader(buf: array<Byte>, at: nat, header: seq<Byte>)
    requires |header| == 20 && at + 20 <= buf.Length
    modifies buf
    ensures buf[..at] == old(buf[..at]) && buf[at..at + 20] == header && buf[at + 20..] == old(buf[at + 20..])
  {
    forall i | 0 <= i < 20 {
      buf[at + i] := header[i];
    }
  }

  /** The loop body up to the callback: writes the header of the next piece in front of its data. */
  method WritePiece(buf: array<Byte>, args: Args, ghost payload: seq<Byte>, payloadLen: nat,
                    fragmentOffset: nat, fragmentLen: nat, curPiece: nat) returns (packet: seq<Byte>)
    requires ValidEndpoints(args.ends) && args.mtu > 0 && payloadLen == |payload| && payloadLen + 20 <= buf.Length
    requires payloadLen <= args.mtu || args.mtu % 8 == 0
    requires fragmentOffset == Cut(payloadLen, args.mtu, curPiece) < payloadLen
    requires fragmentOffset + fragmentLen == Cut(payloadLen, args.mtu, curPiece + 1)
    requires buf[20 + fragmentOffset..20 + payloadLen] == payload[fragmentOffset..]
    modifies buf
    ensures packet == PieceOf(args, payload, curPiece)
    ensures buf[20 + fragmentOffset..] == old(buf[20 + fragmentOffset..])
  {
    hide Count, Cut, Header;
    var totalPieces := Count(payloadLen, args.mtu);
    var header;
    if totalPieces > 1 {
      OffsetIsAligned(payloadLen, args.mtu, curPiece);
      assert fragmentOffset % 8 == 0;
      header := Header(args.ends, U16(fragmentLen + 20), args.id,
                       if curPiece != totalPieces - 1 then MORE_FRAGMENTS else 0,
                       U16(fragmentOffset) / 8, args.checksum);
    } else {
      header := Header(args.ends, U16(fragmentLen + 20), args.id, DONT_FRAGMENT, 0, args.checksum);
    }
    CutIsBounded(payloadLen, args.mtu, curPiece + 1);
    WriteHeader(buf, fragmentOffset, header);
    packet := buf[fragmentOffset..fragmentOffset + fragmentLen + 20];
    ghost var data := Data(payload, args.mtu, curPiece);
    assert data == payload[fragmentOffset..][..fragmentLen];
    assert data == buf[20 + fragmentOffset..][..fragmentLen];
    assert packet == header + data;
  }

  lemma {:induction false} CutIsBounded(len: nat, mtu: nat, i: nat)
    ensures Cut(len, mtu, i) <= len
  {}

  lemma {:induction false} NextCut(len: nat, mtu: nat, i: nat)
    requires mtu > 0 && Cut(len, mtu, i) < len
    ensures Cut(len, mtu, i + 1) == if Cut(len, mtu, i) + mtu < len then Cut(len, mtu, i) + mtu else len
    ensures i < Count(len, mtu)
  {
    PieceBounds(len, mtu, i);
  }

  lemma {:induction false} AllCut(len: nat, mtu: nat, i: nat)
    requires mtu > 0 && Cut(len, mtu, i) == len && i <= Count(len, mtu)
    ensures i == Count(len, mtu)
  {
    PieceBounds(len, mtu, i);
  }

  /** The payload sits at `buf[20..]`; `accept` is the answer of the callback to a packet. */
  method Compose(buf: array<Byte>, args: Args, payloadLen: nat, accept: seq<Byte> -> bool)
    returns (ok: bool, sent: seq<seq<Byte>>)
    requires ValidEndpoints(args.ends) && args.mtu > 0 && payloadLen + 20 <= buf.Length
    requires payloadLen <= args.mtu || args.mtu % 8 == 0
    modifies buf
    ensures Sends(args, old(buf[20..20 + payloadLen]), sent)
    ensures ok ==> |sent| == Count(payloadLen, args.mtu) && forall p :: p in sent ==> accept(p)
    ensures !ok ==> |sent| > 0 && !accept(sent[|sent| - 1]) && forall i :: 0 <= i < |sent| - 1 ==> accept(sent[i])
  {
    hide Count, Cut, PieceOf;
    ghost var payload := buf[20..20 + payloadLen];
    var bufOffset, fragmentOffset, curPiece := 0, 0, 0;
    sent := [];
    StartCut(payloadLen, args.mtu);
    while fragmentOffset < payloadLen
      invariant bufOffset == fragmentOffset == Cut(payloadLen, args.mtu, curPiece) <= payloadLen
      invariant buf[20 + fragmentOffset..20 + payloadLen] == payload[fragmentOffset..]
      invariant |sent| == curPiece && Sends(args, payload, sent)
      invariant forall p :: p in sent ==> accept(p)
      decreases payloadLen - fragmentOffset
    {
      NextCut(payloadLen, args.mtu, curPiece);
      var nextOffset := if fragmentOffset + args.mtu < payloadLen then fragmentOffset + args.mtu else payloadLen;
      var packet := WritePiece(buf, args, payload, payloadLen, bufOffset, nextOffset - fragmentOffset, curPiece);
      sent := sent + [packet];
      if !accept(packet) {
        return false, sent;
      }
      KeepTail(buf[20 + fragmentOffset..], payload[fragmentOffset..], nextOffset - fragmentOffset);
      bufOffset := bufOffset + (nextOffset - fragmentOffset);
      fragmentOffset, curPiece := nextOffset, curPiece + 1;
    }
    AllCut(payloadLen, args.mtu, curPiece);
    ok := true;
  }

  lemma {:induction false} StartCut(len: nat, mtu: nat)
    ensures Cut(len, mtu, 0) == 0
  {}

  lemma {:induction false} KeepTail(b: seq<Byte>, p: seq<Byte>, n: nat)
    requires n <= |p| <= |b| && b[..|p|] == p
    ensures b[n..][..|p| - n] == p[n..]
  {
    assert b[n..][..|p| - n] == b[..|p|][n..];
  }

  /** With more than one piece the mtu is a multiple of eight, and so is every offset. */
  lemma {:induction false} OffsetIsAligned(len: nat, mtu: nat, i: nat)
    requires mtu > 0 && (len <= mtu || mtu % 8 == 0) && Count(len, mtu) > 1 && Cut(len, mtu, i) < len
    ensures Cut(len, mtu, i) % 8 == 0 && mtu % 8 == 0
  {
    PieceBounds(len, mtu, 1);
    assert mtu == 8 * (mtu / 8);
    assert i * mtu == 8 * (i * (mtu / 8));
  }

  // ----- What was sent -----

  function Concat(parts: seq<seq<Byte>>): seq<Byte> {
    if parts == [] then [] else Concat(parts[..|parts| - 1]) + parts[|parts| - 1]
  }

  /** The length field can hold the header and the longest piece. */
  predicate PiecesFit(len: nat, mtu: nat) {
    (if mtu < len then mtu else len) + 20 <= 0xffff
  }

  /** A piece whose packet is too long for the length field; a receiver sees none of its data. */
  predicate IsTruncated(payload: seq<Byte>, mtu: nat, i: nat) {
    |Data(payload, mtu, i)| + 20 > 0xffff
  }

  /** Read back, packet `i` holds its piece at its place, unless it is truncated, and only the last says that
      none follow. */
  lemma {:induction false} PieceReadsBack(args: Args, payload: seq<Byte>, i: nat)
    requires ValidEndpoints(args.ends) && args.mtu > 0 && args.id <= 0xffff && |payload| <= 0xffff
    requires |payload| <= args.mtu || args.mtu % 8 == 0
    requires i < Count(|payload|, args.mtu)
    ensures var data := Data(payload, args.mtu, i);
            var cut := Cut(|payload|, args.mtu, i);
            && cut % 8 == 0
            && Parse(PieceOf(args, payload, i))
               == Some(Packet(5, U16(|data| + 20), args.id, i != Count(|payload|, args.mtu) - 1, cut / 8,
                              if IsTruncated(payload, args.mtu, i) then [] else data))
  {
    var (len, data) := (|payload|, Data(payload, args.mtu, i));
    FieldsFit(len, args.mtu, i);
    LengthFieldWraps(data);
    hide Header, Count, Cut, Flags, OffsetField, Parse, U16, Visible, Data;
    ParseOfHeader(args.ends, U16(|data| + 20), args.id, Flags(len, args.mtu, i), OffsetField(len, args.mtu, i),
                  args.checksum, data);
  }

  lemma {:induction false} LengthFieldWraps(data: seq<Byte>)
    requires |data| <= 0xffff
    ensures U16(|data| + 20) <= 0xffff
    ensures Visible(U16(|data| + 20), data) == if |data| + 20 > 0xffff then [] else data
  {
    if |data| + 20 > 0xffff {
      assert U16(|data| + 20) == |data| + 20 - 0x1_0000;
    }
  }

  /** Packet `i` of `n`: a header with the endpoints, protocol, identification and checksum, a length field that holds the
      length of the packet in 16 bits, the flags (1 if more follow, 2 on the only one) and the offset in units of
      eight bytes, and then the bytes of the payload from `i` times the mtu on, at most as many as the mtu. */
  lemma {:induction false} PacketLayout(args: Args, payload: seq<Byte>, i: nat)
    requires ValidEndpoints(args.ends) && args.mtu > 0 && args.id <= 0xffff && |payload| <= 0xffff
    requires |payload| <= args.mtu || args.mtu % 8 == 0
    requires i * args.mtu < |payload|
    ensures var b := PieceOf(args, payload, i);
            var from := i * args.mtu;
            var to := if from + args.mtu < |payload| then from + args.mtu else |payload|;
            && |b| == 20 + (to - from) && b[20..] == payload[from..to]
            && b[0] == 0x45 && b[8] == 32 && b[9] == args.ends.protocol
            && b[2] as int * 256 + b[3] as int == |b| % 65536 && b[4] as int * 256 + b[5] as int == args.id
            && b[6] as int / 32 == (if |payload| <= args.mtu then 2 else if to < |payload| then 1 else 0)
            && (b[6] as int % 32 * 256 + b[7] as int) * 8 == from
            && b[10] as int * 256 + b[11] as int == args.checksum(b[..10] + [0, 0] + b[12..20]) % 65536
            && b[12..16] == args.ends.src && b[16..20] == args.ends.dst
  {
    var (len, mtu) := (|payload|, args.mtu);
    PieceBounds(len, mtu, i);
    PieceBounds(len, mtu, 1);
    FieldsFit(len, mtu, i);
    var data := Data(payload, mtu, i);
    LengthFieldWraps(data);
    var h := Header(args.ends, U16(|data| + 20), args.id, Flags(len, mtu, i), OffsetField(len, mtu, i), args.checksum);
    HeaderLayout(args.ends, U16(|data| + 20), args.id, Flags(len, mtu, i), OffsetField(len, mtu, i), args.checksum);
    hide Header, OffsetField, Count;
    var b := PieceOf(args, payload, i);
    assert b[..20] == h && b[20..] == data;
    assert b[..10] == h[..10] && b[12..20] == h[12..] && b[12..16] == h[12..16] && b[16..20] == h[16..20];
  }

  /** The first piece is as long as any. */
  lemma {:induction false} FirstIsTruncated(payload: seq<Byte>, mtu: nat, i: nat)
    requires mtu > 0 && i < Count(|payload|, mtu)
    ensures IsTruncated(payload, mtu, 0) <==> !PiecesFit(|payload|, mtu)
    ensures PiecesFit(|payload|, mtu) ==> !IsTruncated(payload, mtu, i)
  {
    PieceBounds(|payload|, mtu, i);
    PieceBounds(|payload|, mtu, 0);
    hide Count;
  }

  lemma {:induction false} FieldsFit(len: nat, mtu: nat, i: nat)
    requires mtu > 0 && len <= 0xffff && (len <= mtu || mtu % 8 == 0) && i < Count(len, mtu)
    ensures var cut := Cut(len, mtu, i);
            && cut % 8 == 0 && cut < len && Cut(len, mtu, i + 1) - cut <= mtu && Cut(len, mtu, i + 1) <= len
            && OffsetField(len, mtu, i) == cut / 8 < 0x2000
            && Flags(len, mtu, i) < 8 && (Flags(len, mtu, i) % 2 == 1 <==> i != Count(len, mtu) - 1)
  {
    PieceBounds(len, mtu, i);
    if Count(len, mtu) > 1 {
      OffsetIsAligned(len, mtu, i);
    }
    hide Count;
  }

  lemma {:induction false} PiecesUpTo(payload: seq<Byte>, mtu: nat, n: nat, parts: seq<seq<Byte>>)
    requires |parts| == n && forall i :: 0 <= i < n ==> parts[i] == Data(payload, mtu, i)
    ensures Concat(parts) == payload[..Cut(|payload|, mtu, n)]
  {
    if n > 0 {
      PiecesUpTo(payload, mtu, n - 1, parts[..n - 1]);
      Scale(n - 1, n, mtu);
      var (a, b) := (Cut(|payload|, mtu, n - 1), Cut(|payload|, mtu, n));
      assert payload[..b] == payload[..a] + payload[a..b];
    }
  }

  /** The payloads that a receiver reads out of packets. */
  function Payloads(sent: seq<seq<Byte>>): seq<seq<Byte>> {
    seq(|sent|, i requires 0 <= i < |sent| => if Parse(sent[i]).Some? then Parse(sent[i]).value.payload else [])
  }

  /** Whether a receiver hands the packet to its reassembler. */
  predicate IsFragmented(packet: Packet) {
    packet.fragmentOffset != 0 || packet.moreFragments
  }

  lemma {:induction false} ConcatLength(parts: seq<seq<Byte>>, payload: seq<Byte>, mtu: nat, n: nat)
    requires mtu > 0 && n <= |parts| && forall i :: 0 <= i < n ==> |parts[i]| <= |Data(payload, mtu, i)|
    ensures |Concat(parts[..n])| <= Cut(|payload|, mtu, n)
    ensures n > 0 && |parts[0]| < |Data(payload, mtu, 0)| ==> |Concat(parts[..n])| < Cut(|payload|, mtu, n)
  {
    if n > 0 {
      ConcatLength(parts, payload, mtu, n - 1);
      assert parts[..n][..n - 1] == parts[..n - 1];
      Scale(n - 1, n, mtu);
    }
  }

  /** Although every header after the first is written over payload bytes in the same buffer, offsets and flags
      read back right, and the payloads of the sent packets, in order, are the original payload exactly if
      no packet is too long for its length field. */
  lemma {:induction false} FragmentationIsFaithful(args: Args, payload: seq<Byte>, sent: seq<seq<Byte>>)
    requires ValidEndpoints(args.ends) && args.mtu > 0 && args.id <= 0xffff && |payload| <= 0xffff
    requires |payload| <= args.mtu || args.mtu % 8 == 0
    requires Sends(args, payload, sent) && |sent| == Count(|payload|, args.mtu)
    ensures Concat(Payloads(sent)) == payload <==> PiecesFit(|payload|, args.mtu)
    ensures forall i :: 0 <= i < |sent| ==>
              && Parse(sent[i]).Some?
              && (Parse(sent[i]).value.moreFragments <==> i < |sent| - 1)
              && Parse(sent[i]).value.fragmentOffset * 8 == Cut(|payload|, args.mtu, i)
              && (IsFragmented(Parse(sent[i]).value) <==> |sent| > 1)
  {
    hide Count, Cut, Data, PieceOf, Parse, IsTruncated, PiecesFit, Concat;
    var (len, mtu) := (|payload|, args.mtu);
    forall i | 0 <= i < |sent|
      ensures && Parse(sent[i]).Some?
              && (Parse(sent[i]).value.moreFragments <==> i < |sent| - 1)
              && Parse(sent[i]).value.fragmentOffset * 8 == Cut(len, mtu, i)
              && (IsFragmented(Parse(sent[i]).value) <==> |sent| > 1)
              && Payloads(sent)[i] == if IsTruncated(payload, mtu, i) then [] else Data(payload, mtu, i)
    {
      PieceReadsBack(args, payload, i);
      FirstCut(len, mtu, i);
    }
    AllPiecesReachEnd(len, mtu);
    if PiecesFit(len, mtu) {
      forall i | 0 <= i < |sent| ensures Payloads(sent)[i] == Data(payload, mtu, i) {
        FirstIsTruncated(payload, mtu, i);
      }
      PiecesUpTo(payload, mtu, |sent|, Payloads(sent));
    } else {
      LongestPieceIsLost(payload, mtu, Payloads(sent));
    }
  }

  lemma {:induction false} LongestPieceIsLost(payload: seq<Byte>, mtu: nat, parts: seq<seq<Byte>>)
    requires mtu > 0 && |parts| == Count(|payload|, mtu) && !PiecesFit(|payload|, mtu)
    requires forall i :: 0 <= i < |parts| ==> parts[i] == if IsTruncated(payload, mtu, i) then [] else Data(payload, mtu, i)
    ensures Concat(parts) != payload
  {
    PieceBounds(|payload|, mtu, 0);
    assert |parts| > 0;
    FirstIsTruncated(payload, mtu, 0);
    AllPiecesReachEnd(|payload|, mtu);
    ConcatLength(parts, payload, mtu, |parts|);
    assert parts[..|parts|] == parts;
  }

  lemma {:induction false} FirstCut(len: nat, mtu: nat, i: nat)
    requires mtu > 0 && i < Count(len, mtu)
    ensures Cut(len, mtu, i) == 0 <==> i == 0
  {
    PieceBounds(len, mtu, i);
    if i > 0 {
      Scale(1, i, mtu);
    }
  }

  lemma {:induction false} AllPiecesReachEnd(len: nat, mtu: nat)
    requires mtu > 0
    ensures Cut(len, mtu, Count(len, mtu)) == len
  {
    CountIsCeiling(len, mtu);
  }
}
