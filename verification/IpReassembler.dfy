/** The reassembler object: its table of partial datagrams and the loops that fill it. */
module IpReassembler {
  import opened Wrappers
  import opened Sorting
  import opened Ipv4
  import opened Reassembler
  import opened ReassemblerRuns

  /** Keeps a fragment unless it overlaps one already kept. */
  method AddFragment(fs: seq<Fragment>, f: Fragment) returns (fs': seq<Fragment>)
    ensures fs' == Add(fs, f)
  {
    for i := 0 to |fs|
      invariant forall k :: 0 <= k < i ==> !Overlaps(fs[k], f)
    {
      if Overlaps(fs[i], f) {
        assert fs[i] in fs;
        return fs;
      }
    }
    fs' := fs + [f];
  }

  method CheckComplete(p: Partial) returns (complete: bool)
    ensures complete == IsComplete(p)
  {
    if p.totalLength.None? {
      return false;
    }
    var total := 0;
    for i := 0 to |p.fragments|
      invariant total == TotalOf(p.fragments, i)
    {
      total := U16(total + U16(|p.fragments[i].data|));
    }
    return Some(total) == p.totalLength;
  }

  method CopyFragment(buf: array<Byte>, f: Fragment)
    requires f.offset + |f.data| <= buf.Length
    modifies buf
    ensures buf[..] == old(buf[..f.offset]) + f.data + old(buf[f.offset + |f.data|..])
  {
    forall i | 0 <= i < |f.data| {
      buf[f.offset + i] := f.data[i];
    }
  }

  method CopyAll(n: nat, fs: seq<Fragment>) returns (r: Option<seq<Byte>>)
    ensures r == CopyPieces(seq(n, _ => 0), fs, |fs|)
  {
    var buf := new Byte[n](_ => 0);
    ghost var zeros := seq(n, _ => 0);
    assert buf[..] == zeros;
    for i := 0 to |fs|
      invariant CopyPieces(zeros, fs, i) == Some(buf[..])
    {
      if fs[i].offset + |fs[i].data| > n {
        NoRecovery(zeros, fs, i + 1, |fs|);
        return None;
      }
      ghost var before := buf[..];
      CopyFragment(buf, fs[i]);
      assert buf[..] == before[..fs[i].offset] + fs[i].data + before[fs[i].offset + |fs[i].data|..];
    }
    return Some(buf[..]);
  }

  method AssembleBuffer(p: Partial) returns (r: Reassembly)
    ensures r == Assemble(p)
  {
    var complete := CheckComplete(p);
    if !complete {
      return Nothing;
    }
    var copied := CopyAll(p.totalLength.value, SortBy(p.fragments, Offset));
    return if copied.Some? then Assembled(copied.value) else OutOfRange;
  }

  lemma {:induction false} NoRecovery(buf: seq<Byte>, fs: seq<Fragment>, m: nat, n: nat)
    requires m <= n <= |fs| && CopyPieces(buf, fs, m).None?
    ensures CopyPieces(buf, fs, n).None?
  {
    if m < n {
      NoRecovery(buf, fs, m, n - 1);
    }
  }

  class IpReassembler {
    var packets: Table
    const timeout: nat

    constructor (timeout: nat)
      ensures packets == map[] && this.timeout == timeout
    {
      packets := map[];
      this.timeout := timeout;
    }

    method Arrived(source: seq<Byte>, destination: seq<Byte>, packet: Packet, now: nat) returns (r: Reassembly)
      modifies this
      ensures (packets, r) == Arrive(old(packets), Arrival(source, destination, packet, now))
    {
      var length := ClaimedLength(packet);
      if length != U16(|packet.payload|) {
        return Nothing;
      }
      var f, k := FragmentOf(packet), Key(source, destination, packet.id);
      var partial := KnownSoFar(packets, k);
      if !packet.moreFragments {
        partial := partial.(totalLength := Some(U16(length + f.offset)));
      }
      var kept := AddFragment(partial.fragments, f);
      partial := partial.(fragments := kept);
      r := AssembleBuffer(partial);
      if r.Assembled? {
        packets := packets - {k};
      } else {
        packets := packets[k := Entry(partial, now)];
      }
    }

    /** A datagram stays, unchanged, exactly if a packet of it came no longer than the timeout ago. */
    method RemoveExpiredPackets(now: nat)
      modifies this
      ensures forall k :: k in packets <==> k in old(packets) && now - old(packets)[k].timestamp <= timeout
      ensures forall k :: k in packets ==> packets[k] == old(packets)[k]
      ensures packets == RemoveExpired(old(packets), now, timeout)
    {
      var unseen := packets.Keys;
      while unseen != {}
        invariant unseen <= packets.Keys <= old(packets).Keys
        invariant forall k :: k in packets ==> packets[k] == old(packets)[k]
        invariant forall k :: k in old(packets) && k !in unseen ==>
                    (k in packets <==> now - old(packets)[k].timestamp <= timeout)
      {
        var k :| k in unseen;
        unseen := unseen - {k};
        if now - packets[k].timestamp > timeout {
          packets := packets - {k};
        }
      }
    }
  }
}
