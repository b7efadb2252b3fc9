/** IPv4 packets as section 3.1 of RFC 791 lays them out, as far as fragmentation needs them. */
module Ipv4 {
  import opened Wrappers

  type Byte = x: int | 0 <= x < 0x100

  /** Truncation to 16 bits. */
  function U16(x: int): (r: nat)
    ensures 0 <= x < 0x1_0000 ==> r == x
  {
    x % 0x1_0000
  }

  function Hi(x: nat): Byte {
    x / 0x100 % 0x100
  }

  function Lo(x: nat): Byte {
    x % 0x100
  }

  /** The fields of a packet that the reassembler reads; the offset counts units of eight bytes,
      the header length units of four. */
  datatype Packet = Packet(
    headerLength: nat, totalLength: nat, id: nat, moreFragments: bool, fragmentOffset: nat, payload: seq<Byte>)

  const DONT_FRAGMENT := 2
  const MORE_FRAGMENTS := 1

  datatype Endpoints = Endpoints(src: seq<Byte>, dst: seq<Byte>, protocol: Byte)

  predicate ValidEndpoints(ends: Endpoints) {
    |ends.src| == 4 && |ends.dst| == 4
  }

  /** A header up to its checksum. */
  function Front(ends: Endpoints, totalLength: nat, id: nat, flags: nat, offset: nat): seq<Byte> {
    [0x45, 0, Hi(totalLength), Lo(totalLength), Hi(id), Lo(id),
     (flags % 8) * 32 + offset / 0x100 % 32, Lo(offset), 32, ends.protocol]
  }

  /** A 20-byte header; `checksum` sees the header with a zero checksum field. */
  function Header(ends: Endpoints, totalLength: nat, id: nat, flags: nat, offset: nat,
                  checksum: seq<Byte> -> nat): (h: seq<Byte>)
    requires ValidEndpoints(ends)
    ensures |h| == 20
  {
    var front := Front(ends, totalLength, id, flags, offset);
    var sum := checksum(front + [0, 0] + ends.src + ends.dst);
    front + [Hi(sum), Lo(sum)] + ends.src + ends.dst
  }

  function Word(b: seq<Byte>, i: nat): nat
    requires i + 1 < |b|
  {
    (b[i] as int) * 0x100 + b[i + 1] as int
  }

  /** Reading a packet back; too short a buffer is no packet. */
  function Parse(b: seq<Byte>): Option<Packet> {
    if |b| < 20 then None
    else
      var (ihl, total) := (b[0] as int % 16, Word(b, 2));
      var start := ihl * 4;
      var end := if total < start then start else if total > |b| then |b| else total;
      Some(Packet(ihl, total, Word(b, 4), b[6] as int / 32 % 2 == 1, (b[6] as int) % 32 * 0x100 + b[7] as int,
                  if start <= end <= |b| then b[start..end] else []))
  }

  lemma {:induction false} SplitWord(x: nat)
    requires x <= 0xffff
    ensures (Hi(x) as int) * 0x100 + Lo(x) as int == x
  {}

  lemma {:induction false} SplitFlags(flags: nat, offset: nat)
    requires flags < 8 && offset < 0x2000
    ensures var b := (flags % 8) * 32 + offset / 0x100 % 32;
            b / 32 % 2 == flags % 2 && b % 32 * 0x100 + Lo(offset) as int == offset
  {
    var b := flags * 32 + offset / 0x100;
    assert b / 32 == flags && b % 32 == offset / 0x100;
  }

  lemma {:induction false} HeaderBytes(ends: Endpoints, totalLength: nat, id: nat, flags: nat, offset: nat,
                                       checksum: seq<Byte> -> nat)
    requires ValidEndpoints(ends)
    ensures var h := Header(ends, totalLength, id, flags, offset, checksum);
            && h[0] == 0x45 && h[2] == Hi(totalLength) && h[3] == Lo(totalLength) && h[4] == Hi(id) && h[5] == Lo(id)
            && h[6] == (flags % 8) * 32 + offset / 0x100 % 32 && h[7] == Lo(offset)
  {}

  lemma {:induction false} HeaderTail(ends: Endpoints, totalLength: nat, id: nat, flags: nat, offset: nat,
                                      checksum: seq<Byte> -> nat)
    requires ValidEndpoints(ends)
    ensures var h := Header(ends, totalLength, id, flags, offset, checksum);
            && h[1] == 0 && h[8] == 32 && h[9] == ends.protocol && h[12..16] == ends.src && h[16..20] == ends.dst
            && var sum := checksum(h[..10] + [0, 0] + h[12..]); h[10] == Hi(sum) && h[11] == Lo(sum)
  {
    var h := Header(ends, totalLength, id, flags, offset, checksum);
    var front := Front(ends, totalLength, id, flags, offset);
    assert h[..10] == front && h[12..] == ends.src + ends.dst;
    assert front + [0, 0] + ends.src + ends.dst == front + [0, 0] + (ends.src + ends.dst);
  }

  lemma {:induction false} FlagBits(flags: nat, offset: nat)
    requires flags < 8 && offset < 0x2000
    ensures (flags % 8 * 32 + offset / 0x100 % 32) / 32 == flags
  {}

  lemma {:induction false} SumBytes(x: nat)
    ensures (Hi(x) as int) * 0x100 + Lo(x) as int == x % 0x1_0000
  {}

  /** The 20 bytes of a header, as RFC 791 lays them out: most significant byte first, the flags in the upper three
      bits of byte 6, and a checksum over the header with a zero checksum field. */
  lemma {:induction false} HeaderLayout(ends: Endpoints, total: nat, id: nat, flags: nat, offset: nat,
                                        checksum: seq<Byte> -> nat)
    requires ValidEndpoints(ends) && total <= 0xffff && id <= 0xffff && flags < 8 && offset < 0x2000
    ensures var h := Header(ends, total, id, flags, offset, checksum);
            && h[0] == 0x45 && h[1] == 0 && h[8] == 32 && h[9] == ends.protocol
            && h[2] as int * 256 + h[3] as int == total && h[4] as int * 256 + h[5] as int == id
            && h[6] as int / 32 == flags && h[6] as int % 32 * 256 + h[7] as int == offset
            && h[10] as int * 256 + h[11] as int == checksum(h[..10] + [0, 0] + h[12..]) % 65536
            && h[12..16] == ends.src && h[16..20] == ends.dst
  {
    hide Header, Hi, Lo;
    HeaderBytes(ends, total, id, flags, offset, checksum);
    HeaderTail(ends, total, id, flags, offset, checksum);
    SplitWord(total);
    SplitWord(id);
    SplitFlags(flags, offset);
    FlagBits(flags, offset);
    var h := Header(ends, total, id, flags, offset, checksum);
    SumBytes(checksum(h[..10] + [0, 0] + h[12..]));
  }

  /** What a packet with the given length field still shows of its data. */
  function Visible(total: nat, data: seq<Byte>): seq<Byte> {
    if total <= 20 then [] else if total - 20 <= |data| then data[..total - 20] else data
  }

  lemma {:induction false} ParseOf(b: seq<Byte>, total: nat, id: nat, more: bool, offset: nat, data: seq<Byte>)
    requires |b| == 20 + |data| && b[20..] == data && b[0] == 0x45 && Word(b, 2) == total && Word(b, 4) == id
    requires (b[6] as int / 32 % 2 == 1 <==> more) && b[6] as int % 32 * 0x100 + b[7] as int == offset
    ensures Parse(b) == Some(Packet(5, total, id, more, offset, Visible(total, data)))
  {
    hide Word;
    assert b[20..|b|] == data;
    assert 20 <= total <= |b| ==> b[20..total] == data[..total - 20];
  }

  /** A written packet reads back as it was written, as far as its length field reaches. */
  lemma {:induction false} ParseOfHeader(ends: Endpoints, total: nat, id: nat, flags: nat, offset: nat,
                                         checksum: seq<Byte> -> nat, data: seq<Byte>)
    requires ValidEndpoints(ends)
    requires total <= 0xffff && id <= 0xffff && flags < 8 && offset < 0x2000
    ensures Parse(Header(ends, total, id, flags, offset, checksum) + data)
            == Some(Packet(5, total, id, flags % 2 == 1, offset, Visible(total, data)))
  {
    hide Hi, Lo, Header, Parse, Visible;
    var b := Header(ends, total, id, flags, offset, checksum) + data;
    HeaderBytes(ends, total, id, flags, offset, checksum);
    SplitWord(total);
    SplitWord(id);
    SplitFlags(flags, offset);
    assert b[20..] == data;
    ParseOf(b, total, id, flags % 2 == 1, offset, data);
  }
}
