/** The fragment reassembler: pieces kept per datagram, completeness by length, assembly. */
module Reassembler {
  import opened Wrappers
  import opened Sorting
  import opened Ipv4

  datatype Fragment = Fragment(offset: nat, data: seq<Byte>)

  /** The pieces kept of one datagram and its length, once the last piece told it. */
  datatype Partial = Partial(totalLength: Option<nat>, fragments: seq<Fragment>)

  datatype Reassembly = Nothing | Assembled(data: seq<Byte>) | OutOfRange

  /** The 16-bit interval tests of the source. */
  predicate Overlaps(f: Fragment, g: Fragment) {
    || (f.offset <= g.offset && g.offset < U16(f.offset + U16(|f.data|)))
    || (g.offset <= f.offset && f.offset < U16(g.offset + U16(|g.data|)))
  }

  /** A piece that overlaps a kept one is ignored. */
  function Add(fs: seq<Fragment>, f: Fragment): seq<Fragment> {
    if exists g :: g in fs && Overlaps(g, f) then fs else fs + [f]
  }

  /** The 16-bit sum of the lengths of the first `n` pieces. */
  function TotalOf(fs: seq<Fragment>, n: nat): nat
    requires n <= |fs|
  {
    if n == 0 then 0 else U16(TotalOf(fs, n - 1) + U16(|fs[n - 1].data|))
  }

  predicate IsComplete(p: Partial) {
    p.totalLength == Some(TotalOf(p.fragments, |p.fragments|))
  }

  function Offset(f: Fragment): int {
    f.offset
  }

  /** Copies the first `n` pieces into the buffer; a copy beyond its end is fatal. */
  function CopyPieces(buf: seq<Byte>, fs: seq<Fragment>, n: nat): (r: Option<seq<Byte>>)
    requires n <= |fs|
    ensures r.Some? ==> |r.value| == |buf|
  {
    if n == 0 then Some(buf)
    else
      var r := CopyPieces(buf, fs, n - 1);
      var f := fs[n - 1];
      if r.None? || f.offset + |f.data| > |buf| then None
      else Some(r.value[..f.offset] + f.data + r.value[f.offset + |f.data|..])
  }

  function Assemble(p: Partial): Reassembly {
    if !IsComplete(p) then Nothing
    else
      var r := CopyPieces(seq(p.totalLength.value, _ => 0), SortBy(p.fragments, Offset), |p.fragments|);
      if r.Some? then Assembled(r.value) else OutOfRange
  }

  // ----- Slices of one datagram -----

  ghost predicate IsSlice(f: Fragment, datagram: seq<Byte>) {
    f.offset + |f.data| <= |datagram| && f.data == datagram[f.offset..f.offset + |f.data|]
  }

  predicate Covers(f: Fragment, i: int) {
    f.offset <= i < f.offset + |f.data|
  }

  ghost predicate IsCovered(fs: seq<Fragment>, i: int) {
    exists f :: f in fs && Covers(f, i)
  }

  ghost predicate Tiles(fs: seq<Fragment>, n: nat) {
    forall i :: 0 <= i < n ==> IsCovered(fs, i)
  }

  /** What every kept piece of a datagram of at most 65535 bytes satisfies. */
  ghost predicate AllSlices(fs: seq<Fragment>, datagram: seq<Byte>) {
    && (forall f :: f in fs ==> IsSlice(f, datagram))
    && (forall i, j :: 0 <= i < j < |fs| ==> !Overlaps(fs[i], fs[j]))
  }

  /** The positions of the first `n` pieces. */
  ghost function Positions(fs: seq<Fragment>, n: nat): set<int>
    requires n <= |fs|
  {
    if n == 0 then {} else Positions(fs, n - 1) + Range(fs[n - 1].offset, |fs[n - 1].data|)
  }

  ghost function Range(from: int, len: nat): (r: set<int>)
    ensures forall i :: i in r <==> from <= i < from + len
    ensures |r| == len
  {
    if len == 0 then {} else Range(from, len - 1) + {from + len - 1}
  }

  lemma {:induction false} PositionIsCovered(fs: seq<Fragment>, n: nat, i: int)
    requires n <= |fs|
    ensures i in Positions(fs, n) <==> exists k :: 0 <= k < n && Covers(fs[k], i)
  {
    hide Range;
    if n > 0 {
      PositionIsCovered(fs, n - 1, i);
      assert Covers(fs[n - 1], i) <==> i in Range(fs[n - 1].offset, |fs[n - 1].data|);
    }
  }

  lemma {:induction false} NoCommonPosition(f: Fragment, g: Fragment, datagram: seq<Byte>, i: int)
    requires IsSlice(f, datagram) && IsSlice(g, datagram) && |datagram| <= 0xffff && !Overlaps(f, g)
    ensures !(Covers(f, i) && Covers(g, i))
  {}

  lemma {:induction false} NewPositions(fs: seq<Fragment>, datagram: seq<Byte>, n: nat)
    requires AllSlices(fs, datagram) && |datagram| <= 0xffff && n < |fs|
    ensures Positions(fs, n) !! Range(fs[n].offset, |fs[n].data|)
  {
    forall i | i in Positions(fs, n) ensures i !in Range(fs[n].offset, |fs[n].data|) {
      PositionIsCovered(fs, n, i);
      var k :| 0 <= k < n && Covers(fs[k], i);
      NoCommonPosition(fs[k], fs[n], datagram, i);
    }
  }

  lemma {:induction false} NextPositions(fs: seq<Fragment>, datagram: seq<Byte>, n: nat)
    requires AllSlices(fs, datagram) && |datagram| <= 0xffff && n < |fs|
    requires Positions(fs, n) <= Range(0, |datagram|)
    ensures Positions(fs, n + 1) <= Range(0, |datagram|)
    ensures |Positions(fs, n + 1)| == |Positions(fs, n)| + |fs[n].data| <= |datagram|
  {
    NewPositions(fs, datagram, n);
    SliceEnds(fs, datagram, n);
    hide AllSlices, Range;
    SubsetSize(Positions(fs, n + 1), Range(0, |datagram|));
  }

  /** Without overlaps, the 16-bit sum of lengths counts the positions, and never wraps. */
  lemma {:induction false} TotalCountsPositions(fs: seq<Fragment>, datagram: seq<Byte>, n: nat)
    requires AllSlices(fs, datagram) && |datagram| <= 0xffff && n <= |fs|
    ensures Positions(fs, n) <= Range(0, |datagram|)
    ensures |Positions(fs, n)| == TotalOf(fs, n) <= |datagram|
  {
    hide AllSlices, Range, Positions, U16;
    if n > 0 {
      TotalCountsPositions(fs, datagram, n - 1);
      NextPositions(fs, datagram, n - 1);
    } else {
      NoPositions(fs);
    }
  }

  lemma {:induction false} NoPositions(fs: seq<Fragment>)
    ensures Positions(fs, 0) == {}
  {}

  lemma {:induction false} SliceEnds(fs: seq<Fragment>, datagram: seq<Byte>, k: nat)
    requires AllSlices(fs, datagram) && k < |fs|
    ensures fs[k].offset + |fs[k].data| <= |datagram|
  {
    assert fs[k] in fs;
  }

  lemma {:induction false} SubsetSize(a: set<int>, b: set<int>)
    requires a <= b
    ensures |a| <= |b|
    ensures |a| == |b| <==> a == b
  {
    assert b == a + (b - a);
    if a != b {
      assert b - a != {};
    }
  }

  /** The counting argument: kept pieces add up to the datagram exactly if they tile it. */
  lemma {:induction false} CompleteIffTiled(fs: seq<Fragment>, datagram: seq<Byte>)
    requires AllSlices(fs, datagram) && |datagram| <= 0xffff
    ensures TotalOf(fs, |fs|) == |datagram| <==> Tiles(fs, |datagram|)
  {
    TotalCountsPositions(fs, datagram, |fs|);
    hide AllSlices, Range;
    CoveredIffPosition(fs);
    SubsetSize(Positions(fs, |fs|), Range(0, |datagram|));
  }

  lemma {:induction false} CoveredIffPosition(fs: seq<Fragment>)
    ensures forall i :: i in Positions(fs, |fs|) <==> IsCovered(fs, i)
  {
    forall i ensures i in Positions(fs, |fs|) <==> IsCovered(fs, i) {
      PositionIsCovered(fs, |fs|, i);
      if IsCovered(fs, i) {
        var f :| f in fs && Covers(f, i);
        var k :| 0 <= k < |fs| && fs[k] == f;
      }
    }
  }

  // ----- Assembly -----

  lemma {:induction false} CopyOfSlices(buf: seq<Byte>, fs: seq<Fragment>, datagram: seq<Byte>, n: nat)
    requires (forall f :: f in fs ==> IsSlice(f, datagram)) && |buf| == |datagram| && n <= |fs|
    ensures var r := CopyPieces(buf, fs, n);
            r.Some? && forall i, k :: 0 <= i < |buf| && 0 <= k < n && Covers(fs[k], i) ==> r.value[i] == datagram[i]
  {
    if n > 0 {
      CopyOfSlices(buf, fs, datagram, n - 1);
      var f := fs[n - 1];
      assert f in fs;
      var r := CopyPieces(buf, fs, n - 1).value;
      var r' := r[..f.offset] + f.data + r[f.offset + |f.data|..];
      forall i | 0 <= i < |buf|
        ensures r'[i] == if Covers(f, i) then datagram[i] else r[i]
      {
        if Covers(f, i) {
          assert f.data[i - f.offset] == datagram[i];
        }
      }
    }
  }

  lemma {:induction false} SortedCovers(fs: seq<Fragment>, i: int) returns (k: nat)
    requires IsCovered(fs, i)
    ensures k < |fs| && Covers(SortBy(fs, Offset)[k], i)
  {
    var f :| f in fs && Covers(f, i);
    assert f in multiset(SortBy(fs, Offset));
    k :| 0 <= k < |fs| && SortBy(fs, Offset)[k] == f;
  }

  /** Assembling kept slices of a datagram yields the datagram once they tile it and its length is
      known, and nothing before; no copy goes out of range. */
  lemma {:induction false} AssembleIsExact(p: Partial, datagram: seq<Byte>)
    requires AllSlices(p.fragments, datagram) && |datagram| <= 0xffff
    requires p.totalLength.None? || p.totalLength == Some(|datagram|)
    ensures Assemble(p) == if p.totalLength.Some? && Tiles(p.fragments, |datagram|) then Assembled(datagram) else Nothing
  {
    CompleteIffTiled(p.fragments, datagram);
    if IsComplete(p) {
      var buf := seq(|datagram|, _ => 0);
      var sorted := SortBy(p.fragments, Offset);
      forall f | f in sorted ensures IsSlice(f, datagram) {
        assert f in multiset(p.fragments);
      }
      CopyOfSlices(buf, sorted, datagram, |sorted|);
      var r := CopyPieces(buf, sorted, |sorted|).value;
      forall i | 0 <= i < |datagram| ensures r[i] == datagram[i] {
        var k := SortedCovers(p.fragments, i);
      }
      assert r == datagram;
    }
  }

  lemma {:induction false} AddKeepsSlices(fs: seq<Fragment>, f: Fragment, datagram: seq<Byte>)
    requires AllSlices(fs, datagram) && IsSlice(f, datagram)
    ensures AllSlices(Add(fs, f), datagram)
  {}
}
