/** Isochronous transfers (transfer_impl.cpp): gathering the bytes of the packets
    that completed, describing the packets to the host, and the host's inverse. */
module Iso {
  import opened Prelude
  import Vhci

  const EINVAL := 22

  datatype Packet = Packet(length: u32, actual: u32, completed: bool)

  /** A transfer as libusb returns it; `length` is the size of the buffer. */
  datatype Transfer = Transfer(buffer: seq<byte>, actualLength: nat, packets: seq<Packet>) {
    predicate IsIso() { packets != [] }

    /** What libusb promises about a completed transfer. */
    ghost predicate Valid() {
      && actualLength <= |buffer| < TWO_31
      && |packets| * Vhci.ISO_DESCRIPTOR_SIZE < TWO_31
      && Fits(packets)
      && TotalLength(packets) <= |buffer|
    }
  }

  /** A `usbip_iso_packet_descriptor`, before conversion to network order. */
  datatype Descriptor = Descriptor(offset: u32, length: u32, actual: u32, status: i32)

  datatype Descriptors = Descriptors(dataSize: nat, list: seq<Descriptor>, errorCount: nat)

  ghost predicate Fits(ps: seq<Packet>) { forall p :: p in ps ==> p.actual <= p.length }

  function TotalLength(ps: seq<Packet>): nat {
    if ps == [] then 0 else ps[0].length + TotalLength(ps[1..])
  }

  function TotalActual(ps: seq<Packet>): nat {
    if ps == [] then 0 else ps[0].actual + TotalActual(ps[1..])
  }

  function Failures(ps: seq<Packet>): nat {
    if ps == [] then 0 else (if ps[0].completed then 0 else 1) + Failures(ps[1..])
  }

  /** The loop of `iso_data`: a failed packet does not move the offset. */
  function GatherFrom(buffer: seq<byte>, ps: seq<Packet>, offset: nat): seq<byte>
    requires Fits(ps) && offset + TotalLength(ps) <= |buffer|
  {
    if ps == [] then []
    else if !ps[0].completed then GatherFrom(buffer, ps[1..], offset)
    else buffer[offset..offset + ps[0].actual] + GatherFrom(buffer, ps[1..], offset + ps[0].length)
  }

  /** The bytes the completed packets really hold, in packet order. */
  ghost function OwnBytes(buffer: seq<byte>, ps: seq<Packet>, offset: nat): seq<byte>
    requires Fits(ps) && offset + TotalLength(ps) <= |buffer|
  {
    if ps == [] then []
    else
      (if ps[0].completed then buffer[offset..offset + ps[0].actual] else [])
      + OwnBytes(buffer, ps[1..], offset + ps[0].length)
  }

  function DescriptorOf(p: Packet, offset: u32): Descriptor {
    Descriptor(offset, p.length, p.actual, if p.completed then 0 else -EINVAL)
  }

  function DescribeFrom(ps: seq<Packet>, offset: nat): (ds: seq<Descriptor>)
    requires offset + TotalLength(ps) < TWO_32
    ensures |ds| == |ps|
  {
    if ps == [] then []
    else [DescriptorOf(ps[0], offset)] + DescribeFrom(ps[1..], offset + ps[0].length)
  }

  function IsoData(t: Transfer): seq<byte>
    requires t.Valid()
  {
    GatherFrom(t.buffer, t.packets, 0)
  }

  function Describe(t: Transfer): Descriptors
    requires t.Valid()
  {
    Descriptors(TotalActual(t.packets), DescribeFrom(t.packets, 0), Failures(t.packets))
  }

  function DescriptorBytes(ds: seq<Descriptor>): (bs: seq<byte>)
    ensures |bs| == Vhci.ISO_DESCRIPTOR_SIZE * |ds|
  {
    if ds == [] then []
    else Vhci.Words([ds[0].offset, ds[0].length, ds[0].actual, Word(ds[0].status)]) + DescriptorBytes(ds[1..])
  }

  /** A packet is described at the sum of the lengths before it, failed ones included. */
  lemma {:induction false} DescribedAt(ps: seq<Packet>, offset: nat, i: nat)
    requires i < |ps| && offset + TotalLength(ps) < TWO_32
    ensures offset + TotalLength(ps[..i]) < TWO_32
    ensures DescribeFrom(ps, offset)[i] == DescriptorOf(ps[i], offset + TotalLength(ps[..i]))
  {
    if i > 0 {
      DescribedAt(ps[1..], offset + ps[0].length, i - 1);
      assert ps[..i][1..] == ps[1..][..i - 1] && ps[..i][0] == ps[0];
    }
  }

  // What the descriptors and the error count say, packet by packet.

  ghost function Failed(ps: seq<Packet>): set<nat> { set i: nat | i < |ps| && !ps[i].completed }

  lemma {:induction false} FailuresAppend(ps: seq<Packet>, p: Packet)
    ensures Failures(ps + [p]) == Failures(ps) + if p.completed then 0 else 1
  {
    if ps == [] {
      assert ps + [p] == [p];
    } else {
      assert (ps + [p])[0] == ps[0] && (ps + [p])[1..] == ps[1..] + [p];
      FailuresAppend(ps[1..], p);
    }
  }

  lemma {:induction false} FailuresAre(ps: seq<Packet>)
    ensures Failures(ps) == |Failed(ps)|
    decreases |ps|
  {
    if ps == [] {
      assert Failed(ps) == {};
    } else {
      var n := |ps| - 1;
      var init := ps[..n];
      assert ps == init + [ps[n]];
      FailuresAppend(init, ps[n]);
      FailuresAre(init);
      assert Failed(ps) == Failed(init) + if ps[n].completed then {} else {n};
    }
  }

  /** d tells of the i-th packet where its share of the buffer begins, how long that is,
      how much of it is used, and whether it failed. */
  predicate Tells(d: Descriptor, ps: seq<Packet>, i: nat)
    requires i < |ps|
  {
    && d.offset == TotalLength(ps[..i]) && d.length == ps[i].length && d.actual == ps[i].actual
    && d.status == if ps[i].completed then 0 else -22
  }

  lemma DescribedPackets(t: Transfer)
    requires t.Valid()
    ensures var d := Describe(t);
      && |d.list| == |t.packets| && (forall i :: 0 <= i < |t.packets| ==> Tells(d.list[i], t.packets, i))
      && d.errorCount == |Failed(t.packets)|
  {
    forall i | 0 <= i < |t.packets| ensures Tells(Describe(t).list[i], t.packets, i) { DescribedAt(t.packets, 0, i); }
    FailuresAre(t.packets);
  }

  /** A host's reading of descriptors, sixteen bytes each. */
  function HostDescriptors(bs: seq<byte>): seq<Descriptor> {
    if |bs| < Vhci.ISO_DESCRIPTOR_SIZE then []
    else
      [Descriptor(Vhci.WordAt(bs, 0), Vhci.WordAt(bs, 1), Vhci.WordAt(bs, 2), Int32(Vhci.WordAt(bs, 3)))]
      + HostDescriptors(bs[Vhci.ISO_DESCRIPTOR_SIZE..])
  }

  lemma {:induction false} DescriptorsDecode(ds: seq<Descriptor>)
    ensures HostDescriptors(DescriptorBytes(ds)) == ds
  {
    hide Vhci.Words, Vhci.WordAt, Int32, Word;
    if ds != [] {
      var d, rest := ds[0], DescriptorBytes(ds[1..]);
      var ws := [d.offset, d.length, d.actual, Word(d.status)];
      Vhci.WordsDecode(ws, rest);
      assert DescriptorBytes(ds) == Vhci.Words(ws) + rest;
      assert ws[0] == d.offset && ws[1] == d.length && ws[2] == d.actual && ws[3] == Word(d.status);
      Int32Word(d.status);
      DescriptorsDecode(ds[1..]);
    }
  }

  /** `actual_length`. */
  function ActualLength(t: Transfer): nat {
    if t.IsIso() then TotalActual(t.packets) else t.actualLength
  }

  // ------------------------------------------------------------------ the loops

  method GatherIsoData(t: Transfer) returns (data: seq<byte>)
    requires t.Valid()
    ensures data == IsoData(t)
  {
    hide GatherFrom, TotalLength, Fits;
    data := [];
    var offset := 0;
    assert t.packets[0..] == t.packets && [] + IsoData(t) == IsoData(t);
    for i := 0 to |t.packets|
      invariant Fits(t.packets[i..]) && 0 <= offset && offset + TotalLength(t.packets[i..]) <= |t.buffer|
      invariant IsoData(t) == data + GatherFrom(t.buffer, t.packets[i..], offset)
    {
      var iso := t.packets[i];
      GatherAt(t.buffer, t.packets, i, offset, data);
      if iso.completed {
        data := data + t.buffer[offset..offset + iso.actual];
        offset := offset + iso.length;
      }
    }
    GatherNone(t.buffer, t.packets, offset);
    assert data + [] == data;
  }

  lemma GatherFirst(buffer: seq<byte>, ps: seq<Packet>, offset: nat)
    requires ps != [] && Fits(ps) && offset + TotalLength(ps) <= |buffer|
    ensures ps[0].actual <= ps[0].length && Fits(ps[1..])
    ensures TotalLength(ps) == ps[0].length + TotalLength(ps[1..])
    ensures ps[0].completed ==>
      GatherFrom(buffer, ps, offset) == buffer[offset..offset + ps[0].actual] + GatherFrom(buffer, ps[1..], offset + ps[0].length)
    ensures !ps[0].completed ==> GatherFrom(buffer, ps, offset) == GatherFrom(buffer, ps[1..], offset)
  {
    assert ps[0] in ps;
  }

  lemma GatherAt(buffer: seq<byte>, ps: seq<Packet>, i: nat, offset: nat, data: seq<byte>)
    requires i < |ps| && Fits(ps[i..]) && offset + TotalLength(ps[i..]) <= |buffer|
    ensures ps[i].actual <= ps[i].length && Fits(ps[i + 1..])
    ensures TotalLength(ps[i..]) == ps[i].length + TotalLength(ps[i + 1..])
    ensures data + GatherFrom(buffer, ps[i..], offset) ==
      if ps[i].completed then
        data + buffer[offset..offset + ps[i].actual] + GatherFrom(buffer, ps[i + 1..], offset + ps[i].length)
      else data + GatherFrom(buffer, ps[i + 1..], offset)
  {
    hide GatherFrom, TotalLength, Fits;
    assert ps[i..][1..] == ps[i + 1..] && ps[i..][0] == ps[i];
    GatherFirst(buffer, ps[i..], offset);
  }

  lemma GatherNone(buffer: seq<byte>, ps: seq<Packet>, offset: nat)
    requires offset <= |buffer|
    ensures Fits(ps[|ps|..]) && TotalLength(ps[|ps|..]) == 0 && GatherFrom(buffer, ps[|ps|..], offset) == []
  {
  }

  method DescribePackets(t: Transfer) returns (d: Descriptors)
    requires t.Valid()
    ensures d == Describe(t)
  {
    hide TotalLength, TotalActual, Failures, DescribeFrom, Fits, DescriptorOf;
    d := Descriptors(0, [], 0);
    var offset := 0;
    assert t.packets[0..] == t.packets;
    assert [] + DescribeFrom(t.packets, 0) == DescribeFrom(t.packets, 0);
    for i := 0 to |t.packets|
      invariant 0 <= offset && offset + TotalLength(t.packets[i..]) < TWO_32
      invariant TotalActual(t.packets) == d.dataSize + TotalActual(t.packets[i..])
      invariant Failures(t.packets) == d.errorCount + Failures(t.packets[i..])
      invariant Describe(t).list == d.list + DescribeFrom(t.packets[i..], offset)
    {
      var iso := t.packets[i];
      Unroll(t.packets, i, offset);
      ghost var tail := DescribeFrom(t.packets[i + 1..], offset + iso.length);
      assert d.list + DescribeFrom(t.packets[i..], offset) == d.list + [DescriptorOf(iso, offset)] + tail;
      d := Descriptors(
        d.dataSize + iso.actual,
        d.list + [DescriptorOf(iso, offset)],
        d.errorCount + if iso.completed then 0 else 1);
      offset := offset + iso.length;
    }
    NoneLeft(t.packets, offset);
    assert d.list + [] == d.list;
  }

  lemma Unroll(ps: seq<Packet>, i: nat, offset: nat)
    requires i < |ps| && offset + TotalLength(ps[i..]) < TWO_32
    ensures TotalLength(ps[i..]) == ps[i].length + TotalLength(ps[i + 1..])
    ensures TotalActual(ps[i..]) == ps[i].actual + TotalActual(ps[i + 1..])
    ensures Failures(ps[i..]) == (if ps[i].completed then 0 else 1) + Failures(ps[i + 1..])
    ensures DescribeFrom(ps[i..], offset) == [DescriptorOf(ps[i], offset)] + DescribeFrom(ps[i + 1..], offset + ps[i].length)
  {
    assert ps[i..][0] == ps[i] && ps[i..][1..] == ps[i + 1..];
  }

  lemma NoneLeft(ps: seq<Packet>, offset: nat)
    requires offset < TWO_32
    ensures TotalActual(ps[|ps|..]) == 0 && Failures(ps[|ps|..]) == 0 && TotalLength(ps[|ps|..]) == 0
    ensures DescribeFrom(ps[|ps|..], offset) == []
  {
  }

  // ------------------------------------------------------------ the three sizes

  ghost predicate FailedAreEmpty(ps: seq<Packet>) { forall p :: p in ps && !p.completed ==> p.actual == 0 }

  lemma {:induction false} GatherSize(buffer: seq<byte>, ps: seq<Packet>, offset: nat)
    requires Fits(ps) && offset + TotalLength(ps) <= |buffer|
    ensures |GatherFrom(buffer, ps, offset)| <= TotalActual(ps) <= TotalLength(ps)
    ensures |GatherFrom(buffer, ps, offset)| == TotalActual(ps) <==> FailedAreEmpty(ps)
  {
    if ps != [] {
      assert ps == [ps[0]] + ps[1..];
      GatherSize(buffer, ps[1..], if ps[0].completed then offset + ps[0].length else offset);
    }
  }

  /** The size announced to the host is the size of the gathered data exactly when
      no failed packet reports bytes; it never is smaller and never overruns. */
  lemma SizesAgree(t: Transfer)
    requires t.Valid() && t.IsIso()
    ensures |IsoData(t)| <= Describe(t).dataSize == ActualLength(t) <= |t.buffer|
    ensures |IsoData(t)| == Describe(t).dataSize <==> FailedAreEmpty(t.packets)
  {
    GatherSize(t.buffer, t.packets, 0);
  }

  // --------------------------------------------------------------- the alignment

  /** No completed packet holds anything. */
  ghost predicate NoData(ps: seq<Packet>) {
    ps != [] ==> (ps[0].completed ==> ps[0].actual == 0) && NoData(ps[1..])
  }

  /** No packet with data comes after a failed packet that takes up room. */
  ghost predicate Aligned(ps: seq<Packet>) {
    ps != [] ==> (!ps[0].completed && ps[0].length > 0 ==> NoData(ps[1..])) && Aligned(ps[1..])
  }

  lemma {:induction false} NoDataIsAligned(ps: seq<Packet>)
    ensures NoData(ps) ==> Aligned(ps)
  {
    if ps != [] { NoDataIsAligned(ps[1..]); }
  }

  lemma {:induction false} AllCompletedIsAligned(ps: seq<Packet>)
    requires forall p :: p in ps ==> p.completed
    ensures Aligned(ps)
  {
    if ps != [] { AllCompletedIsAligned(ps[1..]); }
  }

  /** Both ways of reading, one packet on. */
  lemma BothFirst(buffer: seq<byte>, ps: seq<Packet>, offset: nat, start: nat)
    requires ps != [] && Fits(ps) && offset <= start && start + TotalLength(ps) <= |buffer|
    ensures ps[0].actual <= ps[0].length && Fits(ps[1..]) && TotalLength(ps) == ps[0].length + TotalLength(ps[1..])
    ensures ps[0].completed ==>
      && GatherFrom(buffer, ps, offset) == buffer[offset..offset + ps[0].actual] + GatherFrom(buffer, ps[1..], offset + ps[0].length)
      && OwnBytes(buffer, ps, start) == buffer[start..start + ps[0].actual] + OwnBytes(buffer, ps[1..], start + ps[0].length)
    ensures ps[0].completed && ps[0].actual == 0 ==>
      && GatherFrom(buffer, ps, offset) == GatherFrom(buffer, ps[1..], offset + ps[0].length)
      && OwnBytes(buffer, ps, start) == OwnBytes(buffer, ps[1..], start + ps[0].length)
    ensures !ps[0].completed ==>
      && GatherFrom(buffer, ps, offset) == GatherFrom(buffer, ps[1..], offset)
      && OwnBytes(buffer, ps, start) == OwnBytes(buffer, ps[1..], start + ps[0].length)
  {
    hide Fits, GatherFrom;
    GatherFirst(buffer, ps, offset);
    var o := OwnBytes(buffer, ps[1..], start + ps[0].length);
    assert [] + o == o;
    if ps[0].completed && ps[0].actual == 0 {
      var g := GatherFrom(buffer, ps[1..], offset + ps[0].length);
      assert [] + g == g && buffer[offset..offset] == [] && buffer[start..start] == [];
    }
  }

  lemma {:induction false} AlignedGathersOwnBytes(buffer: seq<byte>, ps: seq<Packet>, offset: nat, start: nat)
    requires Fits(ps) && offset <= start && start + TotalLength(ps) <= |buffer|
    requires Aligned(ps) && (offset < start ==> NoData(ps))
    ensures GatherFrom(buffer, ps, offset) == OwnBytes(buffer, ps, start)
  {
    hide Fits, GatherFrom, OwnBytes, TotalLength;
    if ps == [] {
      NothingGathered(buffer, ps, offset, start);
    } else {
      var p, rest := ps[0], ps[1..];
      BothFirst(buffer, ps, offset, start);
      if p.completed {
        AlignedGathersOwnBytes(buffer, rest, offset + p.length, start + p.length);
      } else {
        AlignedGathersOwnBytes(buffer, rest, offset, start + p.length);
      }
    }
  }

  lemma NothingGathered(buffer: seq<byte>, ps: seq<Packet>, offset: nat, start: nat)
    requires ps == [] && offset <= start <= |buffer|
    ensures Fits(ps) && TotalLength(ps) == 0 && GatherFrom(buffer, ps, offset) == OwnBytes(buffer, ps, start)
  {
  }

  /** A buffer that is zero but for one byte. */
  ghost function Marked(size: nat, mark: nat): (buffer: seq<byte>)
    ensures |buffer| == size
  {
    seq(size, i => if i == mark then 1 else 0)
  }

  lemma FirstByte(a: seq<byte>, b: seq<byte>, c: seq<byte>, d: seq<byte>)
    requires a != [] && c != [] && a[0] != c[0]
    ensures a + b != c + d
  {
    assert (a + b)[0] == a[0] && (c + d)[0] == c[0];
  }

  /** With a hole before it, the first packet that carries data is read too early: a
      buffer that is zero but for that packet's first byte shows it. */
  lemma {:induction false} HoleShiftsData(size: nat, ps: seq<Packet>, offset: nat, start: nat) returns (mark: nat)
    requires Fits(ps) && offset < start && start + TotalLength(ps) <= size
    requires !NoData(ps)
    ensures start <= mark < size
    ensures GatherFrom(Marked(size, mark), ps, offset) != OwnBytes(Marked(size, mark), ps, start)
  {
    hide Fits, GatherFrom, OwnBytes, TotalLength;
    var p, rest := ps[0], ps[1..];
    BothFirst(Marked(size, start), ps, offset, start);
    if p.completed && p.actual > 0 {
      mark := start;
      var buffer := Marked(size, mark);
      FirstByte(buffer[offset..offset + p.actual], GatherFrom(buffer, rest, offset + p.length),
                buffer[start..start + p.actual], OwnBytes(buffer, rest, start + p.length));
    } else {
      hide Marked;
      mark := HoleShiftsData(size, rest, if p.completed then offset + p.length else offset, start + p.length);
      BothFirst(Marked(size, mark), ps, offset, start);
    }
  }

  lemma {:induction false} MisalignedShiftsData(size: nat, ps: seq<Packet>, offset: nat) returns (mark: nat)
    requires Fits(ps) && offset + TotalLength(ps) <= size
    requires !Aligned(ps)
    ensures offset <= mark < size
    ensures GatherFrom(Marked(size, mark), ps, offset) != OwnBytes(Marked(size, mark), ps, offset)
  {
    hide Fits, Marked, GatherFrom, OwnBytes, TotalLength;
    var p, rest := ps[0], ps[1..];
    BothFirst(Marked(size, offset), ps, offset, offset);
    NoDataIsAligned(rest);
    if !p.completed && p.length > 0 {
      mark := HoleShiftsData(size, rest, offset, offset + p.length);
    } else {
      mark := MisalignedShiftsData(size, rest, offset + p.length);
    }
    var buffer := Marked(size, mark);
    BothFirst(buffer, ps, offset, offset);
    if p.completed {
      SameHead(buffer[offset..offset + p.actual], GatherFrom(buffer, rest, offset + p.length), OwnBytes(buffer, rest, offset + p.length));
    }
  }

  lemma SameHead(head: seq<byte>, a: seq<byte>, b: seq<byte>)
    ensures head + a == head + b ==> a == b
  {
    assert a == (head + a)[|head|..] && b == (head + b)[|head|..];
  }

  /** Exactly when `iso_data` returns the completed packets' own bytes whatever the
      buffer holds: when no packet with data follows a failed packet with room. */
  lemma GathersOwnBytesIff(ps: seq<Packet>, size: nat)
    requires Fits(ps) && TotalLength(ps) <= size
    ensures (forall buffer: seq<byte> :: |buffer| == size ==> GatherFrom(buffer, ps, 0) == OwnBytes(buffer, ps, 0))
       <==> Aligned(ps)
  {
    if Aligned(ps) {
      forall buffer: seq<byte> | |buffer| == size ensures GatherFrom(buffer, ps, 0) == OwnBytes(buffer, ps, 0) {
        AlignedGathersOwnBytes(buffer, ps, 0, 0);
      }
    } else {
      var mark := MisalignedShiftsData(size, ps, 0);
      assert |Marked(size, mark)| == size;
    }
  }

  // --------------------------------------------------------------- gather, scatter

  /** One packet's bytes put in place. */
  function Put(into: seq<byte>, own: seq<byte>, offset: nat): (next: seq<byte>)
    requires offset + |own| <= |into|
    ensures |next| == |into|
  {
    into[..offset] + own + into[offset + |own|..]
  }

  /** What the host does with the reply: take the data in order and put each
      packet's share at the offset its descriptor gives. */
  function Scatter(into: seq<byte>, data: seq<byte>, ds: seq<Descriptor>): seq<byte>
    decreases |ds|
  {
    if ds == [] then into
    else
      var d := ds[0];
      if d.actual <= |data| && d.offset + d.actual <= |into| then
        Scatter(Put(into, data[..d.actual], d.offset), data[d.actual..], ds[1..])
      else into
  }

  /** into and buffer agree on every packet's bytes. */
  ghost predicate SamePackets(into: seq<byte>, buffer: seq<byte>, ps: seq<Packet>, offset: nat) {
    ps != [] ==>
      && offset + ps[0].actual <= |into| && offset + ps[0].actual <= |buffer|
      && into[offset..offset + ps[0].actual] == buffer[offset..offset + ps[0].actual]
      && SamePackets(into, buffer, ps[1..], offset + ps[0].length)
  }

  lemma ScatterFirst(into: seq<byte>, p: Packet, own: seq<byte>, tail: seq<byte>, offset: u32, ds: seq<Descriptor>)
    requires |own| == p.actual && offset + p.actual <= |into|
    ensures Scatter(into, own + tail, [DescriptorOf(p, offset)] + ds) == Scatter(Put(into, own, offset), tail, ds)
  {
    hide Put;
    var all := [DescriptorOf(p, offset)] + ds;
    assert all[0] == DescriptorOf(p, offset) && all[1..] == ds && (own + tail)[..p.actual] == own && (own + tail)[p.actual..] == tail;
  }

  lemma OwnFirst(buffer: seq<byte>, ps: seq<Packet>, offset: nat)
    requires ps != [] && Fits(ps) && FailedAreEmpty(ps) && offset + TotalLength(ps) <= |buffer|
    ensures ps[0].actual <= ps[0].length && Fits(ps[1..]) && FailedAreEmpty(ps[1..])
    ensures TotalLength(ps) == ps[0].length + TotalLength(ps[1..])
    ensures OwnBytes(buffer, ps, offset)
         == buffer[offset..offset + ps[0].actual] + OwnBytes(buffer, ps[1..], offset + ps[0].length)
  {
    assert ps[0] in ps;
  }

  lemma {:induction false} ScatterOwnBytes(into: seq<byte>, buffer: seq<byte>, ps: seq<Packet>, offset: nat)
    requires Fits(ps) && FailedAreEmpty(ps)
    requires |into| == |buffer| < TWO_32 && offset + TotalLength(ps) <= |buffer|
    ensures var out := Scatter(into, OwnBytes(buffer, ps, offset), DescribeFrom(ps, offset));
      |out| == |into| && out[..offset] == into[..offset] && SamePackets(out, buffer, ps, offset)
    decreases |ps|
  {
    hide OwnBytes, TotalLength, Put, Fits, FailedAreEmpty, DescriptorOf, Scatter, DescribeFrom, SamePackets;
    if ps == [] {
      ScatterNothing(into, OwnBytes(buffer, ps, offset), buffer, offset);
    } else {
      var p, rest := ps[0], ps[1..];
      assert ps[0..] == ps;
      Unroll(ps, 0, offset);
      OwnFirst(buffer, ps, offset);
      var own := buffer[offset..offset + p.actual];
      var tail := OwnBytes(buffer, rest, offset + p.length);
      ScatterFirst(into, p, own, tail, offset, DescribeFrom(rest, offset + p.length));
      var next := Put(into, own, offset);
      ScatterOwnBytes(next, buffer, rest, offset + p.length);
      var out := Scatter(next, tail, DescribeFrom(rest, offset + p.length));
      PutStays(into, own, offset, out, offset + p.length);
      SameFirst(out, buffer, ps, offset);
    }
  }

  lemma SameFirst(out: seq<byte>, buffer: seq<byte>, ps: seq<Packet>, offset: nat)
    requires ps != [] && offset + ps[0].actual <= |out| && offset + ps[0].actual <= |buffer|
    requires out[offset..offset + ps[0].actual] == buffer[offset..offset + ps[0].actual]
    requires SamePackets(out, buffer, ps[1..], offset + ps[0].length)
    ensures SamePackets(out, buffer, ps, offset)
  {
  }

  lemma ScatterNothing(into: seq<byte>, data: seq<byte>, buffer: seq<byte>, offset: nat)
    requires offset < TWO_32
    ensures DescribeFrom([], offset) == [] && Scatter(into, data, []) == into && SamePackets(into, buffer, [], offset)
  {
  }

  lemma PutStays(into: seq<byte>, own: seq<byte>, offset: nat, out: seq<byte>, n: nat)
    requires offset + |own| <= n <= |into| == |out| && out[..n] == Put(into, own, offset)[..n]
    ensures out[..offset] == into[..offset] && out[offset..offset + |own|] == own
  {
    var next := Put(into, own, offset);
    assert out[..offset] == out[..n][..offset] == next[..n][..offset] == into[..offset];
    assert out[offset..offset + |own|] == out[..n][offset..offset + |own|] == next[..n][offset..offset + |own|] == own;
  }

  /** Scattering what `iso_data` gathered, by the descriptors sent along, restores
      every packet's bytes at its place in a buffer of the same size; in particular
      this holds whenever every packet completed. */
  lemma GatherThenScatter(t: Transfer, into: seq<byte>)
    requires t.Valid() && |into| == |t.buffer|
    requires (forall p :: p in t.packets ==> p.completed) || (Aligned(t.packets) && FailedAreEmpty(t.packets))
    ensures SamePackets(Scatter(into, IsoData(t), Describe(t).list), t.buffer, t.packets, 0)
    ensures |IsoData(t)| == Describe(t).dataSize
  {
    if forall p :: p in t.packets ==> p.completed { AllCompletedIsAligned(t.packets); }
    AlignedGathersOwnBytes(t.buffer, t.packets, 0, 0);
    ScatterOwnBytes(into, t.buffer, t.packets, 0);
    GatherSize(t.buffer, t.packets, 0);
  }
}
