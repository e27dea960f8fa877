/** A transfer in the hands of a mock device: class `control` (transfer_impl.cpp), which
    a plugin fills or reads and completes without libusb, and what then reaches the
    host. */
module MockTransfer {
  import opened Prelude
  import opened Proxy
  import Iso
  import Vhci

  function FullPackets(ps: seq<Iso.Packet>): (r: seq<Iso.Packet>)
    ensures |r| == |ps| && forall i :: 0 <= i < |ps| ==> r[i] == ps[i].(actual := ps[i].length)
  {
    seq(|ps|, i requires 0 <= i < |ps| => ps[i].(actual := ps[i].length))
  }

  /** The transfer after `fill`. */
  function Filled(t: Iso.Transfer, data: seq<byte>): Iso.Transfer
    requires |data| <= |t.buffer|
  {
    Iso.Transfer(data + t.buffer[|data|..], |data|, FullPackets(t.packets))
  }

  /** The transfer after `read`, for which an OUT transfer counts as carried out. */
  function ReadOut(t: Iso.Transfer, size: nat): Iso.Transfer {
    t.(actualLength := size, packets := FullPackets(t.packets))
  }

  predicate AllCompleted(ps: seq<Iso.Packet>) { forall p :: p in ps ==> p.completed }

  lemma {:induction false} FullTotals(ps: seq<Iso.Packet>)
    ensures Iso.TotalLength(FullPackets(ps)) == Iso.TotalLength(ps) == Iso.TotalActual(FullPackets(ps))
    ensures Iso.Fits(FullPackets(ps))
  {
    if ps != [] {
      assert FullPackets(ps)[1..] == FullPackets(ps[1..]);
      FullTotals(ps[1..]);
      assert FullPackets(ps) == [FullPackets(ps)[0]] + FullPackets(ps[1..]);
    }
  }

  lemma {:induction false} FullGather(buffer: seq<byte>, ps: seq<Iso.Packet>, offset: nat)
    requires Iso.Fits(ps) && offset + Iso.TotalLength(ps) <= |buffer|
    requires forall p :: p in ps ==> p.completed && p.actual == p.length
    ensures Iso.GatherFrom(buffer, ps, offset) == buffer[offset..offset + Iso.TotalLength(ps)]
  {
    hide Iso.Fits, Iso.GatherFrom;
    if ps == [] {
      assert ps == ps[|ps|..];
      Iso.GatherNone(buffer, ps, offset);
    } else {
      var p, rest := ps[0], ps[1..];
      assert p in ps;
      Iso.GatherFirst(buffer, ps, offset);
      FullGather(buffer, rest, offset + p.length);
      var n := Iso.TotalLength(rest);
      assert buffer[offset..offset + p.length] + buffer[offset + p.length..offset + p.length + n]
          == buffer[offset..offset + p.length + n];
    }
  }

  /** What a mock device fills in is what the host is sent: exactly the data, or, for an
      isochronous transfer, the data and whatever the buffer held behind it, as far as
      its packets reach; no packet is reported as failed. */
  lemma FillReachesHost(t: Iso.Transfer, data: seq<byte>)
    requires t.Valid() && |data| <= |t.buffer| && AllCompleted(t.packets)
    ensures Filled(t, data).Valid()
    ensures t.packets == [] ==> DataForHost(Filled(t, data)).buffer == data
    ensures t.packets != [] ==>
      var d := DataForHost(Filled(t, data));
      && d.errorCount == 0
      && d.buffer[..d.DataSize()] == (data + t.buffer[|data|..])[..Iso.TotalLength(t.packets)]
  {
    hide Iso.Fits, Iso.TotalLength, Iso.TotalActual, Iso.DescriptorBytes, Iso.GatherFrom;
    var x := Filled(t, data);
    FullTotals(t.packets);
    assert |x.buffer| == |t.buffer|;
    if t.packets == [] {
      assert x.packets == [];
      assert x.buffer[..|data|] == data;
    } else {
      AllCompletedStays(t.packets);
      FullGather(x.buffer, x.packets, 0);
      NoFailures(x.packets);
      var own := x.buffer[..Iso.TotalLength(t.packets)];
      assert Iso.IsoData(x) == own;
      assert Iso.Describe(x).dataSize == |own| && own + Vhci.Zeros(0) == own;
      assert DataForHost(x).buffer == own + Iso.DescriptorBytes(Iso.Describe(x).list);
    }
  }

  lemma AllCompletedStays(ps: seq<Iso.Packet>)
    requires AllCompleted(ps)
    ensures forall p :: p in FullPackets(ps) ==> p.completed && p.actual == p.length
  {
    forall p | p in FullPackets(ps) ensures p.completed && p.actual == p.length {
      var i :| 0 <= i < |ps| && FullPackets(ps)[i] == p;
      assert ps[i] in ps;
    }
  }

  lemma {:induction false} NoFailures(ps: seq<Iso.Packet>)
    requires forall p :: p in ps ==> p.completed
    ensures Iso.Failures(ps) == 0
  {
    if ps != [] { NoFailures(ps[1..]); }
  }

  class Control {
    const isIn: bool
    var buffer: seq<byte>
    var actualLength: nat
    var packets: seq<Iso.Packet>

    constructor (isIn: bool, t: Iso.Transfer)
      ensures this.isIn == isIn && View() == t
    {
      this.isIn, buffer, actualLength, packets := isIn, t.buffer, t.actualLength, t.packets;
    }

    function View(): Iso.Transfer
      reads this
    {
      Iso.Transfer(buffer, actualLength, packets)
    }

    method FillPackets()
      modifies this`packets
      ensures packets == FullPackets(old(packets))
    {
      for i := 0 to |packets|
        invariant |packets| == |old(packets)|
        invariant forall j :: 0 <= j < i ==> packets[j] == old(packets)[j].(actual := old(packets)[j].length)
        invariant forall j :: i <= j < |packets| ==> packets[j] == old(packets)[j]
      {
        packets := packets[i := packets[i].(actual := packets[i].length)];
      }
    }

    method Fill(data: seq<byte>)
      requires isIn && |data| <= |buffer|
      modifies this
      ensures View() == Filled(old(View()), data)
    {
      buffer := data + buffer[|data|..];
      actualLength := |data|;
      if packets != [] { FillPackets(); }
      assert old(packets) == [] ==> FullPackets(old(packets)) == [];
    }

    method Read(size: Option<u32>) returns (data: seq<byte>)
      requires size.Some? ==> size.value <= |buffer|
      modifies this
      ensures data == old(buffer)[..if size.Some? then size.value else |old(buffer)|]
      ensures View() == if isIn then old(View()) else ReadOut(old(View()), |data|)
    {
      var n := if size.Some? then size.value else |buffer|;
      if !isIn {
        actualLength := n;
        if packets != [] { FillPackets(); }
        assert old(packets) == [] ==> FullPackets(old(packets)) == [];
      }
      data := buffer[..n];
    }
  }
}
