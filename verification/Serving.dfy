/** From a device's tree to the host that enumerates it: what GET_DESCRIPTOR brings
    (usb_impl.cpp, usb_device_proxy_impl.cpp). */
module Serving {
  import opened Prelude
  import opened Descriptors
  import opened Packing
  import opened Layout
  import Vhci
  import Proxy
  import Replies
  import Tree

  /** What a tree can serve: every language has a string. */
  ghost predicate Servable(t: Tree.Tree) {
    && t.Valid() && Shaped(t.config) && Shaped(t.bos) && |t.device| == 14
    && forall l :: l in t.strings ==> t.strings[l] != []
  }

  /** The device underneath, as its tree describes it. What is packed for the device
      descriptor has the configuration behind it. */
  ghost function UsbOf(t: Tree.Tree, altSettings: map<u8, u8>, answer: Proxy.Answer): (usb: Proxy.Usb)
    requires Servable(t) && (answer.Data? ==> |answer.bytes| < TWO_31)
    ensures usb.Valid()
  {
    Proxy.Usb(t.config.fields[6] / 0x80 % 2 == 1, PackDevice(t.device) + Pack(t.config), Pack(t.config), t.strings,
              Pack(t.bos), t.report, altSettings, answer)
  }

  /** A standard request for a descriptor of this type, of the first index, with room for
      n bytes. */
  predicate Asks(c: Vhci.Command, kind: u8, n: nat) {
    && Proxy.ControlCommand(c) && c.direction == 1
    && c.setup[0] == 0x80 && c.setup[1] == 6 && c.setup[2] == 0 && c.setup[3] == kind
    && c.setup[6] as int + 256 * c.setup[7] as int == n
  }

  ghost function Reply(c: Vhci.Command, usb: Proxy.Usb): Vhci.Reply
    requires Proxy.ControlCommand(c) && usb.Valid()
  {
    Proxy.ControlReplyIsFramed(c, usb);
    Proxy.ReplyFor(Proxy.ControlRequest(c, usb))
  }

  /** Up to n bytes of these. */
  function Cut(bs: seq<byte>, n: nat): seq<byte> { if |bs| <= n then bs else bs[..n] }

  lemma Served(c: Vhci.Command, kind: u8, n: nat, usb: Proxy.Usb)
    requires Asks(c, kind, n) && usb.Valid()
    ensures var r := Reply(c, usb);
      && r.RetSubmit?
      && (kind == 1 ==> r.payload == Cut(usb.device, n))
      && (kind == 2 ==> r.payload == Cut(usb.config, n))
      && (kind == 15 ==> r.payload == Cut(usb.bos, n))
      && (kind == 34 ==> r.payload == Cut(usb.report, n))
  {
    Replies.ControlReplyAnswers(c, usb);
    assert Replies.Describes(c.setup, usb, Reply(c, usb));
    assert forall bs: seq<byte> :: |bs| <= n ==> bs[..|bs|] == bs;
  }

  /** The first nine bytes of a configuration hold its length. */
  lemma LengthInHeader(d: Desc)
    requires Honest(d) && d.kind == Config && Shaped(d) && d.fields[2] == Total(d)
    ensures |Pack(d)| >= 9 && Pack(d)[2] as int + 256 * Pack(d)[3] as int == |Pack(d)|
  {
    hide Pack, Honest, Total;
    TotalLengthIsTrue(d);
    ConfigIsLong(d);
    var w := Pack(d)[2..4];
    assert FromLittleEndian(w) == w[0] + 256 * FromLittleEndian(w[1..]) && FromLittleEndian(w[1..]) == w[1] + 256 * FromLittleEndian(w[1..][1..]);
  }

  lemma ConfigIsLong(d: Desc)
    requires Shaped(d) && d.kind == Config
    ensures |Pack(d)| >= 9
  {
    HeaderSize(Config, d.fields);
    SumAppend([1, 1], [2, 1, 1, 1, 1, 1]);
    assert Widths(Config) == [1, 1] + [2, 1, 1, 1, 1, 1];
    SumAtLeast([1, 1]);
    SumAtLeast([1, 1, 1, 1, 1]);
    assert [2, 1, 1, 1, 1, 1][1..] == [1, 1, 1, 1, 1];
  }

  /** How a host reads a configuration: nine bytes first, which tell it how many there are,
      then all of them. It gets exactly the whole, and can step through it from descriptor
      to descriptor, if every node states its true length and the configuration the
      sum. */
  lemma ConfigIsRead(t: Tree.Tree, usb: Proxy.Usb, first: Vhci.Command, second: Vhci.Command, n: nat)
    requires Servable(t) && usb.Valid() && usb.config == Pack(t.config)
    requires Honest(t.config) && t.config.fields[2] == Total(t.config)
    requires Asks(first, 2, 9) && Asks(second, 2, n)
    requires |Reply(first, usb).payload| >= 4 ==> Word16(Reply(first, usb).payload, 2) == n
    ensures |Reply(first, usb).payload| == 9
    ensures Reply(second, usb).payload == Pack(t.config) && Chain(Pack(t.config)) == Some(Chunks(t.config))
  {
    hide Asks, Reply, Pack, Chain, Chunks, Honest, Total;
    Served(first, 2, 9, usb);
    Served(second, 2, n, usb);
    LengthInHeader(t.config);
    PackIsChain(t.config);
  }

  /** The device descriptor is eighteen bytes; a host that has room for more is sent the
      beginning of the configuration behind it. */
  lemma DeviceIsReadIff(t: Tree.Tree, usb: Proxy.Usb, c: Vhci.Command, n: nat)
    requires Servable(t) && usb.Valid() && usb.device == PackDevice(t.device) + Pack(t.config)
    requires Asks(c, 1, n)
    ensures var r := Reply(c, usb);
      && (r.payload == PackDevice(t.device) <==> n == 18)
      && (n >= 18 ==> PackDevice(t.device) <= r.payload)
      && (n > 18 ==> PackDevice(t.device) < r.payload <= PackDevice(t.device) + Pack(t.config))
  {
    hide Asks, Reply, Pack, PackDevice;
    Served(c, 1, n, usb);
    DeviceLayout(t.device);
    ConfigIsLong(t.config);
  }

  /** GET_STATUS goes by the highest bit of the configuration's attributes. */
  lemma StatusIsHighBit(t: Tree.Tree, c: Vhci.Command, altSettings: map<u8, u8>, answer: Proxy.Answer)
    requires Servable(t) && (answer.Data? ==> |answer.bytes| < TWO_31)
    requires Proxy.ControlCommand(c) && c.direction == 1 && c.setup[0] == 0x80 && c.setup[1] == 0
    ensures Reply(c, UsbOf(t, altSettings, answer)).payload == [if t.config.fields[6] >= 0x80 then 1 else 0, 0]
  {
    hide Pack, PackDevice, Replies.Describes;
    var usb := UsbOf(t, altSettings, answer);
    Replies.ControlReplyAnswers(c, usb);
    AttributesFit(t.config);
  }

  lemma AttributesFit(d: Desc)
    requires WellFormed(d) && d.kind == Config
    ensures |d.fields| == 8 && d.fields[6] < 256
  {
    SmallPowers();
    assert Widths(Config)[6] == 1 && d.fields[6] < Pow256(Widths(Config)[6]);
  }
}
