/** The class `packer` and the loops of `tree::build` (usb_descriptors_impl.cpp): bytes
    are appended one by one, descriptors are visited in order. */
module WirePacker {
  import opened Prelude
  import opened Descriptors
  import opened Packing
  import opened LibusbPacking

  class Packer {
    var data: seq<byte>

    constructor ()
      ensures data == []
    {
      data := [];
    }

    method PackNumber(width: nat, n: nat)
      modifies this
      ensures data == old(data) + LittleEndian(width, n)
    {
      var left := n;
      for i := 0 to width
        invariant data + LittleEndian(width - i, left) == old(data) + LittleEndian(width, n)
      {
        data := data + [left % 256];
        left := left / 256;
      }
    }

    method PackDescribed(ws: seq<nat>, fs: seq<nat>)
      requires |fs| == |ws|
      modifies this
      ensures data == old(data) + PackFields(ws, fs)
    {
      for i := 0 to |ws|
        invariant data + PackFields(ws[i..], fs[i..]) == old(data) + PackFields(ws, fs)
      {
        assert ws[i..][1..] == ws[i + 1..] && fs[i..][1..] == fs[i + 1..];
        PackNumber(ws[i], fs[i]);
      }
    }

    method PackBytes(bs: seq<byte>)
      modifies this
      ensures data == old(data) + bs
    {
      for i := 0 to |bs|
        invariant data == old(data) + bs[..i]
      {
        data := data + [bs[i]];
      }
    }

    // ------------------------------------------------------------ the wrapped tree

    method PackDesc(d: Desc)
      requires Shaped(d)
      modifies this
      ensures data == old(data) + Pack(d)
      decreases d
    {
      hide PackFields, PackAll, WireWidths;
      var ws := WireWidths(d.kind, d.fields);
      PackDescribed(ws, d.fields[..|ws|]);
      PackBytes(d.extra);
      PackBytes(d.bytes);
      PackDescs(d.children);
      assert old(data) + Pack(d) == old(data) + Header(d.kind, d.fields) + d.extra + d.bytes + PackAll(d.children);
    }

    method PackDescs(ds: seq<Desc>)
      requires forall d :: d in ds ==> Shaped(d)
      modifies this
      ensures data == old(data) + PackAll(ds)
      decreases ds
    {
      hide Pack, Shaped;
      for i := 0 to |ds|
        invariant data + PackAll(ds[i..]) == old(data) + PackAll(ds)
      {
        assert ds[i..][1..] == ds[i + 1..];
        ghost var before := data;
        PackDesc(ds[i]);
        assert before + PackAll(ds[i..]) == data + PackAll(ds[i + 1..]);
      }
      assert ds[|ds|..] == [] && data + [] == data;
    }

    // ------------------------------------------------------- libusb's own structures

    method PackEndpointDescriptor(e: LibusbEndpoint)
      requires EndpointValid(e)
      modifies this
      ensures data == old(data) + PackEndpoint(e)
    {
      hide PackFields;
      if e.bLength == AUDIO_ENDPOINT_LENGTH {
        PackDescribed([1, 1, 1, 1, 2, 1, 1, 1], [e.bLength, e.bDescriptorType, e.bEndpointAddress, e.bmAttributes,
                                                 e.wMaxPacketSize, e.bInterval, e.bRefresh, e.bSynchAddress]);
      } else {
        PackDescribed([1, 1, 1, 1, 2, 1], [e.bLength, e.bDescriptorType, e.bEndpointAddress, e.bmAttributes,
                                           e.wMaxPacketSize, e.bInterval]);
      }
      assert data == old(data) + PackEndpointFields(e);
      PackBytes(Vectorize(e.extra, e.extraLength));
    }

    method PackInterfaceDescriptor(a: LibusbAltsetting)
      requires AltsettingValid(a)
      modifies this
      ensures data == old(data) + PackAltsetting(a)
    {
      hide PackFields, PackEndpoint;
      PackDescribed(Widths(Interface), AltsettingFields(a));
      PackBytes(Vectorize(a.extra, a.extraLength));
      var es := Vectorize(a.endpoint, a.bNumEndpoints);
      ghost var before := data;
      for i := 0 to |es|
        invariant data + PackEndpoints(es[i..]) == before + PackEndpoints(es)
      {
        assert es[i..][1..] == es[i + 1..];
        ghost var was := data;
        PackEndpointDescriptor(es[i]);
        assert was + PackEndpoints(es[i..]) == data + PackEndpoints(es[i + 1..]);
      }
      assert es[|es|..] == [] && data + [] == data;
    }

    method PackUsbInterface(u: LibusbInterface)
      requires InterfaceValid(u)
      modifies this
      ensures data == old(data) + PackInterface(u)
    {
      hide PackAltsetting;
      var s := Vectorize(u.altsetting, u.numAltsetting);
      for i := 0 to |s|
        invariant data + PackAltsettings(s[i..]) == old(data) + PackAltsettings(s)
      {
        assert s[i..][1..] == s[i + 1..];
        ghost var was := data;
        PackInterfaceDescriptor(s[i]);
        assert was + PackAltsettings(s[i..]) == data + PackAltsettings(s[i + 1..]);
      }
      assert s[|s|..] == [] && data + [] == data;
    }

    /** What the host asked of a device whose descriptors come from libusb: the same
        bytes as the tree's. */
    method PackLibusbConfig(c: LibusbConfig)
      requires ConfigValid(c)
      modifies this
      ensures Shaped(BuildConfig(c)) && data == old(data) + Pack(BuildConfig(c))
    {
      hide PackFields, PackInterface, Pack, BuildConfig;
      PackDescribed(Widths(Config), ConfigFields(c));
      PackBytes(Vectorize(c.extra, c.extraLength));
      var s := Vectorize(c.interfaces, c.bNumInterfaces);
      ghost var before := data;
      for i := 0 to |s|
        invariant data + PackInterfaces(s[i..]) == before + PackInterfaces(s)
      {
        assert s[i..][1..] == s[i + 1..];
        ghost var was := data;
        PackUsbInterface(s[i]);
        assert was + PackInterfaces(s[i..]) == data + PackInterfaces(s[i + 1..]);
      }
      assert s[|s|..] == [] && data + [] == data;
      PackersAgreeOnConfig(c);
    }

    method PackLibusbBos(b: LibusbBos)
      requires BosValid(b)
      modifies this
      ensures Shaped(BuildBos(b)) && data == old(data) + Pack(BuildBos(b))
    {
      hide PackFields, Pack, BuildBos;
      PackDescribed(Widths(Bos), BosFields(b));
      var s := b.devCapability[..b.bNumDeviceCaps];
      ghost var before := data;
      for i := 0 to |s|
        invariant data + PackDevCaps(s[i..]) == before + PackDevCaps(s)
      {
        assert s[i..][1..] == s[i + 1..];
        ghost var was := data;
        assert DevCapValid(s[i]);
        PackDescribed(Widths(DevCap), DevCapFields(s[i]));
        PackBytes(CapData(s[i]));
        assert data == was + PackDevCap(s[i]);
        assert was + PackDevCaps(s[i..]) == data + PackDevCaps(s[i + 1..]);
      }
      assert s[|s|..] == [] && data + [] == data;
      PackersAgreeOnBos(b);
    }
  }

  // --------------------------------------------------------- the loops of the builder

  method BuildAltsettingTree(a: LibusbAltsetting) returns (d: Desc)
    requires AltsettingValid(a)
    ensures d == BuildAltsetting(a)
  {
    hide EndpointValid, BuildEndpoints;
    var es := Vectorize(a.endpoint, a.bNumEndpoints);
    var ds := [];
    for i := 0 to |es|
      invariant |ds| == i && forall j :: 0 <= j < i ==> ds[j] == BuildEndpoint(es[j])
    {
      ds := ds + [BuildEndpoint(es[i])];
    }
    assert ds == BuildEndpoints(es);
    d := Desc(Interface, AltsettingFields(a), ds, [], Vectorize(a.extra, a.extraLength));
  }

  method BuildInterfaceTree(u: LibusbInterface) returns (d: Desc)
    requires InterfaceValid(u)
    ensures d == BuildInterface(u)
  {
    hide BuildAltsetting, BuildAltsettings, AltsettingValid;
    var s := Vectorize(u.altsetting, u.numAltsetting);
    var ds := [];
    for i := 0 to |s|
      invariant |ds| == i && forall j :: 0 <= j < i ==> ds[j] == BuildAltsetting(s[j])
    {
      var child := BuildAltsettingTree(s[i]);
      ds := ds + [child];
    }
    assert ds == BuildAltsettings(s);
    d := Desc(UsbInterface, [], ds, [], []);
  }

  method BuildConfigTree(c: LibusbConfig) returns (d: Desc)
    requires ConfigValid(c)
    ensures d == BuildConfig(c)
  {
    hide BuildInterface, BuildInterfaces, InterfaceValid;
    var s := Vectorize(c.interfaces, c.bNumInterfaces);
    var ds := [];
    for i := 0 to |s|
      invariant |ds| == i && forall j :: 0 <= j < i ==> ds[j] == BuildInterface(s[j])
    {
      var child := BuildInterfaceTree(s[i]);
      ds := ds + [child];
    }
    assert ds == BuildInterfaces(s);
    d := Desc(Config, ConfigFields(c), ds, [], Vectorize(c.extra, c.extraLength));
  }

  method BuildBosTree(bos: Option<LibusbBos>) returns (d: Desc)
    requires bos.Some? ==> BosValid(bos.value)
    ensures bos == None ==> d == Desc(Bos, [0, 0, 0, 0], [], [], [])
    ensures bos.Some? ==> d == BuildBos(bos.value)
  {
    hide DevCapValid, BuildDevCaps;
    if bos == None { return NoBos(); }
    var b := bos.value;
    var s := b.devCapability[..b.bNumDeviceCaps];
    var ds := [];
    for i := 0 to |s|
      invariant |ds| == i && forall j :: 0 <= j < i ==> ds[j] == BuildDevCap(s[j])
    {
      ds := ds + [BuildDevCap(s[i])];
    }
    assert ds == BuildDevCaps(s);
    d := Desc(Bos, BosFields(b), ds, [], []);
  }
}
