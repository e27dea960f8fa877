/** The bytes of packed descriptors by their offsets (types.cppm, usb_descriptors_impl.cpp):
    which member of libusb's structures is where, for a host that knows no more than the
    USB tables. */
module Layout {
  import opened Prelude
  import opened Descriptors
  import opened Packing
  import opened LibusbPacking
  import Tree

  /** Two bytes at an offset, low byte first. */
  function Word16(bs: seq<byte>, at: nat): nat
    requires at + 2 <= |bs|
  {
    bs[at] as nat + 256 * bs[at + 1] as nat
  }

  // --------------------------------------------------------------- fields in a row

  lemma {:induction false} PackAppend(ws: seq<nat>, fs: seq<nat>, vs: seq<nat>, gs: seq<nat>)
    requires |ws| == |fs| && |vs| == |gs|
    ensures PackFields(ws + vs, fs + gs) == PackFields(ws, fs) + PackFields(vs, gs)
  {
    if ws == [] {
      assert ws + vs == vs && fs + gs == gs;
    } else {
      assert (ws + vs)[1..] == ws[1..] + vs && (fs + gs)[1..] == fs[1..] + gs;
      PackAppend(ws[1..], fs[1..], vs, gs);
    }
  }

  lemma {:induction false} PackBytes(ws: seq<nat>, fs: seq<nat>)
    requires |ws| == |fs| && forall i :: 0 <= i < |fs| ==> ws[i] == 1 && fs[i] < 256
    ensures |PackFields(ws, fs)| == |fs| && forall i :: 0 <= i < |fs| ==> PackFields(ws, fs)[i] == fs[i]
  {
    if ws != [] {
      assert forall i :: 0 <= i < |fs[1..]| ==> fs[1..][i] == fs[i + 1] && ws[1..][i] == ws[i + 1];
      PackBytes(ws[1..], fs[1..]);
      assert LittleEndian(1, fs[0]) == [fs[0]] + LittleEndian(0, fs[0] / 256);
    }
  }

  lemma PackWord(v: nat)
    requires v < 0x1_0000
    ensures |PackFields([2], [v])| == 2 && Word16(PackFields([2], [v]), 0) == v
  {
    assert LittleEndian(2, v) == [v % 256] + LittleEndian(1, v / 256);
    assert LittleEndian(1, v / 256) == [v / 256 % 256] + LittleEndian(0, v / 256 / 256);
    assert PackFields([2], [v]) == LittleEndian(2, v) + PackFields([], []);
  }

  /** Bytes, a word, bytes. */
  lemma PackAround(ws: seq<nat>, fs: seq<nat>, v: nat, vs: seq<nat>, gs: seq<nat>)
    requires |ws| == |fs| && forall i :: 0 <= i < |fs| ==> ws[i] == 1 && fs[i] < 256
    requires |vs| == |gs| && forall i :: 0 <= i < |gs| ==> vs[i] == 1 && gs[i] < 256
    requires v < 0x1_0000
    ensures var bs := PackFields(ws + [2] + vs, fs + [v] + gs);
      && |bs| == |fs| + 2 + |gs| && Word16(bs, |fs|) == v
      && (forall i :: 0 <= i < |fs| ==> bs[i] == fs[i])
      && forall i :: 0 <= i < |gs| ==> bs[|fs| + 2 + i] == gs[i]
  {
    PackBytes(ws, fs);
    PackBytes(vs, gs);
    PackWord(v);
    PackAppend(ws, fs, [2], [v]);
    PackAppend(ws + [2], fs + [v], vs, gs);
  }

  // ------------------------------------------------------------- libusb's structures

  /** bs goes on with the memory at p. */
  predicate Holds(bs: seq<byte>, at: nat, p: Pointer<byte>, count: int) {
    p.At? && 0 <= count <= |p.memory| ==> at + count <= |bs| && bs[at..at + count] == p.memory[..count]
  }

  function Length(p: Pointer<byte>, count: int): int { if p.At? then count else 0 }

  lemma ExtraIs(p: Pointer<byte>, count: int, header: seq<byte>, rest: seq<byte>)
    requires Covers(p, count)
    ensures var bs := header + Vectorize(p, count) + rest;
      && Holds(bs, |header|, p, count) && 0 <= Length(p, count)
      && |header| + Length(p, count) <= |bs| && bs[|header| + Length(p, count)..] == rest
      && bs[..|header|] == header
  {
    var bs := header + Vectorize(p, count) + rest;
    assert bs[..|header|] == header;
    if p.At? { assert Vectorize(p, count) == p.memory[..count]; }
  }

  /** A configuration: nine bytes, its extras, its interfaces. */
  lemma ConfigLayout(c: LibusbConfig)
    requires ConfigValid(c)
    ensures var bs := PackConfig(c);
      && |bs| >= 9 && bs[0] == c.bLength && bs[1] == c.bDescriptorType && Word16(bs, 2) == c.wTotalLength
      && bs[4] == c.bNumInterfaces && bs[5] == c.bConfigurationValue && bs[6] == c.iConfiguration
      && bs[7] == c.bmAttributes && bs[8] == c.maxPower
      && Holds(bs, 9, c.extra, c.extraLength)
      && 9 + Length(c.extra, c.extraLength) <= |bs|
      && bs[9 + Length(c.extra, c.extraLength)..] == PackInterfaces(Vectorize(c.interfaces, c.bNumInterfaces))
  {
    hide PackFields, PackInterfaces, Vectorize, Holds, Length;
    var fs, gs: seq<nat> := [c.bLength, c.bDescriptorType],
      [c.bNumInterfaces, c.bConfigurationValue, c.iConfiguration, c.bmAttributes, c.maxPower];
    PackAround([1, 1], fs, c.wTotalLength, [1, 1, 1, 1, 1], gs);
    var header := PackFields(Widths(Config), ConfigFields(c));
    assert Widths(Config) == [1, 1] + [2] + [1, 1, 1, 1, 1] && ConfigFields(c) == fs + [c.wTotalLength] + gs;
    assert header[0] == fs[0] && header[1] == fs[1] && header[4] == gs[0] && header[5] == gs[1] && header[6] == gs[2]
        && header[7] == gs[3] && header[8] == gs[4];
    ExtraIs(c.extra, c.extraLength, header, PackInterfaces(Vectorize(c.interfaces, c.bNumInterfaces)));
    Front(header, PackConfig(c));
  }

  lemma Front(header: seq<byte>, bs: seq<byte>)
    requires header <= bs
    ensures forall i :: 0 <= i < |header| ==> bs[i] == header[i]
    ensures forall at :: 0 <= at <= |header| - 2 ==> Word16(bs, at) == Word16(header, at)
  {
  }

  /** An alternate setting: nine bytes, its extras, its endpoints. */
  lemma AltsettingLayout(a: LibusbAltsetting)
    requires AltsettingValid(a)
    ensures var bs := PackAltsetting(a);
      && |bs| >= 9 && bs[0] == a.bLength && bs[1] == a.bDescriptorType && bs[2] == a.bInterfaceNumber
      && bs[3] == a.bAlternateSetting && bs[4] == a.bNumEndpoints && bs[5] == a.bInterfaceClass
      && bs[6] == a.bInterfaceSubClass && bs[7] == a.bInterfaceProtocol && bs[8] == a.iInterface
      && Holds(bs, 9, a.extra, a.extraLength)
      && 9 + Length(a.extra, a.extraLength) <= |bs|
      && bs[9 + Length(a.extra, a.extraLength)..] == PackEndpoints(Vectorize(a.endpoint, a.bNumEndpoints))
  {
    hide PackFields, PackEndpoints, Vectorize, Holds, Length;
    var fs: seq<nat> := [a.bLength, a.bDescriptorType, a.bInterfaceNumber, a.bAlternateSetting, a.bNumEndpoints,
                         a.bInterfaceClass, a.bInterfaceSubClass, a.bInterfaceProtocol, a.iInterface];
    PackBytes(Widths(Interface), fs);
    assert AltsettingFields(a) == fs;
    var header := PackFields(Widths(Interface), AltsettingFields(a));
    assert header[0] == fs[0] && header[1] == fs[1] && header[2] == fs[2] && header[3] == fs[3] && header[4] == fs[4]
        && header[5] == fs[5] && header[6] == fs[6] && header[7] == fs[7] && header[8] == fs[8];
    ExtraIs(a.extra, a.extraLength, header, PackEndpoints(Vectorize(a.endpoint, a.bNumEndpoints)));
    Front(header, PackAltsetting(a));
  }

  /** An endpoint: seven bytes, or nine if it says so, and its extras. */
  lemma EndpointLayout(e: LibusbEndpoint)
    requires EndpointValid(e)
    ensures var bs := PackEndpoint(e); var n := if e.bLength == 9 then 9 else 7;
      && |bs| == n + Length(e.extra, e.extraLength) && Holds(bs, n, e.extra, e.extraLength)
      && bs[0] == e.bLength && bs[1] == e.bDescriptorType && bs[2] == e.bEndpointAddress && bs[3] == e.bmAttributes
      && Word16(bs, 4) == e.wMaxPacketSize && bs[6] == e.bInterval
      && (e.bLength == 9 ==> bs[7] == e.bRefresh && bs[8] == e.bSynchAddress)
  {
    hide PackFields, Vectorize, Holds, Length;
    var fs: seq<nat> := [e.bLength, e.bDescriptorType, e.bEndpointAddress, e.bmAttributes];
    var gs, hs: seq<nat> := [e.bInterval], [e.bInterval, e.bRefresh, e.bSynchAddress];
    PackAround([1, 1, 1, 1], fs, e.wMaxPacketSize, [1], gs);
    PackAround([1, 1, 1, 1], fs, e.wMaxPacketSize, [1, 1, 1], hs);
    var header := PackEndpointFields(e);
    if e.bLength == 9 {
      assert fs + [e.wMaxPacketSize] + hs == [e.bLength, e.bDescriptorType, e.bEndpointAddress, e.bmAttributes,
                                              e.wMaxPacketSize, e.bInterval, e.bRefresh, e.bSynchAddress];
      assert [1, 1, 1, 1] + [2] + [1, 1, 1] == [1, 1, 1, 1, 2, 1, 1, 1];
      assert header[6] == hs[0] && header[7] == hs[1] && header[8] == hs[2];
    } else {
      assert fs + [e.wMaxPacketSize] + gs == [e.bLength, e.bDescriptorType, e.bEndpointAddress, e.bmAttributes,
                                              e.wMaxPacketSize, e.bInterval];
      assert [1, 1, 1, 1] + [2] + [1] == [1, 1, 1, 1, 2, 1];
      assert header[6] == gs[0];
    }
    assert header[0] == fs[0] && header[1] == fs[1] && header[2] == fs[2] && header[3] == fs[3];
    ExtraIs(e.extra, e.extraLength, header, []);
    assert header + Vectorize(e.extra, e.extraLength) + [] == PackEndpoint(e);
    Front(header, PackEndpoint(e));
  }

  /** A device capability: three bytes, and what its length says is behind them. */
  lemma DevCapLayout(d: LibusbDevCap)
    requires DevCapValid(d)
    ensures var bs := PackDevCap(d);
      && |bs| == d.bLength && bs[0] == d.bLength && bs[1] == d.bDescriptorType && bs[2] == d.bDevCapabilityType
      && bs[3..] == d.data[..d.bLength - 3]
  {
    hide PackFields;
    var fs: seq<nat> := [d.bLength, d.bDescriptorType, d.bDevCapabilityType];
    PackBytes(Widths(DevCap), fs);
    assert DevCapFields(d) == fs;
    var header := PackFields(Widths(DevCap), DevCapFields(d));
    assert header[0] == fs[0] && header[1] == fs[1] && header[2] == fs[2];
    assert CapData(d) == d.data[..d.bLength - 3];
  }

  /** A BOS descriptor: five bytes, and its capabilities. */
  lemma BosLayout(b: LibusbBos)
    requires BosValid(b)
    ensures var bs := PackBos(b);
      && |bs| >= 5 && bs[0] == b.bLength && bs[1] == b.bDescriptorType && Word16(bs, 2) == b.wTotalLength
      && bs[4] == b.bNumDeviceCaps && bs[5..] == PackDevCaps(b.devCapability[..b.bNumDeviceCaps])
  {
    hide PackFields, PackDevCaps;
    var fs, gs: seq<nat> := [b.bLength, b.bDescriptorType], [b.bNumDeviceCaps];
    PackAround([1, 1], fs, b.wTotalLength, [1], gs);
    assert Widths(Bos) == [1, 1] + [2] + [1] && BosFields(b) == fs + [b.wTotalLength] + gs;
    var header := PackFields(Widths(Bos), BosFields(b));
    assert header[0] == fs[0] && header[1] == fs[1] && header[4] == gs[0];
    Front(header, PackBos(b));
  }

  // libusb may hand out any structures whose counts are those of their arrays.

  predicate Counts<T>(p: Pointer<T>, count: int) { 0 <= count < 0x8000_0000 && (p.At? ==> count <= |p.memory|) }

  lemma AnyEndpoint(e: LibusbEndpoint)
    requires Counts(e.extra, e.extraLength)
    ensures EndpointValid(e)
  {
  }

  lemma AnyAltsetting(a: LibusbAltsetting)
    requires Counts(a.extra, a.extraLength) && Counts(a.endpoint, a.bNumEndpoints)
    requires a.endpoint.At? ==> forall i :: 0 <= i < a.bNumEndpoints ==>
      Counts(a.endpoint.memory[i].extra, a.endpoint.memory[i].extraLength)
    ensures AltsettingValid(a)
  {
    hide EndpointValid;
    if a.endpoint.At? {
      forall i | 0 <= i < a.bNumEndpoints ensures EndpointValid(a.endpoint.memory[i]) { AnyEndpoint(a.endpoint.memory[i]); }
    }
  }

  lemma AnyConfig(c: LibusbConfig)
    requires Counts(c.extra, c.extraLength) && Counts(c.interfaces, c.bNumInterfaces)
    requires c.interfaces.At? ==> forall i :: 0 <= i < c.bNumInterfaces ==>
      var u := c.interfaces.memory[i];
      && Counts(u.altsetting, u.numAltsetting)
      && (u.altsetting.At? ==> forall k :: 0 <= k < u.numAltsetting ==> AltsettingValid(u.altsetting.memory[k]))
    ensures ConfigValid(c)
  {
    hide AltsettingValid;
  }

  lemma AnyBos(b: LibusbBos)
    requires b.bNumDeviceCaps <= |b.devCapability|
    requires forall i :: 0 <= i < b.bNumDeviceCaps ==> 3 <= b.devCapability[i].bLength <= 3 + |b.devCapability[i].data|
    ensures BosValid(b)
  {
  }

  // ------------------------------------------------------------- the device descriptor

  /** `packer::pack(const libusb_device_descriptor&)`. */
  function PackDevice(fs: seq<nat>): seq<byte>
    requires InRange(Tree.DEVICE_WIDTHS, fs)
  {
    PackFields(Tree.DEVICE_WIDTHS, fs)
  }

  /** A device descriptor: bLength, bDescriptorType, bcdUSB, bDeviceClass, bDeviceSubClass,
      bDeviceProtocol, bMaxPacketSize0, idVendor, idProduct, bcdDevice, iManufacturer,
      iProduct, iSerialNumber, bNumConfigurations. */
  lemma DeviceLayout(fs: seq<nat>)
    requires |fs| == 14 && InRange(Tree.DEVICE_WIDTHS, fs)
    ensures var bs := PackDevice(fs);
      && |bs| == 18 && bs[0] == fs[0] && bs[1] == fs[1] && Word16(bs, 2) == fs[2]
      && bs[4] == fs[3] && bs[5] == fs[4] && bs[6] == fs[5] && bs[7] == fs[6]
      && Word16(bs, 8) == fs[7] && Word16(bs, 10) == fs[8] && Word16(bs, 12) == fs[9]
      && bs[14] == fs[10] && bs[15] == fs[11] && bs[16] == fs[12] && bs[17] == fs[13]
  {
    hide PackFields, Word16;
    DeviceRanges(fs);
    DeviceHead(fs);
    DeviceTail(fs);
    var w1, w2: seq<nat> := [1, 1, 2, 1, 1, 1, 1], [2, 2, 2, 1, 1, 1, 1];
    PackAppend(w1, fs[..7], w2, fs[7..]);
    assert Tree.DEVICE_WIDTHS == w1 + w2 && fs == fs[..7] + fs[7..];
    var head, tail := PackFields(w1, fs[..7]), PackFields(w2, fs[7..]);
    assert PackDevice(fs) == head + tail;
    Behind(head, tail);
  }

  lemma Behind(a: seq<byte>, b: seq<byte>)
    ensures forall i :: 0 <= i < |a| ==> (a + b)[i] == a[i]
    ensures forall i :: 0 <= i < |b| ==> (a + b)[|a| + i] == b[i]
    ensures forall i :: 0 <= i <= |a| - 2 ==> Word16(a + b, i) == Word16(a, i)
    ensures forall i :: 0 <= i <= |b| - 2 ==> Word16(a + b, |a| + i) == Word16(b, i)
  {
  }

  lemma DeviceRanges(fs: seq<nat>)
    requires |fs| == 14 && InRange(Tree.DEVICE_WIDTHS, fs)
    ensures fs[2] < 0x1_0000 && fs[7] < 0x1_0000 && fs[8] < 0x1_0000 && fs[9] < 0x1_0000
    ensures forall i :: 0 <= i < 14 && i !in {2, 7, 8, 9} ==> fs[i] < 256
  {
    hide Pow256;
    SmallPowers();
    assert forall i :: 0 <= i < 14 ==> fs[i] < Pow256(Tree.DEVICE_WIDTHS[i]);
  }

  lemma DeviceHead(fs: seq<nat>)
    requires |fs| == 14 && fs[2] < 0x1_0000 && forall i :: 0 <= i < 14 && i !in {2, 7, 8, 9} ==> fs[i] < 256
    ensures var bs := PackFields([1, 1, 2, 1, 1, 1, 1], fs[..7]);
      && |bs| == 8 && bs[0] == fs[0] && bs[1] == fs[1] && Word16(bs, 2) == fs[2]
      && bs[4] == fs[3] && bs[5] == fs[4] && bs[6] == fs[5] && bs[7] == fs[6]
  {
    hide PackFields;
    PackAround([1, 1], fs[..2], fs[2], [1, 1, 1, 1], fs[3..7]);
    assert [1, 1] + [2] + [1, 1, 1, 1] == [1, 1, 2, 1, 1, 1, 1] && fs[..2] + [fs[2]] + fs[3..7] == fs[..7];
    var bs := PackFields([1, 1, 2, 1, 1, 1, 1], fs[..7]);
    assert bs[4 + 0] == fs[3..7][0] && bs[4 + 1] == fs[3..7][1] && bs[4 + 2] == fs[3..7][2] && bs[4 + 3] == fs[3..7][3];
  }

  lemma DeviceTail(fs: seq<nat>)
    requires |fs| == 14 && fs[7] < 0x1_0000 && fs[8] < 0x1_0000 && fs[9] < 0x1_0000
    requires forall i :: 10 <= i < 14 ==> fs[i] < 256
    ensures var bs := PackFields([2, 2, 2, 1, 1, 1, 1], fs[7..]);
      && |bs| == 10 && Word16(bs, 0) == fs[7] && Word16(bs, 2) == fs[8] && Word16(bs, 4) == fs[9]
      && bs[6] == fs[10] && bs[7] == fs[11] && bs[8] == fs[12] && bs[9] == fs[13]
  {
    hide PackFields;
    PackWord(fs[7]);
    PackWord(fs[8]);
    PackAround([], [], fs[9], [1, 1, 1, 1], fs[10..]);
    var ws: seq<nat> := [2, 1, 1, 1, 1];
    assert [] + [2] + [1, 1, 1, 1] == ws && [] + [fs[9]] + fs[10..] == fs[9..];
    PackAppend([2], [fs[8]], ws, fs[9..]);
    PackAppend([2], [fs[7]], [2] + ws, [fs[8]] + fs[9..]);
    assert [2] + ([2] + ws) == [2, 2, 2, 1, 1, 1, 1] && [fs[7]] + ([fs[8]] + fs[9..]) == fs[7..];
    var b := PackFields(ws, fs[9..]);
    assert b[2 + 0] == fs[10..][0] && b[2 + 1] == fs[10..][1] && b[2 + 2] == fs[10..][2] && b[2 + 3] == fs[10..][3];
  }

  // ------------------------------------------------------------------------- the tree

  /** What `tree::build` puts into its nodes. */
  lemma BuiltNodes(c: LibusbConfig, a: LibusbAltsetting, e: LibusbEndpoint, d: LibusbDevCap, b: LibusbBos)
    requires ConfigValid(c) && AltsettingValid(a) && EndpointValid(e) && DevCapValid(d) && BosValid(b)
    ensures BuildConfig(c).fields == [c.bLength as nat, c.bDescriptorType, c.wTotalLength, c.bNumInterfaces,
                                      c.bConfigurationValue, c.iConfiguration, c.bmAttributes, c.maxPower]
    ensures BuildAltsetting(a).fields == [a.bLength as nat, a.bDescriptorType, a.bInterfaceNumber, a.bAlternateSetting,
                                          a.bNumEndpoints, a.bInterfaceClass, a.bInterfaceSubClass,
                                          a.bInterfaceProtocol, a.iInterface]
    ensures BuildEndpoint(e).fields == [e.bLength as nat, e.bDescriptorType, e.bEndpointAddress, e.bmAttributes,
                                        e.wMaxPacketSize, e.bInterval, e.bRefresh, e.bSynchAddress]
    ensures BuildDevCap(d).fields == [d.bLength as nat, d.bDescriptorType, d.bDevCapabilityType]
    ensures BuildDevCap(d).bytes == d.data[..d.bLength - 3]
    ensures BuildBos(b).fields == [b.bLength as nat, b.bDescriptorType, b.wTotalLength, b.bNumDeviceCaps]
    ensures c.extra.At? ==> BuildConfig(c).extra == c.extra.memory[..c.extraLength]
    ensures a.extra.At? ==> BuildAltsetting(a).extra == a.extra.memory[..a.extraLength]
    ensures e.extra.At? ==> BuildEndpoint(e).extra == e.extra.memory[..e.extraLength]
    ensures c.interfaces.At? ==>
      && |BuildConfig(c).children| == c.bNumInterfaces
      && forall i :: 0 <= i < c.bNumInterfaces ==> BuildConfig(c).children[i] == BuildInterface(c.interfaces.memory[i])
    ensures a.endpoint.At? ==>
      && |BuildAltsetting(a).children| == a.bNumEndpoints
      && forall i :: 0 <= i < a.bNumEndpoints ==> BuildAltsetting(a).children[i] == BuildEndpoint(a.endpoint.memory[i])
  {
    var s, es := Vectorize(c.interfaces, c.bNumInterfaces), Vectorize(a.endpoint, a.bNumEndpoints);
    assert c.interfaces.At? ==> forall i :: 0 <= i < |s| ==> s[i] == c.interfaces.memory[i];
    assert a.endpoint.At? ==> forall i :: 0 <= i < |es| ==> es[i] == a.endpoint.memory[i];
    hide BuildInterface, BuildEndpoint, InterfaceValid, EndpointValid, BuildInterfaces, BuildEndpoints;
  }

  // --------------------------------------------------------------------- stated lengths

  lemma {:induction false} SumOfOnes(ws: seq<nat>)
    requires forall i :: 0 <= i < |ws| ==> ws[i] == 1
    ensures Sum(ws) == |ws|
  {
    if ws != [] { SumOfOnes(ws[1..]); }
  }

  lemma SumAround(ws: seq<nat>, vs: seq<nat>)
    requires (forall i :: 0 <= i < |ws| ==> ws[i] == 1) && forall i :: 0 <= i < |vs| ==> vs[i] == 1
    ensures Sum(ws + [2] + vs) == |ws| + 2 + |vs|
  {
    SumOfOnes(ws);
    SumOfOnes(vs);
    SumAppend(ws, [2]);
    SumAppend(ws + [2], vs);
    assert Sum([2]) == 2 + Sum([]);
  }

  /** The length that each kind of node has to state. */
  lemma OwnLengths(d: Desc)
    requires Shaped(d)
    ensures var n := Sum(WireWidths(d.kind, d.fields));
      && (d.kind in {Config, Interface} ==> n == 9) && (d.kind == Bos ==> n == 5) && (d.kind == DevCap ==> n == 3)
      && (d.kind == Endpoint ==> n == if d.fields[0] == 9 then 9 else 7)
  {
    hide Sum;
    SumAround([1, 1], [1, 1, 1, 1, 1]);
    SumAround([1, 1], [1]);
    SumAround([1, 1, 1, 1], [1]);
    SumAround([1, 1, 1, 1], [1, 1, 1]);
    assert [1, 1] + [2] + [1, 1, 1, 1, 1] == Widths(Config) && [1, 1] + [2] + [1] == Widths(Bos);
    assert [1, 1, 1, 1] + [2] + [1] == Widths(Endpoint)[..6] && [1, 1, 1, 1] + [2] + [1, 1, 1] == Widths(Endpoint);
    SumOfOnes(Widths(Interface));
    SumOfOnes(Widths(DevCap));
  }

  /** Exactly what makes a tree one that a host can step through: every node states its
      true length, and its extra bytes are descriptors themselves. */
  lemma HonestIff(d: Desc)
    requires WellFormed(d)
    ensures Shaped(d)
    ensures Honest(d) <==>
      && (d.kind in {Config, Interface} ==> d.fields[0] == 9) && (d.kind == Bos ==> d.fields[0] == 5)
      && (d.kind == DevCap ==> d.fields[0] == 3 + |d.bytes|) && (d.kind == Endpoint ==> d.fields[0] in {7, 9})
      && Chain(d.extra).Some? && forall c :: c in d.children ==> Honest(c)
  {
    hide WireWidths, Chain, Sum;
    WellFormedIsShaped(d);
    OwnLengths(d);
  }
}
