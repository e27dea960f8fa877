/** libusb's own structures: packed directly by `packer`, and turned into a wrapped
    tree by `tree::build` (usb_descriptors_impl.cpp). The two ways to the wire agree. */
module LibusbPacking {
  import opened Prelude
  import opened Descriptors
  import opened Packing

  // -------------------------------------------------------------- the structures

  /** A C pointer: null, or the memory from there on. */
  datatype Pointer<+T> = Null | At(memory: seq<T>)

  datatype LibusbEndpoint = LibusbEndpoint(
    bLength: u8, bDescriptorType: u8, bEndpointAddress: u8, bmAttributes: u8, wMaxPacketSize: u16,
    bInterval: u8, bRefresh: u8, bSynchAddress: u8, extra: Pointer<byte>, extraLength: int)

  datatype LibusbAltsetting = LibusbAltsetting(
    bLength: u8, bDescriptorType: u8, bInterfaceNumber: u8, bAlternateSetting: u8, bNumEndpoints: u8,
    bInterfaceClass: u8, bInterfaceSubClass: u8, bInterfaceProtocol: u8, iInterface: u8,
    endpoint: Pointer<LibusbEndpoint>, extra: Pointer<byte>, extraLength: int)

  datatype LibusbInterface = LibusbInterface(altsetting: Pointer<LibusbAltsetting>, numAltsetting: int)

  datatype LibusbConfig = LibusbConfig(
    bLength: u8, bDescriptorType: u8, wTotalLength: u16, bNumInterfaces: u8, bConfigurationValue: u8,
    iConfiguration: u8, bmAttributes: u8, maxPower: u8,
    interfaces: Pointer<LibusbInterface>, extra: Pointer<byte>, extraLength: int)

  datatype LibusbDevCap = LibusbDevCap(
    bLength: u8, bDescriptorType: u8, bDevCapabilityType: u8, data: seq<byte>)

  datatype LibusbBos = LibusbBos(
    bLength: u8, bDescriptorType: u8, wTotalLength: u16, bNumDeviceCaps: u8, devCapability: seq<LibusbDevCap>)

  predicate Covers<T>(p: Pointer<T>, count: int) {
    0 <= count < TWO_31 && (p == Null || count <= |p.memory|)
  }

  /** `format::unsafe::vectorize`. */
  function Vectorize<T>(p: Pointer<T>, count: int): (v: seq<T>)
    requires Covers(p, count)
    ensures p.At? ==> |v| == count
  {
    if p == Null || count == 0 then [] else p.memory[..count]
  }

  // What libusb promises of the structures it hands out: the counts are those of the
  // arrays, and a capability is no shorter than its header.

  predicate EndpointValid(e: LibusbEndpoint) { Covers(e.extra, e.extraLength) }

  predicate AltsettingValid(a: LibusbAltsetting) {
    && Covers(a.extra, a.extraLength) && Covers(a.endpoint, a.bNumEndpoints)
    && forall e :: e in Vectorize(a.endpoint, a.bNumEndpoints) ==> EndpointValid(e)
  }

  predicate InterfaceValid(i: LibusbInterface) {
    && Covers(i.altsetting, i.numAltsetting)
    && forall a :: a in Vectorize(i.altsetting, i.numAltsetting) ==> AltsettingValid(a)
  }

  predicate ConfigValid(c: LibusbConfig) {
    && Covers(c.extra, c.extraLength) && Covers(c.interfaces, c.bNumInterfaces)
    && forall i :: i in Vectorize(c.interfaces, c.bNumInterfaces) ==> InterfaceValid(i)
  }

  predicate DevCapValid(d: LibusbDevCap) { 3 <= d.bLength <= 3 + |d.data| }

  predicate BosValid(b: LibusbBos) {
    && b.bNumDeviceCaps <= |b.devCapability|
    && forall d :: d in b.devCapability[..b.bNumDeviceCaps] ==> DevCapValid(d)
  }

  // ------------------------------------------------------------- packing directly

  /** `pack(libusb_endpoint_descriptor)`: which of the two descriptions applies. */
  function PackEndpointFields(e: LibusbEndpoint): seq<byte> {
    if e.bLength == AUDIO_ENDPOINT_LENGTH then
      PackFields([1, 1, 1, 1, 2, 1, 1, 1], [e.bLength, e.bDescriptorType, e.bEndpointAddress, e.bmAttributes,
                                            e.wMaxPacketSize, e.bInterval, e.bRefresh, e.bSynchAddress])
    else
      PackFields([1, 1, 1, 1, 2, 1], [e.bLength, e.bDescriptorType, e.bEndpointAddress, e.bmAttributes,
                                      e.wMaxPacketSize, e.bInterval])
  }

  function PackEndpoint(e: LibusbEndpoint): seq<byte>
    requires EndpointValid(e)
  {
    PackEndpointFields(e) + Vectorize(e.extra, e.extraLength)
  }

  function PackEndpoints(es: seq<LibusbEndpoint>): seq<byte>
    requires forall e :: e in es ==> EndpointValid(e)
  {
    if es == [] then [] else PackEndpoint(es[0]) + PackEndpoints(es[1..])
  }

  function AltsettingFields(a: LibusbAltsetting): seq<nat> {
    [a.bLength, a.bDescriptorType, a.bInterfaceNumber, a.bAlternateSetting, a.bNumEndpoints,
     a.bInterfaceClass, a.bInterfaceSubClass, a.bInterfaceProtocol, a.iInterface]
  }

  function PackAltsetting(a: LibusbAltsetting): seq<byte>
    requires AltsettingValid(a)
  {
    PackFields(Widths(Interface), AltsettingFields(a)) + Vectorize(a.extra, a.extraLength)
    + PackEndpoints(Vectorize(a.endpoint, a.bNumEndpoints))
  }

  function PackAltsettings(s: seq<LibusbAltsetting>): seq<byte>
    requires forall a :: a in s ==> AltsettingValid(a)
  {
    if s == [] then [] else PackAltsetting(s[0]) + PackAltsettings(s[1..])
  }

  function PackInterface(i: LibusbInterface): seq<byte>
    requires InterfaceValid(i)
  {
    PackAltsettings(Vectorize(i.altsetting, i.numAltsetting))
  }

  function PackInterfaces(s: seq<LibusbInterface>): seq<byte>
    requires forall i :: i in s ==> InterfaceValid(i)
  {
    if s == [] then [] else PackInterface(s[0]) + PackInterfaces(s[1..])
  }

  function ConfigFields(c: LibusbConfig): seq<nat> {
    [c.bLength, c.bDescriptorType, c.wTotalLength, c.bNumInterfaces, c.bConfigurationValue, c.iConfiguration,
     c.bmAttributes, c.maxPower]
  }

  /** `packer::pack(const libusb_config_descriptor&)`. */
  function PackConfig(c: LibusbConfig): seq<byte>
    requires ConfigValid(c)
  {
    PackFields(Widths(Config), ConfigFields(c)) + Vectorize(c.extra, c.extraLength)
    + PackInterfaces(Vectorize(c.interfaces, c.bNumInterfaces))
  }

  /** What is behind the three bytes every capability starts with. */
  function CapData(d: LibusbDevCap): seq<byte>
    requires DevCapValid(d)
  {
    d.data[..d.bLength - 3]
  }

  function DevCapFields(d: LibusbDevCap): seq<nat> { [d.bLength, d.bDescriptorType, d.bDevCapabilityType] }

  function PackDevCap(d: LibusbDevCap): seq<byte>
    requires DevCapValid(d)
  {
    PackFields(Widths(DevCap), DevCapFields(d)) + CapData(d)
  }

  function PackDevCaps(ds: seq<LibusbDevCap>): seq<byte>
    requires forall d :: d in ds ==> DevCapValid(d)
  {
    if ds == [] then [] else PackDevCap(ds[0]) + PackDevCaps(ds[1..])
  }

  function BosFields(b: LibusbBos): seq<nat> { [b.bLength, b.bDescriptorType, b.wTotalLength, b.bNumDeviceCaps] }

  /** `packer::pack(const libusb_bos_descriptor*)`. */
  function PackBos(b: LibusbBos): seq<byte>
    requires BosValid(b)
  {
    PackFields(Widths(Bos), BosFields(b)) + PackDevCaps(b.devCapability[..b.bNumDeviceCaps])
  }

  // ------------------------------------------------------------ building the tree

  function BuildEndpoint(e: LibusbEndpoint): Desc
    requires EndpointValid(e)
  {
    Desc(Endpoint, [e.bLength, e.bDescriptorType, e.bEndpointAddress, e.bmAttributes, e.wMaxPacketSize,
                    e.bInterval, e.bRefresh, e.bSynchAddress],
         [], [], Vectorize(e.extra, e.extraLength))
  }

  function BuildEndpoints(es: seq<LibusbEndpoint>): (ds: seq<Desc>)
    requires forall e :: e in es ==> EndpointValid(e)
    ensures |ds| == |es| && forall i :: 0 <= i < |es| ==> ds[i] == BuildEndpoint(es[i])
  {
    if es == [] then [] else [BuildEndpoint(es[0])] + BuildEndpoints(es[1..])
  }

  function BuildAltsetting(a: LibusbAltsetting): Desc
    requires AltsettingValid(a)
  {
    Desc(Interface, AltsettingFields(a), BuildEndpoints(Vectorize(a.endpoint, a.bNumEndpoints)), [],
         Vectorize(a.extra, a.extraLength))
  }

  function BuildAltsettings(s: seq<LibusbAltsetting>): (ds: seq<Desc>)
    requires forall a :: a in s ==> AltsettingValid(a)
    ensures |ds| == |s| && forall i :: 0 <= i < |s| ==> ds[i] == BuildAltsetting(s[i])
  {
    if s == [] then [] else [BuildAltsetting(s[0])] + BuildAltsettings(s[1..])
  }

  function BuildInterface(i: LibusbInterface): Desc
    requires InterfaceValid(i)
  {
    Desc(UsbInterface, [], BuildAltsettings(Vectorize(i.altsetting, i.numAltsetting)), [], [])
  }

  function BuildInterfaces(s: seq<LibusbInterface>): (ds: seq<Desc>)
    requires forall i :: i in s ==> InterfaceValid(i)
    ensures |ds| == |s| && forall i :: 0 <= i < |s| ==> ds[i] == BuildInterface(s[i])
  {
    if s == [] then [] else [BuildInterface(s[0])] + BuildInterfaces(s[1..])
  }

  /** `tree::build` of a configuration. */
  function BuildConfig(c: LibusbConfig): Desc
    requires ConfigValid(c)
  {
    Desc(Config, ConfigFields(c), BuildInterfaces(Vectorize(c.interfaces, c.bNumInterfaces)), [],
         Vectorize(c.extra, c.extraLength))
  }

  function BuildDevCap(d: LibusbDevCap): Desc
    requires DevCapValid(d)
  {
    Desc(DevCap, DevCapFields(d), [], CapData(d), [])
  }

  function BuildDevCaps(s: seq<LibusbDevCap>): (ds: seq<Desc>)
    requires forall d :: d in s ==> DevCapValid(d)
    ensures |ds| == |s| && forall i :: 0 <= i < |s| ==> ds[i] == BuildDevCap(s[i])
  {
    if s == [] then [] else [BuildDevCap(s[0])] + BuildDevCaps(s[1..])
  }

  /** `tree::build` of a BOS descriptor. */
  function BuildBos(b: LibusbBos): Desc
    requires BosValid(b)
  {
    Desc(Bos, BosFields(b), BuildDevCaps(b.devCapability[..b.bNumDeviceCaps]), [], [])
  }

  /** What the tree holds when libusb has no BOS descriptor: it is left as it was. */
  function NoBos(): Desc { Desc(Bos, [0, 0, 0, 0], [], [], []) }

  // ------------------------------------------------- what is built is well formed

  lemma EndpointsWellFormed(es: seq<LibusbEndpoint>)
    requires forall e :: e in es ==> EndpointValid(e)
    ensures forall d :: d in BuildEndpoints(es) ==> d.kind == Endpoint && WellFormed(d)
  {
    SmallPowers();
    forall i | 0 <= i < |es| ensures WellFormed(BuildEndpoint(es[i])) { assert es[i] in es; }
  }

  lemma AltsettingsWellFormed(s: seq<LibusbAltsetting>)
    requires forall a :: a in s ==> AltsettingValid(a)
    ensures forall d :: d in BuildAltsettings(s) ==> d.kind == Interface && WellFormed(d)
  {
    hide BuildEndpoints;
    SmallPowers();
    forall i | 0 <= i < |s| ensures WellFormed(BuildAltsetting(s[i])) {
      assert s[i] in s;
      EndpointsWellFormed(Vectorize(s[i].endpoint, s[i].bNumEndpoints));
    }
  }

  lemma InterfacesWellFormed(s: seq<LibusbInterface>)
    requires forall i :: i in s ==> InterfaceValid(i)
    ensures forall d :: d in BuildInterfaces(s) ==> d.kind == UsbInterface && WellFormed(d)
  {
    hide BuildAltsettings;
    forall i | 0 <= i < |s| ensures WellFormed(BuildInterface(s[i])) {
      assert s[i] in s;
      AltsettingsWellFormed(Vectorize(s[i].altsetting, s[i].numAltsetting));
    }
  }

  /** A device's own descriptors always fit the tree. */
  lemma BuiltIsWellFormed(c: LibusbConfig, b: LibusbBos)
    requires ConfigValid(c) && BosValid(b)
    ensures WellFormed(BuildConfig(c)) && WellFormed(BuildBos(b)) && WellFormed(NoBos())
  {
    hide BuildInterfaces, BuildDevCaps;
    SmallPowers();
    InterfacesWellFormed(Vectorize(c.interfaces, c.bNumInterfaces));
    var caps := b.devCapability[..b.bNumDeviceCaps];
    forall d | d in BuildDevCaps(caps) ensures d.kind == DevCap && WellFormed(d) {
      var i :| 0 <= i < |caps| && BuildDevCaps(caps)[i] == d;
      assert caps[i] in caps;
    }
  }

  // --------------------------------------------------------- the two packers agree

  lemma PacksSameEndpoint(e: LibusbEndpoint)
    requires EndpointValid(e)
    ensures Pack(BuildEndpoint(e)) == PackEndpoint(e)
  {
    hide PackFields;
    var d := BuildEndpoint(e);
    assert d.fields[..8] == d.fields;
    assert d.fields[..6] == [e.bLength, e.bDescriptorType, e.bEndpointAddress, e.bmAttributes, e.wMaxPacketSize, e.bInterval];
    assert Widths(Endpoint)[..6] == [1, 1, 1, 1, 2, 1];
    assert Header(Endpoint, d.fields) == PackEndpointFields(e);
  }

  lemma {:induction false} PacksSameEndpoints(es: seq<LibusbEndpoint>)
    requires forall e :: e in es ==> EndpointValid(e)
    ensures forall d :: d in BuildEndpoints(es) ==> Shaped(d)
    ensures PackAll(BuildEndpoints(es)) == PackEndpoints(es)
  {
    hide Pack, PackEndpoint, EndpointValid;
    if es != [] {
      PacksSameEndpoint(es[0]);
      PacksSameEndpoints(es[1..]);
      assert BuildEndpoints(es)[1..] == BuildEndpoints(es[1..]);
    }
  }

  lemma HeaderOf(k: Kind, fs: seq<nat>)
    requires |fs| == |Widths(k)| && k != Endpoint
    ensures Header(k, fs) == PackFields(Widths(k), fs)
  {
    assert fs[..|fs|] == fs;
  }

  lemma PacksSameAltsetting(a: LibusbAltsetting)
    requires AltsettingValid(a)
    ensures Shaped(BuildAltsetting(a)) && Pack(BuildAltsetting(a)) == PackAltsetting(a)
  {
    hide PackFields, Header, BuildEndpoints;
    var d := BuildAltsetting(a);
    HeaderOf(Interface, d.fields);
    PacksSameEndpoints(Vectorize(a.endpoint, a.bNumEndpoints));
    assert [] + PackAll(d.children) == PackAll(d.children);
  }

  lemma {:induction false} PacksSameAltsettings(s: seq<LibusbAltsetting>)
    requires forall a :: a in s ==> AltsettingValid(a)
    ensures forall d :: d in BuildAltsettings(s) ==> Shaped(d)
    ensures PackAll(BuildAltsettings(s)) == PackAltsettings(s)
  {
    hide Pack, PackAltsetting, AltsettingValid, Shaped;
    if s != [] {
      PacksSameAltsetting(s[0]);
      PacksSameAltsettings(s[1..]);
      assert BuildAltsettings(s)[1..] == BuildAltsettings(s[1..]);
    }
  }

  lemma PacksSameInterface(i: LibusbInterface)
    requires InterfaceValid(i)
    ensures Shaped(BuildInterface(i))
    ensures Pack(BuildInterface(i)) == PackInterface(i)
  {
    hide BuildAltsettings;
    var d := BuildInterface(i);
    PacksSameAltsettings(Vectorize(i.altsetting, i.numAltsetting));
    HeaderOf(UsbInterface, d.fields);
    assert [] + PackAll(d.children) == PackAll(d.children);
  }

  lemma {:induction false} PacksSameInterfaces(s: seq<LibusbInterface>)
    requires forall i :: i in s ==> InterfaceValid(i)
    ensures forall d :: d in BuildInterfaces(s) ==> Shaped(d)
    ensures PackAll(BuildInterfaces(s)) == PackInterfaces(s)
  {
    hide Pack, PackInterface, InterfaceValid, Shaped;
    if s != [] {
      PacksSameInterface(s[0]);
      PacksSameInterfaces(s[1..]);
      assert BuildInterfaces(s)[1..] == BuildInterfaces(s[1..]);
    }
  }

  lemma PacksSameDevCap(d: LibusbDevCap)
    requires DevCapValid(d)
    ensures Shaped(BuildDevCap(d)) && Pack(BuildDevCap(d)) == PackDevCap(d)
  {
    hide PackFields, Header;
    HeaderOf(DevCap, DevCapFields(d));
    assert CapData(d) + [] == CapData(d);
  }

  lemma {:induction false} PacksSameDevCaps(s: seq<LibusbDevCap>)
    requires forall d :: d in s ==> DevCapValid(d)
    ensures forall d :: d in BuildDevCaps(s) ==> Shaped(d)
    ensures PackAll(BuildDevCaps(s)) == PackDevCaps(s)
  {
    hide Pack, PackDevCap, DevCapValid, Shaped;
    if s != [] {
      PacksSameDevCap(s[0]);
      PacksSameDevCaps(s[1..]);
      assert BuildDevCaps(s)[1..] == BuildDevCaps(s[1..]);
    }
  }

  /** Packing a configuration directly is the same as building the tree of it and
      packing that, whatever is nested in it. */
  lemma PackersAgreeOnConfig(c: LibusbConfig)
    requires ConfigValid(c)
    ensures Shaped(BuildConfig(c)) && Pack(BuildConfig(c)) == PackConfig(c)
  {
    hide PackFields, Header, BuildInterfaces;
    var d := BuildConfig(c);
    HeaderOf(Config, d.fields);
    PacksSameInterfaces(Vectorize(c.interfaces, c.bNumInterfaces));
    assert [] + PackAll(d.children) == PackAll(d.children);
  }

  lemma PackersAgreeOnBos(b: LibusbBos)
    requires BosValid(b)
    ensures Shaped(BuildBos(b)) && Pack(BuildBos(b)) == PackBos(b)
  {
    hide PackFields, Header, BuildDevCaps;
    var d := BuildBos(b);
    HeaderOf(Bos, d.fields);
    PacksSameDevCaps(b.devCapability[..b.bNumDeviceCaps]);
    assert [] + PackAll(d.children) == PackAll(d.children);
    assert Header(Bos, d.fields) + [] == Header(Bos, d.fields);
  }

  /** So a device whose descriptors state their lengths truly is described by a chain,
      by either packer, and its wTotalLength is right when it is the sum of them. */
  lemma DirectPackIsChain(c: LibusbConfig)
    requires ConfigValid(c) && Honest(BuildConfig(c))
    ensures Chain(PackConfig(c)) == Some(Chunks(BuildConfig(c)))
    ensures Shaped(BuildConfig(c)) && |PackConfig(c)| == Total(BuildConfig(c))
  {
    hide BuildConfig, PackConfig, Honest, Chain, Chunks, Pack;
    PackersAgreeOnConfig(c);
    PackIsChain(BuildConfig(c));
  }
}
