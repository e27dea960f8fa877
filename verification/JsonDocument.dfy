/** What it is for a JSON document to describe a device: the members by their names, one by
    one (json_impl.cpp). A document that describes a device denotes it. */
module JsonDocument {
  import opened Prelude
  import opened Descriptors
  import opened Tree
  import opened Json

  // ---------------------------------------------------------------------- the numbers

  /** v is n: as an integer, in hexadecimal, or in decimal digits. */
  predicate Writes(v: Value, n: nat) {
    v == Int(n) || v == Str(['0' as int, 'x' as int] + Numeral(16, n)) || v == Str(Numeral(10, n))
  }

  function Short(a: byte, b: byte): nat { a as nat + 0x100 * (b as nat) }

  function Long(a: byte, b: byte, c: byte, d: byte): nat { Short(a, b) + 0x1_0000 * Short(c, d) }

  /** The member is n, which may be left out if it is zero. */
  predicate Member(o: Object, key: string, n: nat, limit: nat) {
    n < limit && if key in o then Writes(o[key], n) else n == 0
  }

  predicate WritesBytes(vs: seq<Value>, bs: seq<byte>) {
    |vs| == |bs| < TWO_32 && forall i :: 0 <= i < |vs| ==> Writes(vs[i], bs[i])
  }

  predicate HasObject(o: Object, key: string) { key in o && o[key].Obj? }
  predicate HasArray(o: Object, key: string) { key in o && o[key].Arr? }

  // ------------------------------------------------------------------------ the nodes

  predicate WritesCompanion(c: Object, bs: seq<byte>) {
    && |bs| == 6
    && Member(c, "bLength", bs[0], 0x100) && Member(c, "bDescriptorType", bs[1], 0x100)
    && Member(c, "bMaxBurst", bs[2], 0x100) && Member(c, "bmAttributes", bs[3], 0x100)
    && Member(c, "wBytesPerInterval", Short(bs[4], bs[5]), 0x1_0000)
  }

  /** The companion's six bytes if there is one, then the raw bytes. */
  predicate WritesExtra(o: Object, extra: seq<byte>) {
    var n := if "Endpoint Companion" in o then 6 else 0;
    && n <= |extra| < TWO_32
    && ("Endpoint Companion" in o ==>
          o["Endpoint Companion"].Obj? && WritesCompanion(o["Endpoint Companion"].members, extra[..n]))
    && (if "daExtra" in o then o["daExtra"].Arr? && WritesBytes(o["daExtra"].items, extra[n..]) else |extra| == n)
  }

  predicate WritesEndpoint(v: Value, d: Desc) {
    && v.Obj? && HasObject(v.members, "Endpoint Descriptor") && d.kind == Endpoint && |d.fields| == 8
    && d.children == [] && d.bytes == [] && WritesExtra(v.members, d.extra)
    && var o, f := v.members["Endpoint Descriptor"].members, d.fields;
    && Member(o, "bLength", f[0], 0x100) && Member(o, "bDescriptorType", f[1], 0x100)
    && Member(o, "bEndpointAddress", f[2], 0x100) && Member(o, "bmAttributes", f[3], 0x100)
    && Member(o, "wMaxPacketSize", f[4], 0x1_0000) && Member(o, "bInterval", f[5], 0x100)
    && Member(o, "bRefresh", f[6], 0x100) && Member(o, "bSynchAddress", f[7], 0x100)
  }

  /** An interface keeps its extras in the inner object. */
  predicate WritesInterface(v: Value, d: Desc) {
    && v.Obj? && HasObject(v.members, "Interface Descriptor") && d.kind == Interface && |d.fields| == 9
    && var o, f := v.members["Interface Descriptor"].members, d.fields;
    && Member(o, "bLength", f[0], 0x100) && Member(o, "bDescriptorType", f[1], 0x100)
    && Member(o, "bInterfaceNumber", f[2], 0x100) && Member(o, "bAlternateSetting", f[3], 0x100)
    && Member(o, "bNumEndpoints", f[4], 0x100) && Member(o, "bInterfaceClass", f[5], 0x100)
    && Member(o, "bInterfaceSubClass", f[6], 0x100) && Member(o, "bInterfaceProtocol", f[7], 0x100)
    && Member(o, "iInterface", f[8], 0x100)
    && HasArray(o, "aofEndpoints") && d.bytes == [] && WritesExtra(o, d.extra)
    && var vs := o["aofEndpoints"].items;
    |vs| == |d.children| < TWO_32 && forall i :: 0 <= i < |vs| ==> WritesEndpoint(vs[i], d.children[i])
  }

  predicate WritesUsbInterface(v: Value, d: Desc) {
    && v.Obj? && HasArray(v.members, "aofInterfaces") && d.kind == UsbInterface
    && d.fields == [] && d.bytes == [] && d.extra == []
    && var vs := v.members["aofInterfaces"].items;
    |vs| == |d.children| < TWO_32 && forall i :: 0 <= i < |vs| ==> WritesInterface(vs[i], d.children[i])
  }

  /** A configuration keeps them in the outer one. */
  predicate WritesConfig(v: Value, d: Desc) {
    && v.Obj? && HasObject(v.members, "Configuration Descriptor") && d.kind == Config && |d.fields| == 8
    && var o, f := v.members["Configuration Descriptor"].members, d.fields;
    && Member(o, "bLength", f[0], 0x100) && Member(o, "bDescriptorType", f[1], 0x100)
    && Member(o, "wTotalLength", f[2], 0x1_0000) && Member(o, "bNumInterfaces", f[3], 0x100)
    && Member(o, "bConfigurationValue", f[4], 0x100) && Member(o, "iConfiguration", f[5], 0x100)
    && Member(o, "bmAttributes", f[6], 0x100) && Member(o, "MaxPower", f[7], 0x100)
    && HasArray(o, "aofAltsettings") && d.bytes == [] && WritesExtra(v.members, d.extra)
    && var vs := o["aofAltsettings"].items;
    |vs| == |d.children| < TWO_32 && forall i :: 0 <= i < |vs| ==> WritesUsbInterface(vs[i], d.children[i])
  }

  /** The bytes of a capability, by its type. */
  predicate WritesCapability(kind: nat, c: Object, bs: seq<byte>) {
    if kind == 2 && "USB 2.0 Extension" in c then
      && HasObject(c, "USB 2.0 Extension") && |bs| == 4
      && Member(c["USB 2.0 Extension"].members, "bmAttributes",
                Long(bs[0], bs[1], bs[2], bs[3]), TWO_32)
    else if kind == 3 && "SuperSpeed USB" in c then
      && HasObject(c, "SuperSpeed USB") && |bs| == 7
      && var s := c["SuperSpeed USB"].members;
      && Member(s, "bmAttributes", bs[0], 0x100) && Member(s, "wSpeedSupported", Short(bs[1], bs[2]), 0x1_0000)
      && Member(s, "bFunctionalitySupport", bs[3], 0x100) && Member(s, "bU1DevExitLat", bs[4], 0x100)
      && Member(s, "bU2DevExitLat", Short(bs[5], bs[6]), 0x1_0000)
    else if "daDevCapability" in c then c["daDevCapability"].Arr? && WritesBytes(c["daDevCapability"].items, bs)
    else bs == []
  }

  predicate WritesDevCap(v: Value, d: Desc) {
    && v.Obj? && d.kind == DevCap && |d.fields| == 3 && d.children == [] && d.extra == []
    && Member(v.members, "bLength", d.fields[0], 0x100) && Member(v.members, "bDescriptorType", d.fields[1], 0x100)
    && Member(v.members, "bDevCapabilityType", d.fields[2], 0x100)
    && WritesCapability(d.fields[2], v.members, d.bytes)
  }

  predicate WritesBos(o: Object, d: Desc) {
    && d.kind == Bos && |d.fields| == 4 && d.bytes == [] && d.extra == []
    && Member(o, "bLength", d.fields[0], 0x100) && Member(o, "bDescriptorType", d.fields[1], 0x100)
    && Member(o, "wTotalLength", d.fields[2], 0x1_0000) && Member(o, "bNumDeviceCaps", d.fields[3], 0x100)
    && HasArray(o, "aofDeviceCaps")
    && var vs := o["aofDeviceCaps"].items;
    |vs| == |d.children| < TWO_32 && forall i :: 0 <= i < |vs| ==> WritesDevCap(vs[i], d.children[i])
  }

  // ---------------------------------------------------------------------- the strings

  /** A string descriptor: length and type, and the text as bytes or as characters. */
  predicate WritesString(v: Value, bs: seq<byte>) {
    && v.Obj? && HasObject(v.members, "StringDescriptor") && |bs| >= 2 && bs[0] == |bs|
    && var o := v.members["StringDescriptor"].members;
    && Member(o, "bLength", bs[0], 0x100) && Member(o, "bDescriptorType", bs[1], 0x100) && "string" in o
    && match o["string"]
       case Arr(items) => WritesBytes(items, bs[2..])
       case Str(s) => |bs| == 2 + 2 * |s| && forall i :: 0 <= i < |s| ==> bs[2 + 2 * i] == s[i] && bs[3 + 2 * i] == 0
       case _ => false
  }

  predicate WritesLanguage(v: Value, e: (u16, seq<seq<byte>>)) {
    && v.Obj? && "wLanguageId" in v.members && HasArray(v.members, "aofStrings")
    && var id := v.members["wLanguageId"];
    && (if id.Arr? then |id.items| == 1 && Writes(id.items[0], e.0) else Writes(id, e.0))
    && var vs := v.members["aofStrings"].items;
    |vs| == |e.1| < TWO_32 && forall i :: 0 <= i < |vs| ==> WritesString(vs[i], e.1[i])
  }

  /** The map holds every language there is an entry for, with what the first one says. */
  predicate FirstOfEach(m: Strings, es: seq<(u16, seq<seq<byte>>)>) {
    && (forall l :: l in m ==> exists i :: 0 <= i < |es| && es[i].0 == l)
    && forall i :: 0 <= i < |es| ==>
         es[i].0 in m && ((forall j :: 0 <= j < i ==> es[j].0 != es[i].0) ==> m[es[i].0] == es[i].1)
  }

  ghost predicate WritesStrings(vs: seq<Value>, m: Strings) {
    |vs| < TWO_32 && exists es: seq<(u16, seq<seq<byte>>)> ::
      |es| == |vs| && FirstOfEach(m, es) && forall i :: 0 <= i < |vs| ==> WritesLanguage(vs[i], es[i])
  }

  // ----------------------------------------------------------------------- the device

  /** The fourteen members of a device descriptor. */
  predicate WritesDeviceFields(o: Object, f: seq<nat>) {
    && |f| == 14
    && Member(o, "bLength", f[0], 0x100) && Member(o, "bDescriptorType", f[1], 0x100)
    && Member(o, "bcdUSB", f[2], 0x1_0000) && Member(o, "bDeviceClass", f[3], 0x100)
    && Member(o, "bDeviceSubClass", f[4], 0x100) && Member(o, "bDeviceProtocol", f[5], 0x100)
    && Member(o, "bMaxPacketSize0", f[6], 0x100) && Member(o, "idVendor", f[7], 0x1_0000)
    && Member(o, "idProduct", f[8], 0x1_0000) && Member(o, "bcdDevice", f[9], 0x1_0000)
    && Member(o, "iManufacturer", f[10], 0x100) && Member(o, "iProduct", f[11], 0x100)
    && Member(o, "iSerial", f[12], 0x100) && Member(o, "bNumConfigurations", f[13], 0x100)
  }

  /** The first device of the document is t. */
  ghost predicate WritesDevice(root: Value, t: Tree) {
    && root.Obj? && HasArray(root.members, "aofDevices")
    && var devices := root.members["aofDevices"].items;
    && devices != [] && devices[0].Obj?
    && var dev := devices[0].members;
    && HasObject(dev, "Device Descriptor") && HasArray(dev, "aofStringDescriptors")
    && HasArray(dev, "daReportDescriptor") && HasObject(dev, "BOS Descriptor")
    && var o := dev["Device Descriptor"].members;
    && WritesDeviceFields(o, t.device)
    && HasArray(o, "aofConfigurations") && |o["aofConfigurations"].items| == 1
    && WritesConfig(o["aofConfigurations"].items[0], t.config)
    && WritesStrings(dev["aofStringDescriptors"].items, t.strings)
    && WritesBytes(dev["daReportDescriptor"].items, t.report)
    && WritesBos(dev["BOS Descriptor"].members, t.bos)
  }

  // ------------------------------------------------------- what is written is denoted

  lemma WrittenIsRead(v: Value, n: nat)
    requires Writes(v, n) && n < 0x1_0000_0000
    ensures ReadU32(v) == Ok(n)
  {
    hide Stoul;
    if v == Int(n) {
      ReadInt(n);
    } else if v == Str(Numeral(10, n)) {
      ReadDecimal(n, []);
      assert Numeral(10, n) + [] == Numeral(10, n);
    } else {
      ReadHex(n, 'x' as int, []);
      var s: seq<byte> := ['0' as int, 'x' as int] + Numeral(16, n);
      assert s + [] == s;
    }
  }

  lemma MemberIsRead(o: Object, key: string, n: nat, limit: nat)
    requires Member(o, key, n, limit) && limit <= 0x1_0000_0000
    ensures ReadMember(o, key) == Ok(n) && n < limit
  {
    hide Writes, ReadU32;
    if key in o { WrittenIsRead(o[key], n); }
  }

  lemma {:induction false} FieldsAre(ws: seq<nat>, names: seq<string>, o: Object, fs: seq<nat>)
    requires |ws| == |names| == |fs|
    requires forall i :: 0 <= i < |ws| ==> Member(o, names[i], fs[i], Pow256(ws[i])) && ws[i] in {1, 2}
    ensures FieldsOf(ws, names, o) == Ok(fs)
  {
    hide Member, ReadMember, Pow256;
    if ws != [] {
      SmallPowers();
      MemberIsRead(o, names[0], fs[0], Pow256(ws[0]));
      assert forall i :: 0 <= i < |ws[1..]| ==> ws[1..][i] == ws[i + 1] && names[1..][i] == names[i + 1] && fs[1..][i] == fs[i + 1];
      FieldsAre(ws[1..], names[1..], o, fs[1..]);
      assert [fs[0]] + fs[1..] == fs;
    }
  }

  lemma {:induction false} CollectIs<T>(f: Value -> Result<T>, vs: seq<Value>, xs: seq<T>)
    requires |vs| == |xs| && forall i :: 0 <= i < |vs| ==> f(vs[i]) == Ok(xs[i])
    ensures Collect(f, vs) == Ok(xs)
  {
    if vs != [] {
      assert forall i :: 0 <= i < |vs[1..]| ==> vs[1..][i] == vs[i + 1] && xs[1..][i] == xs[i + 1];
      CollectIs(f, vs[1..], xs[1..]);
      assert [xs[0]] + xs[1..] == xs;
    }
  }

  lemma BytesAre(vs: seq<Value>, bs: seq<byte>)
    requires WritesBytes(vs, bs)
    ensures Collect(ByteOf, vs) == Ok(bs)
  {
    hide Writes, ReadU32, Collect;
    forall i | 0 <= i < |vs| ensures ByteOf(vs[i]) == Ok(bs[i]) { WrittenIsRead(vs[i], bs[i]); }
    CollectIs(ByteOf, vs, bs);
  }

  /** Two bytes are those of the number they make up. */
  lemma WordOf(a: byte, b: byte)
    ensures LittleEndian(2, Short(a, b)) == [a, b]
  {
    var v := Short(a, b);
    assert v % 256 == a && v / 256 == b;
    assert LittleEndian(2, v) == [v % 256] + LittleEndian(1, v / 256);
    assert LittleEndian(1, b) == [b % 256] + LittleEndian(0, b / 256);
  }

  lemma ByteIs(a: byte)
    ensures LittleEndian(1, a) == [a]
  {
    assert LittleEndian(1, a) == [a % 256] + LittleEndian(0, a / 256);
  }

  lemma LongOf(a: byte, b: byte, c: byte, d: byte)
    ensures LittleEndian(4, Long(a, b, c, d)) == [a, b, c, d]
  {
    var v := Long(a, b, c, d);
    var w := Short(c, d);
    var u: nat := b as nat + 256 * w;
    assert v % 256 == a && v / 256 == u && u % 256 == b && u / 256 == w;
    assert LittleEndian(4, v) == [v % 256] + LittleEndian(3, v / 256);
    assert LittleEndian(3, u) == [u % 256] + LittleEndian(2, u / 256);
    WordOf(c, d);
  }

  lemma CompanionIs(c: Object, bs: seq<byte>)
    requires WritesCompanion(c, bs)
    ensures CompanionOf(c) == Ok(bs)
  {
    hide Member, Pow256;
    SmallPowers();
    var names := ["bLength", "bDescriptorType", "bMaxBurst", "bmAttributes", "wBytesPerInterval"];
    FieldsAre([1, 1, 1, 1, 2], names, c, [bs[0], bs[1], bs[2], bs[3], Short(bs[4], bs[5])]);
    WordOf(bs[4], bs[5]);
    assert [bs[0], bs[1], bs[2], bs[3]] + [bs[4], bs[5]] == bs;
  }

  lemma ExtraIs(o: Object, extra: seq<byte>)
    requires WritesExtra(o, extra)
    ensures ExtraOf(o) == Ok(extra)
  {
    hide WritesCompanion, WritesBytes, CompanionOf, Collect;
    var n := if "Endpoint Companion" in o then 6 else 0;
    if "Endpoint Companion" in o { CompanionIs(o["Endpoint Companion"].members, extra[..n]); }
    if "daExtra" in o { BytesAre(o["daExtra"].items, extra[n..]); }
    assert extra[..n] + extra[n..] == extra;
  }

  lemma EndpointIs(v: Value, d: Desc)
    requires WritesEndpoint(v, d)
    ensures EndpointOf(v) == Ok(d)
  {
    hide Member, WritesExtra, ExtraOf, FieldsOf, Pow256;
    SmallPowers();
    FieldsAre(Widths(Endpoint), Names(Endpoint), v.members["Endpoint Descriptor"].members, d.fields);
    ExtraIs(v.members, d.extra);
  }

  lemma InterfaceIs(v: Value, d: Desc)
    requires WritesInterface(v, d)
    ensures InterfaceOf(v) == Ok(d)
  {
    hide Member, WritesExtra, ExtraOf, FieldsOf, Pow256, WritesEndpoint, EndpointOf, Collect;
    SmallPowers();
    var o := v.members["Interface Descriptor"].members;
    FieldsAre(Widths(Interface), Names(Interface), o, d.fields);
    var vs := o["aofEndpoints"].items;
    forall i | 0 <= i < |vs| ensures EndpointOf(vs[i]) == Ok(d.children[i]) { EndpointIs(vs[i], d.children[i]); }
    CollectIs(EndpointOf, vs, d.children);
    ExtraIs(o, d.extra);
  }

  lemma UsbInterfaceIs(v: Value, d: Desc)
    requires WritesUsbInterface(v, d)
    ensures UsbInterfaceOf(v) == Ok(d)
  {
    hide WritesInterface, InterfaceOf, Collect;
    var vs := v.members["aofInterfaces"].items;
    forall i | 0 <= i < |vs| ensures InterfaceOf(vs[i]) == Ok(d.children[i]) { InterfaceIs(vs[i], d.children[i]); }
    CollectIs(InterfaceOf, vs, d.children);
  }

  lemma ConfigIs(v: Value, d: Desc)
    requires WritesConfig(v, d)
    ensures ConfigOf(v) == Ok(d)
  {
    hide Member, WritesExtra, ExtraOf, FieldsOf, Pow256, WritesUsbInterface, UsbInterfaceOf, Collect;
    SmallPowers();
    var o := v.members["Configuration Descriptor"].members;
    FieldsAre(Widths(Config), Names(Config), o, d.fields);
    var vs := o["aofAltsettings"].items;
    forall i | 0 <= i < |vs| ensures UsbInterfaceOf(vs[i]) == Ok(d.children[i]) { UsbInterfaceIs(vs[i], d.children[i]); }
    CollectIs(UsbInterfaceOf, vs, d.children);
    ExtraIs(v.members, d.extra);
  }

  lemma CapabilityIs(kind: nat, c: Object, bs: seq<byte>)
    requires WritesCapability(kind, c, bs)
    ensures CapabilityOf(kind, c) == Ok(bs)
  {
    hide Member, ReadMember, Pow256, WritesBytes, Collect, LittleEndian;
    if kind == 2 && "USB 2.0 Extension" in c {
      LongOf(bs[0], bs[1], bs[2], bs[3]);
      MemberIsRead(c["USB 2.0 Extension"].members, "bmAttributes",
                   Long(bs[0], bs[1], bs[2], bs[3]), TWO_32);
      assert [bs[0], bs[1], bs[2], bs[3]] == bs;
    } else if kind == 3 && "SuperSpeed USB" in c {
      SuperSpeedIs(c["SuperSpeed USB"].members, bs);
    } else if "daDevCapability" in c {
      BytesAre(c["daDevCapability"].items, bs);
      LengthOf(c["daDevCapability"].items, bs);
    }
  }

  lemma LengthOf(vs: seq<Value>, bs: seq<byte>)
    requires WritesBytes(vs, bs)
    ensures |vs| < TWO_32
  {
  }

  lemma SuperSpeedIs(s: Object, bs: seq<byte>)
    requires |bs| == 7
    requires Member(s, "bmAttributes", bs[0], 0x100) && Member(s, "wSpeedSupported", Short(bs[1], bs[2]), 0x1_0000)
    requires Member(s, "bFunctionalitySupport", bs[3], 0x100) && Member(s, "bU1DevExitLat", bs[4], 0x100)
    requires Member(s, "bU2DevExitLat", Short(bs[5], bs[6]), 0x1_0000)
    ensures var f := FieldsOf([1, 2, 1, 1, 2], ["bmAttributes", "wSpeedSupported", "bFunctionalitySupport",
                                                "bU1DevExitLat", "bU2DevExitLat"], s);
      && f.Ok? && |f.value| == 5
      && LittleEndian(1, f.value[0]) + LittleEndian(2, f.value[1]) + LittleEndian(1, f.value[2])
         + LittleEndian(1, f.value[3]) + LittleEndian(2, f.value[4]) == bs
  {
    hide Member, Pow256, FieldsOf, LittleEndian;
    SmallPowers();
    FieldsAre([1, 2, 1, 1, 2], ["bmAttributes", "wSpeedSupported", "bFunctionalitySupport", "bU1DevExitLat", "bU2DevExitLat"],
              s, [bs[0], Short(bs[1], bs[2]), bs[3], bs[4], Short(bs[5], bs[6])]);
    ByteIs(bs[0]); WordOf(bs[1], bs[2]); ByteIs(bs[3]); ByteIs(bs[4]); WordOf(bs[5], bs[6]);
    assert [bs[0]] + [bs[1], bs[2]] + [bs[3]] + [bs[4]] + [bs[5], bs[6]] == bs;
  }

  lemma DevCapIs(v: Value, d: Desc)
    requires WritesDevCap(v, d)
    ensures DevCapOf(v) == Ok(d)
  {
    hide Member, WritesCapability, CapabilityOf, FieldsOf, Pow256;
    SmallPowers();
    FieldsAre(Widths(DevCap), Names(DevCap), v.members, d.fields);
    CapabilityIs(d.fields[2], v.members, d.bytes);
  }

  lemma BosIs(o: Object, d: Desc)
    requires WritesBos(o, d)
    ensures BosOf(o) == Ok(d)
  {
    hide Member, FieldsOf, Pow256, WritesDevCap, DevCapOf, Collect;
    SmallPowers();
    FieldsAre(Widths(Bos), Names(Bos), o, d.fields);
    var vs := o["aofDeviceCaps"].items;
    forall i | 0 <= i < |vs| ensures DevCapOf(vs[i]) == Ok(d.children[i]) { DevCapIs(vs[i], d.children[i]); }
    CollectIs(DevCapOf, vs, d.children);
  }

  lemma {:induction false} WidenIs(s: seq<byte>, bs: seq<byte>)
    requires |bs| == 2 * |s| && forall i :: 0 <= i < |s| ==> bs[2 * i] == s[i] && bs[2 * i + 1] == 0
    ensures Widen(s) == bs
  {
    if s != [] {
      var rest := bs[2..];
      forall i | 0 <= i < |s[1..]| ensures rest[2 * i] == s[1..][i] && rest[2 * i + 1] == 0 {
        assert bs[2 * (i + 1)] == s[i + 1] && bs[2 * (i + 1) + 1] == 0;
      }
      WidenIs(s[1..], rest);
      assert bs[2 * 0] == s[0] && bs[2 * 0 + 1] == 0;
      assert [s[0], 0] + rest == bs;
    }
  }

  lemma StringIs(v: Value, bs: seq<byte>)
    requires WritesString(v, bs)
    ensures StringOf(v) == Ok(bs)
  {
    hide Member, FieldsOf, Pow256, Widen, Collect, WritesBytes;
    SmallPowers();
    var o := v.members["StringDescriptor"].members;
    FieldsAre([1, 1], ["bLength", "bDescriptorType"], o, [bs[0], bs[1]]);
    match o["string"] {
      case Arr(items) => BytesAre(items, bs[2..]);
      case Str(s) => WidenedText(s, bs);
    }
    assert TextOf(o["string"]) == Ok(bs[2..]) && |bs| == 2 + |bs[2..]|;
    assert [bs[0] % 256, bs[1] % 256] + bs[2..] == bs;
  }

  lemma WidenedText(s: seq<byte>, bs: seq<byte>)
    requires |bs| == 2 + 2 * |s| && forall i :: 0 <= i < |s| ==> bs[2 + 2 * i] == s[i] && bs[3 + 2 * i] == 0
    ensures Widen(s) == bs[2..]
  {
    var rest := bs[2..];
    forall i | 0 <= i < |s| ensures rest[2 * i] == s[i] && rest[2 * i + 1] == 0 {
      assert bs[2 + 2 * i] == s[i] && bs[3 + 2 * i] == 0;
    }
    WidenIs(s, rest);
  }

  lemma LanguageIs(v: Value, e: (u16, seq<seq<byte>>))
    requires WritesLanguage(v, e)
    ensures LanguageStringsOf(v) == Ok(e)
  {
    hide Writes, ReadU32, WritesString, StringOf, Collect;
    var id, vs := v.members["wLanguageId"], v.members["aofStrings"].items;
    if id.Arr? { WrittenIsRead(id.items[0], e.0); } else { WrittenIsRead(id, e.0); }
    forall i | 0 <= i < |vs| ensures StringOf(vs[i]) == Ok(e.1[i]) { StringIs(vs[i], e.1[i]); }
    CollectIs(StringOf, vs, e.1);
  }

  /** What is gathered on top of acc. */
  lemma {:induction false} GatheredIs(acc: Strings, es: seq<(u16, seq<seq<byte>>)>)
    ensures var m := Gather(acc, es);
      && (forall l :: l in m <==> l in acc || exists i :: 0 <= i < |es| && es[i].0 == l)
      && (forall l :: l in acc ==> m[l] == acc[l])
      && forall i :: 0 <= i < |es| && es[i].0 !in acc && (forall j :: 0 <= j < i ==> es[j].0 != es[i].0) ==>
           m[es[i].0] == es[i].1
    decreases |es|
  {
    if es != [] {
      var acc1, rest := Insert(acc, es[0].0, es[0].1), es[1..];
      GatheredIs(acc1, rest);
      var m := Gather(acc, es);
      assert m == Gather(acc1, rest);
      forall l ensures l in m <==> l in acc || exists i :: 0 <= i < |es| && es[i].0 == l {
        if i :| 0 <= i < |rest| && rest[i].0 == l { assert es[i + 1].0 == l; }
        if i :| 0 <= i < |es| && es[i].0 == l { if i > 0 { assert rest[i - 1].0 == l; } }
      }
      forall i | 0 <= i < |es| && es[i].0 !in acc && (forall j :: 0 <= j < i ==> es[j].0 != es[i].0)
        ensures m[es[i].0] == es[i].1
      {
        if i > 0 {
          assert rest[i - 1] == es[i] && es[0].0 != es[i].0;
          forall j | 0 <= j < i - 1 ensures rest[j].0 != rest[i - 1].0 { assert rest[j] == es[j + 1]; }
        }
      }
    }
  }

  /** A language has a first entry. */
  lemma {:induction false} FirstEntry(es: seq<(u16, seq<seq<byte>>)>, i: nat) returns (k: nat)
    requires i < |es|
    ensures k <= i && es[k].0 == es[i].0 && forall j :: 0 <= j < k ==> es[j].0 != es[k].0
  {
    k := i;
    if j :| 0 <= j < i && es[j].0 == es[i].0 { k := FirstEntry(es, j); }
  }

  lemma GatherIsFirst(es: seq<(u16, seq<seq<byte>>)>, m: Strings)
    requires FirstOfEach(m, es)
    ensures Gather(map[], es) == m
  {
    var g := Gather(map[], es);
    GatheredIs(map[], es);
    forall l | l in g ensures l in m && m[l] == g[l] {
      var i :| 0 <= i < |es| && es[i].0 == l;
      var k := FirstEntry(es, i);
    }
    assert g.Keys == m.Keys;
  }

  lemma StringsAre(vs: seq<Value>, m: Strings)
    requires WritesStrings(vs, m)
    ensures CollectFew(LanguageStringsOf, vs).Ok? && Gather(map[], CollectFew(LanguageStringsOf, vs).value) == m
  {
    hide WritesLanguage, LanguageStringsOf, Collect, FirstOfEach, Gather;
    var es: seq<(u16, seq<seq<byte>>)> :| |es| == |vs| && FirstOfEach(m, es) && forall i :: 0 <= i < |vs| ==> WritesLanguage(vs[i], es[i]);
    forall i | 0 <= i < |vs| ensures LanguageStringsOf(vs[i]) == Ok(es[i]) { LanguageIs(vs[i], es[i]); }
    CollectIs(LanguageStringsOf, vs, es);
    GatherIsFirst(es, m);
  }

  lemma DeviceFieldsAre(o: Object, f: seq<nat>)
    requires WritesDeviceFields(o, f)
    ensures FieldsOf(DEVICE_WIDTHS, DEVICE_NAMES, o) == Ok(f)
  {
    hide Member, Pow256;
    SmallPowers();
    FieldsAre(DEVICE_WIDTHS, DEVICE_NAMES, o, f);
  }

  /** A document denotes the device that it describes. */
  lemma DescribedIsDenoted(root: Value, t: Tree)
    requires WritesDevice(root, t)
    ensures DeviceOf(root) == Ok(t)
  {
    hide WritesDeviceFields, FieldsOf, WritesConfig, ConfigOf, WritesStrings, LanguageStringsOf, WritesBytes, WritesBos,
      BosOf, Collect, Gather;
    var dev := root.members["aofDevices"].items[0].members;
    var o := dev["Device Descriptor"].members;
    DeviceFieldsAre(o, t.device);
    ConfigIs(o["aofConfigurations"].items[0], t.config);
    StringsAre(dev["aofStringDescriptors"].items, t.strings);
    BytesAre(dev["daReportDescriptor"].items, t.report);
    LengthOf(dev["daReportDescriptor"].items, t.report);
    BosIs(dev["BOS Descriptor"].members, t.bos);
  }
}
