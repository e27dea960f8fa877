/** The compiler from JSON to a stream of decimal tokens (json_impl.cpp), and its
    correctness: `tree::load` reads back the device that the document denotes. */
module JsonCompiler {
  import opened Prelude
  import opened Text
  import opened Descriptors
  import opened Tree
  import opened Json

  // ------------------------------------------------------------------ the compiler

  function Members(o: Object, keys: seq<string>): Result<seq<string>> {
    if keys == [] then Ok([])
    else
      var v :- ReadMember(o, keys[0]);
      var rest :- Members(o, keys[1..]);
      Ok([Decimal(v)] + rest)
  }

  /** `write_num` takes 32 bits. */
  function Size(n: nat): seq<string> { [Decimal(n % TWO_32)] }

  function Number(v: Value): Result<seq<string>> {
    var n :- ReadU32(v);
    Ok([Decimal(n)])
  }

  /** `for_each`, writing one after the other. */
  function Each(write: Value -> Result<seq<string>>, vs: seq<Value>): Result<seq<string>> {
    if vs == [] then Ok([])
    else
      var first :- write(vs[0]);
      var rest :- Each(write, vs[1..]);
      Ok(first + rest)
  }

  function Sized(write: Value -> Result<seq<string>>, vs: seq<Value>): Result<seq<string>> {
    var ts :- Each(write, vs);
    Ok(Size(|vs|) + ts)
  }

  function Bytes(n: nat, v: nat): seq<string> {
    if n == 0 then [] else [Decimal(v % 256)] + Bytes(n - 1, v / 256)
  }

  function CompanionTokens(c: Object): Result<seq<string>> {
    var head :- Members(c, ["bLength", "bDescriptorType", "bMaxBurst", "bmAttributes"]);
    var w :- ReadMember(c, "wBytesPerInterval");
    Ok(head + Bytes(2, w % TWO_16))
  }

  /** `build_extra`: the total, and both parts if it is not zero. */
  function ExtraTokens(o: Object): Result<seq<string>> {
    var raw :- if "daExtra" in o then AsArray(o["daExtra"]) else Ok([]);
    var total := ((if "Endpoint Companion" in o then 6 else 0) + |raw|) % TWO_32;
    if total == 0 then Ok([Decimal(0)])
    else
      var companion :- if "Endpoint Companion" in o then
                         (var c :- AsObject(o["Endpoint Companion"]); CompanionTokens(c))
                       else Ok([]);
      var extra :- Each(Number, raw);
      Ok([Decimal(total)] + companion + extra)
  }

  function EndpointTokens(v: Value): Result<seq<string>> {
    var o :- AsObject(v);
    var d :- ObjectAt(o, "Endpoint Descriptor");
    var fields :- Members(d, ["bLength", "bDescriptorType", "bEndpointAddress", "bmAttributes", "wMaxPacketSize",
                              "bInterval", "bRefresh", "bSynchAddress"]);
    var extra :- ExtraTokens(o);
    Ok(fields + extra)
  }

  function InterfaceTokens(v: Value): Result<seq<string>> {
    var o :- AsObject(v);
    var d :- ObjectAt(o, "Interface Descriptor");
    var fields :- Members(d, ["bLength", "bDescriptorType", "bInterfaceNumber", "bAlternateSetting", "bNumEndpoints",
                              "bInterfaceClass", "bInterfaceSubClass", "bInterfaceProtocol", "iInterface"]);
    var eps :- ArrayAt(d, "aofEndpoints");
    var endpoints :- Sized(EndpointTokens, eps);
    var extra :- ExtraTokens(d);
    Ok(fields + endpoints + extra)
  }

  function AltsettingTokens(v: Value): Result<seq<string>> {
    var o :- AsObject(v);
    var ifs :- ArrayAt(o, "aofInterfaces");
    Sized(InterfaceTokens, ifs)
  }

  function ConfigTokens(v: Value): Result<seq<string>> {
    var o :- AsObject(v);
    var d :- ObjectAt(o, "Configuration Descriptor");
    var fields :- Members(d, ["bLength", "bDescriptorType", "wTotalLength", "bNumInterfaces", "bConfigurationValue",
                              "iConfiguration", "bmAttributes", "MaxPower"]);
    var alts :- ArrayAt(d, "aofAltsettings");
    var interfaces :- Sized(AltsettingTokens, alts);
    var extra :- ExtraTokens(o);
    Ok(fields + interfaces + extra)
  }

  function Widened(s: seq<byte>): seq<string> {
    if s == [] then [] else [Decimal(s[0]), Decimal(0)] + Widened(s[1..])
  }

  function TextTokens(v: Value): Result<seq<string>> {
    match v
    case Arr(a) => Each(Number, a)
    case Str(s) => Ok(Widened(s))
    case _ => Err(Malformed)
  }

  /** The length is written twice: once as the size of the vector to come. */
  function StringTokens(v: Value): Result<seq<string>> {
    var o :- AsObject(v);
    var d :- ObjectAt(o, "StringDescriptor");
    var head :- Members(d, ["bLength", "bLength", "bDescriptorType"]);
    var str :- At(d, "string");
    var text :- TextTokens(str);
    Ok(head + text)
  }

  function LanguageTokens(v: Value): Result<seq<string>> {
    var o :- AsObject(v);
    var id :- At(o, "wLanguageId");
    var language :- if id.Arr? then Each(Number, id.items) else Number(id);
    var a :- ArrayAt(o, "aofStrings");
    var strings :- Sized(StringTokens, a);
    Ok(language + strings)
  }

  function CapabilityTokens(kind: nat, c: Object): Result<seq<string>> {
    if kind == 2 && "USB 2.0 Extension" in c then
      var e :- AsObject(c["USB 2.0 Extension"]);
      var attributes :- ReadMember(e, "bmAttributes");
      Ok([Decimal(4), Decimal(attributes % 256), Decimal(attributes / 0x100 % 256),
          Decimal(attributes / 0x1_0000 % 256), Decimal(attributes / 0x100_0000 % 256)])
    else if kind == 3 && "SuperSpeed USB" in c then
      var s :- AsObject(c["SuperSpeed USB"]);
      var attributes :- ReadMember(s, "bmAttributes");
      var speed :- ReadMember(s, "wSpeedSupported");
      var functionality :- ReadMember(s, "bFunctionalitySupport");
      var u1 :- ReadMember(s, "bU1DevExitLat");
      var u2 :- ReadMember(s, "bU2DevExitLat");
      Ok([Decimal(7), Decimal(attributes % 256), Decimal(speed % 256), Decimal(speed / 0x100 % 256),
          Decimal(functionality % 256), Decimal(u1 % 256), Decimal(u2 % 256), Decimal(u2 / 0x100 % 256)])
    else if "daDevCapability" in c then
      var a :- AsArray(c["daDevCapability"]);
      Sized(Number, a)
    else Ok([Decimal(0)])
  }

  function DevCapTokens(v: Value): Result<seq<string>> {
    var c :- AsObject(v);
    var head :- Members(c, ["bLength", "bDescriptorType", "bDevCapabilityType"]);
    var kind :- ReadMember(c, "bDevCapabilityType");
    var bytes :- CapabilityTokens(kind, c);
    Ok(head + bytes)
  }

  function BosTokens(o: Object): Result<seq<string>> {
    var fields :- Members(o, ["bLength", "bDescriptorType", "wTotalLength", "bNumDeviceCaps"]);
    var a :- ArrayAt(o, "aofDeviceCaps");
    var caps :- Sized(DevCapTokens, a);
    Ok(fields + caps)
  }

  /** `build_descriptor`. */
  function DeviceTokens(root: Value): Result<seq<string>> {
    var o :- AsObject(root);
    var devices :- ArrayAt(o, "aofDevices");
    if devices == [] then Err(MissingKey)
    else
      var dev :- AsObject(devices[0]);
      var d :- ObjectAt(dev, "Device Descriptor");
      var fields :- Members(d, ["bLength", "bDescriptorType", "bcdUSB", "bDeviceClass", "bDeviceSubClass",
                                "bDeviceProtocol", "bMaxPacketSize0", "idVendor", "idProduct", "bcdDevice",
                                "iManufacturer", "iProduct", "iSerial", "bNumConfigurations"]);
      var configArray :- ArrayAt(d, "aofConfigurations");
      var configs :- Each(ConfigTokens, configArray);
      var langs :- ArrayAt(dev, "aofStringDescriptors");
      var strings :- Sized(LanguageTokens, langs);
      var reportArray :- ArrayAt(dev, "daReportDescriptor");
      var report :- Sized(Number, reportArray);
      var bosObject :- ObjectAt(dev, "BOS Descriptor");
      var bos :- BosTokens(bosObject);
      Ok(fields + (configs + (strings + (report + bos))))
  }

  // ------------------------------------------------ fields and bytes, as printed

  lemma {:induction false} FieldsArePrinted(ws: seq<nat>, names: seq<string>, o: Object)
    requires |ws| == |names|
    ensures FieldsOf(ws, names, o).Ok? ==> Members(o, names) == Ok(OutNumbers(FieldsOf(ws, names, o).value))
  {
    hide Decimal, ReadMember;
    if ws != [] { FieldsArePrinted(ws[1..], names[1..], o); }
  }

  lemma {:induction false} BytesArePrinted(vs: seq<Value>)
    ensures Collect(ByteOf, vs).Ok? ==> Each(Number, vs) == Ok(OutNumbers(Collect(ByteOf, vs).value))
  {
    hide Decimal, ReadU32;
    if vs != [] { BytesArePrinted(vs[1..]); }
  }

  lemma {:induction false} OutNumbersAppend(a: seq<nat>, b: seq<nat>)
    ensures OutNumbers(a + b) == OutNumbers(a) + OutNumbers(b)
  {
    if a == [] {
      assert a + b == b;
    } else {
      assert (a + b)[0] == a[0] && (a + b)[1..] == a[1..] + b;
      OutNumbersAppend(a[1..], b);
    }
  }

  lemma {:induction false} BytesAre(n: nat, v: nat)
    ensures Bytes(n, v) == OutNumbers(LittleEndian(n, v))
  {
    hide Decimal;
    if n > 0 { BytesAre(n - 1, v / 256); }
  }

  lemma CompanionIsPrinted(c: Object)
    ensures CompanionOf(c).Ok? ==> CompanionTokens(c) == Ok(OutNumbers(CompanionOf(c).value))
  {
    hide Decimal, ReadMember, LittleEndian, OutNumbers;
    var names := ["bLength", "bDescriptorType", "bMaxBurst", "bmAttributes", "wBytesPerInterval"];
    var fs := FieldsOf([1, 1, 1, 1, 2], names, c);
    if fs.Ok? {
      CompanionFields(c);
      var head, w := fs.value[..4], fs.value[4];
      SmallPowers();
      assert head == [fs.value[0] % 256, fs.value[1] % 256, fs.value[2] % 256, fs.value[3] % 256];
      BytesAre(2, w);
      OutNumbersAppend(head, LittleEndian(2, w));
    }
  }

  lemma CompanionFields(c: Object)
    requires FieldsOf([1, 1, 1, 1, 2], ["bLength", "bDescriptorType", "bMaxBurst", "bmAttributes", "wBytesPerInterval"], c).Ok?
    ensures var fs := FieldsOf([1, 1, 1, 1, 2], ["bLength", "bDescriptorType", "bMaxBurst", "bmAttributes", "wBytesPerInterval"], c).value;
      && Members(c, ["bLength", "bDescriptorType", "bMaxBurst", "bmAttributes"]) == Ok(OutNumbers(fs[..4]))
      && ReadMember(c, "wBytesPerInterval") == Ok(fs[4])
  {
    hide Decimal, ReadMember, OutNumbers;
    var four := ["bLength", "bDescriptorType", "bMaxBurst", "bmAttributes"];
    assert four + ["wBytesPerInterval"] == ["bLength", "bDescriptorType", "bMaxBurst", "bmAttributes", "wBytesPerInterval"];
    assert [1, 1, 1, 1] + [2] == [1, 1, 1, 1, 2];
    FieldsAppend([1, 1, 1, 1], four, [2], ["wBytesPerInterval"], c);
    FieldsArePrinted([1, 1, 1, 1], four, c);
    FieldAt([1, 1, 1, 1, 2], four + ["wBytesPerInterval"], c, 4);
  }

  lemma {:induction false} FieldsAppend(ws: seq<nat>, names: seq<string>, vs: seq<nat>, more: seq<string>, o: Object)
    requires |ws| == |names| && |vs| == |more|
    requires FieldsOf(ws + vs, names + more, o).Ok?
    ensures FieldsOf(ws, names, o).Ok? && FieldsOf(vs, more, o).Ok?
    ensures FieldsOf(ws + vs, names + more, o).value == FieldsOf(ws, names, o).value + FieldsOf(vs, more, o).value
  {
    hide ReadMember, Fit, InRange, Pow256;
    if ws == [] {
      assert ws + vs == vs && names + more == more;
    } else {
      assert (ws + vs)[1..] == ws[1..] + vs && (names + more)[1..] == names[1..] + more;
      assert (ws + vs)[0] == ws[0] && (names + more)[0] == names[0];
      FieldsAppend(ws[1..], names[1..], vs, more, o);
    }
  }

  /** The count in front of extra bytes is the count of the bytes that follow. */
  lemma ExtraIsPrinted(o: Object)
    ensures ExtraOf(o).Ok? ==> ExtraTokens(o) == Ok(OutList(ExtraOf(o).value))
  {
    hide Decimal, CompanionOf, CompanionTokens, Each, Collect, OutNumbers, ReadU32;
    if ExtraOf(o).Ok? {
      var has := "Endpoint Companion" in o;
      var companion: seq<byte> := [];
      if has {
        CompanionIsPrinted(o["Endpoint Companion"].members);
        companion := CompanionOf(o["Endpoint Companion"].members).value;
      }
      var vs := if "daExtra" in o then o["daExtra"].items else [];
      BytesArePrinted(vs);
      NoneOf();
      var raw := Collect(ByteOf, vs).value;
      assert ExtraOf(o).value == companion + raw;
      OutNumbersAppend(companion, raw);
      assert |companion| == (if has then 6 else 0) && |raw| == |vs|;
      if |companion + raw| == 0 {
        assert companion + raw == [];
      } else {
        assert [Decimal(|companion + raw|)] + OutNumbers(companion) + OutNumbers(raw) == OutList(companion + raw);
      }
    }
  }

  lemma NoneOf()
    ensures Collect(ByteOf, []) == Ok([]) && Each(Number, []) == Ok([])
    ensures OutNumbers([]) == [] && OutList([]) == [Decimal(0)]
  {
  }

  // ---------------------------------------------------------- lists, as printed

  lemma {:induction false} DescsArePrinted(f: Value -> Result<Desc>, g: Value -> Result<seq<string>>, vs: seq<Value>)
    requires forall i :: 0 <= i < |vs| && f(vs[i]).Ok? ==> g(vs[i]) == Ok(Out(f(vs[i]).value))
    ensures Collect(f, vs).Ok? ==> Each(g, vs) == Ok(OutAll(Collect(f, vs).value))
  {
    hide Out;
    if vs != [] {
      assert forall i :: 0 <= i < |vs[1..]| ==> vs[1..][i] == vs[i + 1];
      DescsArePrinted(f, g, vs[1..]);
    }
  }

  lemma SizedDescsArePrinted(f: Value -> Result<Desc>, g: Value -> Result<seq<string>>, vs: seq<Value>)
    requires forall i :: 0 <= i < |vs| && f(vs[i]).Ok? ==> g(vs[i]) == Ok(Out(f(vs[i]).value))
    ensures CollectFew(f, vs).Ok? ==>
      Sized(g, vs) == Ok([Decimal(|CollectFew(f, vs).value|)] + OutAll(CollectFew(f, vs).value))
  {
    hide Out, Collect, Each;
    DescsArePrinted(f, g, vs);
  }

  lemma EndpointIsPrinted(v: Value)
    ensures EndpointOf(v).Ok? ==> EndpointTokens(v) == Ok(Out(EndpointOf(v).value))
  {
    hide Members, FieldsOf, OutNumbers, OutList, ExtraOf, ExtraTokens;
    if EndpointOf(v).Ok? {
      FieldsArePrinted(Widths(Endpoint), Names(Endpoint), ObjectAt(v.members, "Endpoint Descriptor").value);
      ExtraIsPrinted(v.members);
      var d := EndpointOf(v).value;
      assert OutNumbers(d.fields) + [] + OutList(d.extra) == OutNumbers(d.fields) + OutList(d.extra);
    }
  }

  lemma InterfaceIsPrinted(v: Value)
    ensures InterfaceOf(v).Ok? ==> InterfaceTokens(v) == Ok(Out(InterfaceOf(v).value))
  {
    hide Members, FieldsOf, OutNumbers, OutList, ExtraOf, ExtraTokens, Sized, CollectFew, EndpointOf, EndpointTokens, Decimal;
    if InterfaceOf(v).Ok? {
      var o := ObjectAt(v.members, "Interface Descriptor").value;
      FieldsArePrinted(Widths(Interface), Names(Interface), o);
      var eps := ArrayAt(o, "aofEndpoints").value;
      forall i | 0 <= i < |eps| && EndpointOf(eps[i]).Ok?
        ensures EndpointTokens(eps[i]) == Ok(Out(EndpointOf(eps[i]).value))
      {
        EndpointIsPrinted(eps[i]);
      }
      SizedDescsArePrinted(EndpointOf, EndpointTokens, eps);
      ExtraIsPrinted(o);
    }
  }

  lemma AltsettingIsPrinted(v: Value)
    ensures UsbInterfaceOf(v).Ok? ==> AltsettingTokens(v) == Ok(Out(UsbInterfaceOf(v).value))
  {
    hide Sized, CollectFew, InterfaceOf, InterfaceTokens, Decimal;
    if UsbInterfaceOf(v).Ok? {
      var ifs := ArrayAt(v.members, "aofInterfaces").value;
      forall i | 0 <= i < |ifs| && InterfaceOf(ifs[i]).Ok?
        ensures InterfaceTokens(ifs[i]) == Ok(Out(InterfaceOf(ifs[i]).value))
      {
        InterfaceIsPrinted(ifs[i]);
      }
      SizedDescsArePrinted(InterfaceOf, InterfaceTokens, ifs);
      var ts := Sized(InterfaceTokens, ifs).value;
      assert [] + ts + [] == ts;
    }
  }

  lemma ConfigIsPrinted(v: Value)
    ensures ConfigOf(v).Ok? ==> ConfigTokens(v) == Ok(Out(ConfigOf(v).value))
  {
    hide Members, FieldsOf, OutNumbers, OutList, ExtraOf, ExtraTokens, Sized, CollectFew, UsbInterfaceOf, AltsettingTokens, Decimal;
    if ConfigOf(v).Ok? {
      var o := ObjectAt(v.members, "Configuration Descriptor").value;
      FieldsArePrinted(Widths(Config), Names(Config), o);
      var alts := ArrayAt(o, "aofAltsettings").value;
      forall i | 0 <= i < |alts| && UsbInterfaceOf(alts[i]).Ok?
        ensures AltsettingTokens(alts[i]) == Ok(Out(UsbInterfaceOf(alts[i]).value))
      {
        AltsettingIsPrinted(alts[i]);
      }
      SizedDescsArePrinted(UsbInterfaceOf, AltsettingTokens, alts);
      ExtraIsPrinted(v.members);
    }
  }

  // ---------------------------------------------------------------------- the BOS

  lemma FourBytes(v: u32)
    ensures OutList(LittleEndian(4, v)) == [Decimal(4), Decimal(v % 256), Decimal(v / 0x100 % 256),
      Decimal(v / 0x1_0000 % 256), Decimal(v / 0x100_0000 % 256)]
  {
    hide Decimal;
    assert v / 256 / 256 == v / 0x1_0000 && v / 0x1_0000 / 256 == v / 0x100_0000;
    assert Bytes(0, v / 256 / 256 / 256 / 256) == [];
    assert Bytes(1, v / 0x100_0000) == [Decimal(v / 0x100_0000 % 256)];
    assert Bytes(2, v / 0x1_0000) == [Decimal(v / 0x1_0000 % 256)] + Bytes(1, v / 0x100_0000);
    assert Bytes(3, v / 0x100) == [Decimal(v / 0x100 % 256)] + Bytes(2, v / 0x1_0000);
    BytesAre(4, v);
  }

  lemma SevenBytes(f: seq<nat>)
    requires InRange([1, 2, 1, 1, 2], f)
    ensures OutList(LittleEndian(1, f[0]) + LittleEndian(2, f[1]) + LittleEndian(1, f[2]) + LittleEndian(1, f[3]) + LittleEndian(2, f[4]))
         == [Decimal(7), Decimal(f[0] % 256), Decimal(f[1] % 256), Decimal(f[1] / 0x100 % 256),
             Decimal(f[2] % 256), Decimal(f[3] % 256), Decimal(f[4] % 256), Decimal(f[4] / 0x100 % 256)]
  {
    hide Decimal;
    OneByte(f[0]); TwoBytes(f[1]); OneByte(f[2]); OneByte(f[3]); TwoBytes(f[4]);
    hide OutNumbers, LittleEndian;
    var a: seq<byte> := [f[0] % 256, f[1] % 256];
    var b: seq<byte> := [f[1] / 0x100 % 256, f[2] % 256];
    var c: seq<byte> := [f[3] % 256, f[4] % 256];
    var d: seq<byte> := [f[4] / 0x100 % 256];
    assert LittleEndian(1, f[0]) + LittleEndian(2, f[1]) + LittleEndian(1, f[2]) + LittleEndian(1, f[3]) + LittleEndian(2, f[4])
        == a + (b + (c + d));
    OutNumbersAppend(a, b + (c + d));
    OutNumbersAppend(b, c + d);
    OutNumbersAppend(c, d);
    TwoNumbers(a[0], a[1]); TwoNumbers(b[0], b[1]); TwoNumbers(c[0], c[1]); OneNumberOut(d[0]);
  }

  lemma OneNumberOut(a: nat)
    ensures OutNumbers([a]) == [Decimal(a)]
  {
    hide Decimal;
  }

  lemma TwoNumbers(a: nat, b: nat)
    ensures OutNumbers([a, b]) == [Decimal(a), Decimal(b)]
  {
    hide Decimal;
    OneNumberOut(b);
    assert [a, b][1..] == [b];
  }

  lemma OneByte(v: nat)
    ensures LittleEndian(1, v) == [v % 256]
  {
  }

  lemma TwoBytes(v: nat)
    ensures LittleEndian(2, v) == [v % 256, v / 0x100 % 256]
  {
    OneByte(v / 256);
  }

  lemma CapabilityIsPrinted(kind: nat, c: Object)
    ensures CapabilityOf(kind, c).Ok? ==> CapabilityTokens(kind, c) == Ok(OutList(CapabilityOf(kind, c).value))
  {
    hide Decimal, ReadMember, LittleEndian, Each, Collect;
    if CapabilityOf(kind, c).Ok? {
      if kind == 2 && "USB 2.0 Extension" in c {
        FourBytes(ReadMember(c["USB 2.0 Extension"].members, "bmAttributes").value);
      } else if kind == 3 && "SuperSpeed USB" in c {
        var s := c["SuperSpeed USB"].members;
        SuperSpeedFields(s);
        SevenBytes(FieldsOf([1, 2, 1, 1, 2], SUPER_SPEED, s).value);
      } else if "daDevCapability" in c {
        ReportCompiles(c["daDevCapability"].items);
      } else {
        assert OutList([]) == [Decimal(0)];
      }
    }
  }

  const SUPER_SPEED: seq<string> := ["bmAttributes", "wSpeedSupported", "bFunctionalitySupport", "bU1DevExitLat", "bU2DevExitLat"]

  lemma SuperSpeedFields(s: Object)
    requires FieldsOf([1, 2, 1, 1, 2], SUPER_SPEED, s).Ok?
    ensures var f := FieldsOf([1, 2, 1, 1, 2], SUPER_SPEED, s).value;
      && ReadMember(s, "bmAttributes") == Ok(f[0]) && ReadMember(s, "wSpeedSupported") == Ok(f[1])
      && ReadMember(s, "bFunctionalitySupport") == Ok(f[2]) && ReadMember(s, "bU1DevExitLat") == Ok(f[3])
      && ReadMember(s, "bU2DevExitLat") == Ok(f[4])
  {
    FieldAt([1, 2, 1, 1, 2], SUPER_SPEED, s, 0);
    FieldAt([1, 2, 1, 1, 2], SUPER_SPEED, s, 1);
    FieldAt([1, 2, 1, 1, 2], SUPER_SPEED, s, 2);
    FieldAt([1, 2, 1, 1, 2], SUPER_SPEED, s, 3);
    FieldAt([1, 2, 1, 1, 2], SUPER_SPEED, s, 4);
  }

  lemma {:induction false} FieldAt(ws: seq<nat>, names: seq<string>, o: Object, i: nat)
    requires |ws| == |names| && i < |ws| && FieldsOf(ws, names, o).Ok?
    ensures ReadMember(o, names[i]) == Ok(FieldsOf(ws, names, o).value[i])
  {
    hide ReadMember;
    if i > 0 { FieldAt(ws[1..], names[1..], o, i - 1); }
  }

  lemma DevCapIsPrinted(v: Value)
    ensures DevCapOf(v).Ok? ==> DevCapTokens(v) == Ok(Out(DevCapOf(v).value))
  {
    hide Members, FieldsOf, OutNumbers, OutList, CapabilityOf, CapabilityTokens, ReadMember;
    if DevCapOf(v).Ok? {
      FieldsArePrinted(Widths(DevCap), Names(DevCap), v.members);
      FieldAt(Widths(DevCap), Names(DevCap), v.members, 2);
      var d := DevCapOf(v).value;
      CapabilityIsPrinted(d.fields[2], v.members);
      assert OutNumbers(d.fields) + OutList(d.bytes) + [] == OutNumbers(d.fields) + OutList(d.bytes);
    }
  }

  lemma BosIsPrinted(o: Object)
    ensures BosOf(o).Ok? ==> BosTokens(o) == Ok(Out(BosOf(o).value))
  {
    hide Members, FieldsOf, OutNumbers, Sized, CollectFew, DevCapOf, DevCapTokens, Decimal;
    if BosOf(o).Ok? {
      FieldsArePrinted(Widths(Bos), Names(Bos), o);
      var caps := ArrayAt(o, "aofDeviceCaps").value;
      forall i | 0 <= i < |caps| && DevCapOf(caps[i]).Ok?
        ensures DevCapTokens(caps[i]) == Ok(Out(DevCapOf(caps[i]).value))
      {
        DevCapIsPrinted(caps[i]);
      }
      SizedDescsArePrinted(DevCapOf, DevCapTokens, caps);
      var d := BosOf(o).value;
      assert OutNumbers(d.fields) + Sized(DevCapTokens, caps).value + [] == OutNumbers(d.fields) + Sized(DevCapTokens, caps).value;
    }
  }

  // ------------------------------------------------------------------- the strings

  lemma {:induction false} WidenedIs(s: seq<byte>)
    ensures Widened(s) == OutNumbers(Widen(s))
  {
    hide Decimal;
    if s != [] {
      WidenedIs(s[1..]);
      OutNumbersAppend([s[0], 0], Widen(s[1..]));
    }
  }

  lemma TextIsPrinted(v: Value)
    ensures TextOf(v).Ok? ==> TextTokens(v) == Ok(OutNumbers(TextOf(v).value))
  {
    hide Each, Collect, Widen, Widened, OutNumbers;
    match v
    case Arr(a) => BytesArePrinted(a);
    case Str(s) => WidenedIs(s);
    case _ =>
  }

  lemma StringIsPrinted(v: Value)
    ensures StringOf(v).Ok? ==> StringTokens(v) == Ok(OutList(StringOf(v).value))
  {
    hide Decimal, TextOf, TextTokens, ReadMember;
    if StringOf(v).Ok? {
      var d := ObjectAt(v.members, "StringDescriptor").value;
      var fs := FieldsOf([1, 1], ["bLength", "bDescriptorType"], d).value;
      var text := TextOf(d["string"]).value;
      FieldAt([1, 1], ["bLength", "bDescriptorType"], d, 0);
      FieldAt([1, 1], ["bLength", "bDescriptorType"], d, 1);
      HeadTokens(d, fs[0], fs[1]);
      TextIsPrinted(d["string"]);
      SmallPowers();
      assert StringOf(v).value == [fs[0], fs[1]] + text;
      OutNumbersAppend([fs[0], fs[1]], text);
      TwoNumbers(fs[0], fs[1]);
      assert [Decimal(fs[0]), Decimal(fs[0]), Decimal(fs[1])] + OutNumbers(text) == OutList(StringOf(v).value);
    }
  }

  lemma HeadTokens(d: Object, length: nat, kind: nat)
    requires ReadMember(d, "bLength") == Ok(length) && ReadMember(d, "bDescriptorType") == Ok(kind)
    ensures Members(d, ["bLength", "bLength", "bDescriptorType"]) == Ok([Decimal(length), Decimal(length), Decimal(kind)])
  {
    hide Decimal, ReadMember;
    var one, two: seq<string> := ["bDescriptorType"], ["bLength", "bDescriptorType"];
    assert one[1..] == [] && two[1..] == one && ["bLength", "bLength", "bDescriptorType"][1..] == two;
    assert [Decimal(kind)] + [] == [Decimal(kind)];
    assert [Decimal(length)] + [Decimal(kind)] == [Decimal(length), Decimal(kind)];
    assert Members(d, one) == Ok([Decimal(kind)]);
    assert Members(d, two) == Ok([Decimal(length), Decimal(kind)]);
    assert [Decimal(length)] + [Decimal(length), Decimal(kind)] == [Decimal(length), Decimal(length), Decimal(kind)];
  }

  lemma {:induction false} InBytesTakes(n: nat, ts: seq<string>)
    ensures InBytes(n, ts).Ok? ==> n <= |ts| && InBytes(n, ts).value.1 == ts[n..]
  {
    hide FieldOf;
    if n > 0 && ts != [] { InBytesTakes(n - 1, ts[1..]); }
  }

  /** The length of a string descriptor is believed: what follows it is read from the
      right place if and only if that length is two more than the text. */
  lemma StringIsFramedIff(length: byte, kind: byte, text: seq<byte>, rest: seq<string>)
    ensures var ts := [Decimal(length), Decimal(length), Decimal(kind)] + OutNumbers(text) + rest;
      (exists v :: InList(ts) == Ok((v, rest))) <==> length == 2 + |text|
  {
    hide Decimal, InBytes, OutNumbers, InSize;
    var bs := [length, kind] + text;
    var tail := OutNumbers(bs) + rest;
    OutNumbersAppend([length, kind], text);
    TwoNumbers(length, kind);
    var ts := [Decimal(length), Decimal(length), Decimal(kind)] + OutNumbers(text) + rest;
    assert ts == [Decimal(length)] + tail;
    InSizeDecimal(length, tail);
    NumbersCount(bs);
    InBytesTakes(length, tail);
    if length == 2 + |text| {
      InOutBytes(bs, rest);
      assert InList(ts) == Ok((bs, rest));
    }
  }

  lemma {:induction false} NumbersCount(ns: seq<nat>)
    ensures |OutNumbers(ns)| == |ns|
  {
    if ns != [] { NumbersCount(ns[1..]); }
  }

  lemma {:induction false} StringsArePrinted(vs: seq<Value>)
    ensures Collect(StringOf, vs).Ok? ==> Each(StringTokens, vs) == Ok(OutLists(Collect(StringOf, vs).value))
  {
    hide StringOf, StringTokens, OutList;
    if vs != [] {
      StringIsPrinted(vs[0]);
      StringsArePrinted(vs[1..]);
    }
  }

  function LanguageOut(e: (u16, seq<seq<byte>>)): seq<string> { [Decimal(e.0)] + OutVectors(e.1) }

  function LanguagesOut(es: seq<(u16, seq<seq<byte>>)>): seq<string> {
    if es == [] then [] else LanguageOut(es[0]) + LanguagesOut(es[1..])
  }

  lemma LanguageIsPrinted(v: Value)
    ensures LanguageStringsOf(v).Ok? ==> LanguageTokens(v) == Ok(LanguageOut(LanguageStringsOf(v).value))
  {
    hide Decimal, StringOf, StringTokens, Collect, OutLists, ReadU32;
    if LanguageStringsOf(v).Ok? {
      StringsArePrinted(ArrayAt(v.members, "aofStrings").value);
      if v.members["wLanguageId"].Arr? { OneNumber(v.members["wLanguageId"]); }
    }
  }

  lemma OneNumber(id: Value)
    requires LanguageOf(id).Ok? && id.Arr?
    ensures Each(Number, id.items) == Ok([Decimal(LanguageOf(id).value)])
  {
    hide Decimal, ReadU32;
    assert id.items[1..] == [] && Each(Number, []) == Ok([]);
    assert [Decimal(LanguageOf(id).value)] + [] == [Decimal(LanguageOf(id).value)];
  }

  lemma {:induction false} LanguagesArePrinted(vs: seq<Value>)
    ensures Collect(LanguageStringsOf, vs).Ok? ==>
      Each(LanguageTokens, vs) == Ok(LanguagesOut(Collect(LanguageStringsOf, vs).value))
  {
    hide LanguageStringsOf, LanguageTokens, LanguageOut;
    if vs != [] {
      LanguageIsPrinted(vs[0]);
      LanguagesArePrinted(vs[1..]);
    }
  }

  lemma {:induction false} ReadLanguages(es: seq<(u16, seq<seq<byte>>)>, acc: Strings, rest: seq<string>)
    requires forall i :: 0 <= i < |es| ==> ValidVectors(es[i].1)
    ensures InLanguages(|es|, acc, LanguagesOut(es) + rest) == Ok((Gather(acc, es), rest))
    decreases |es|
  {
    hide InVectors, OutVectors, InField, Decimal, ValidVectors, Insert;
    if es == [] {
      assert LanguagesOut(es) + rest == rest;
    } else {
      var (l, vs) := es[0];
      var tail := LanguagesOut(es[1..]) + rest;
      assert LanguagesOut(es) + rest == [Decimal(l)] + (OutVectors(vs) + tail);
      SmallPowers();
      InFieldDecimal(2, l, OutVectors(vs) + tail);
      InOutVectors(vs, tail);
      ReadLanguages(es[1..], Insert(acc, l, vs), rest);
    }
  }

  /** The languages, in any order the document has them. */
  lemma StringsCompile(langs: seq<Value>, rest: seq<string>)
    requires CollectFew(LanguageStringsOf, langs).Ok?
    ensures Sized(LanguageTokens, langs).Ok?
    ensures InStrings(Sized(LanguageTokens, langs).value + rest)
         == Ok((Gather(map[], CollectFew(LanguageStringsOf, langs).value), rest))
  {
    hide Decimal, LanguageStringsOf, LanguageTokens, Collect, Each, InLanguages, LanguagesOut, Gather, InSize, ValidVectors;
    var es := CollectFew(LanguageStringsOf, langs).value;
    LanguagesArePrinted(langs);
    var tail := LanguagesOut(es) + rest;
    assert Sized(LanguageTokens, langs).value + rest == [Decimal(|es|)] + tail;
    InSizeDecimal(|es|, tail);
    forall i | 0 <= i < |es| ensures ValidVectors(es[i].1) {
      assert LanguageStringsOf(langs[i]) == Ok(es[i]);
      LanguageStringsFit(langs[i]);
    }
    ReadLanguages(es, map[], rest);
  }

  // -------------------------------------------------------------------- the device

  lemma ReportCompiles(vs: seq<Value>)
    ensures CollectFew(ByteOf, vs).Ok? ==> Sized(Number, vs) == Ok(OutList(CollectFew(ByteOf, vs).value))
  {
    hide Decimal, Each, Collect, OutNumbers;
    BytesArePrinted(vs);
  }

  lemma OneConfig(configs: seq<Value>)
    requires |configs| == 1 && ConfigOf(configs[0]).Ok?
    ensures Each(ConfigTokens, configs) == Ok(Out(ConfigOf(configs[0]).value))
  {
    hide ConfigOf, ConfigTokens, Out;
    ConfigIsPrinted(configs[0]);
    var ts := Out(ConfigOf(configs[0]).value);
    assert Each(ConfigTokens, configs[1..]) == Ok([]) && ts + [] == ts;
  }

  /** The compiler is correct: the tokens it writes for a document are read exactly, and
      what is read is the device that the document denotes. */
  lemma CompiledIsDenoted(root: Value, rest: seq<string>)
    requires DeviceOf(root).Ok?
    ensures DeviceTokens(root).Ok?
    ensures InTree(DeviceTokens(root).value + rest) == Ok((DeviceOf(root).value, rest))
  {
    hide Members, FieldsOf, OutNumbers, ConfigOf, ConfigTokens, Each, Sized, CollectFew, Number, LanguageTokens,
      LanguageStringsOf, ByteOf, BosOf, BosTokens, Gather, InFields, In, Out, InStrings, InList, OutList, WellFormed;
    var dev := AsObject(ArrayAt(root.members, "aofDevices").value[0]).value;
    var d := ObjectAt(dev, "Device Descriptor").value;
    var configs := ArrayAt(d, "aofConfigurations").value;
    var langs := ArrayAt(dev, "aofStringDescriptors").value;
    var reportArray := ArrayAt(dev, "daReportDescriptor").value;
    var bosObject := ObjectAt(dev, "BOS Descriptor").value;
    var t := DeviceOf(root).value;
    FieldsArePrinted(DEVICE_WIDTHS, DEVICE_NAMES, d);
    OneConfig(configs);
    ReportCompiles(reportArray);
    BosIsPrinted(bosObject);
    DeviceFits(root);
    var ts4 := Out(t.bos) + rest;
    var ts3 := OutList(t.report) + ts4;
    StringsCompile(langs, ts3);
    var ts2 := Sized(LanguageTokens, langs).value + ts3;
    var ts1 := Out(t.config) + ts2;
    assert DeviceTokens(root).value + rest == OutNumbers(t.device) + ts1;
    InOutFields(DEVICE_WIDTHS, t.device, ts1);
    InOut(t.config, ts2);
    InOutList(t.report, ts4);
    InOut(t.bos, rest);
  }
}
