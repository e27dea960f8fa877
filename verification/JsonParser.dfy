/** The class `parser` (json_impl.cpp): the loops that write the tokens to a stream, and
    what `tree::load` makes of a JSON file. */
module JsonParser {
  import opened Prelude
  import opened Text
  import opened Descriptors
  import opened Tree
  import opened Json
  import opened JsonCompiler
  import JsonDocument

  type Status = Result<()>

  /** Tokens written before the rest of a loop. */
  ghost function Before(done: seq<string>, rest: Result<seq<string>>): Result<seq<string>> {
    match rest
    case Ok(ts) => Ok(done + ts)
    case Err(e) => Err(e)
  }

  lemma EachStarts(write: Value -> Result<seq<string>>, vs: seq<Value>)
    ensures Each(write, vs) == Before([], Each(write, vs[0..]))
  {
    hide Each;
    assert vs[0..] == vs;
    if Each(write, vs).Ok? { assert [] + Each(write, vs).value == Each(write, vs).value; }
  }

  lemma EachGoesOn(write: Value -> Result<seq<string>>, vs: seq<Value>, i: nat, done: seq<string>)
    requires i < |vs|
    ensures match write(vs[i])
            case Ok(ts) => Before(done, Each(write, vs[i..])) == Before(done + ts, Each(write, vs[i + 1..]))
            case Err(e) => Before(done, Each(write, vs[i..])) == Err(e)
  {
    assert vs[i..][1..] == vs[i + 1..];
    if write(vs[i]).Ok? && Each(write, vs[i + 1..]).Ok? {
      assert done + (write(vs[i]).value + Each(write, vs[i + 1..]).value)
          == done + write(vs[i]).value + Each(write, vs[i + 1..]).value;
    }
  }

  lemma EachEnds(write: Value -> Result<seq<string>>, vs: seq<Value>, done: seq<string>)
    ensures Before(done, Each(write, vs[|vs|..])) == Ok(done)
  {
    assert vs[|vs|..] == [] && done + [] == done;
  }

  lemma MembersStart(o: Object, keys: seq<string>)
    ensures Members(o, keys) == Before([], Members(o, keys[0..]))
  {
    hide Members;
    assert keys[0..] == keys;
    if Members(o, keys).Ok? { assert [] + Members(o, keys).value == Members(o, keys).value; }
  }

  lemma MembersGoOn(o: Object, keys: seq<string>, i: nat, done: seq<string>)
    requires i < |keys|
    ensures match ReadMember(o, keys[i])
            case Ok(v) => Before(done, Members(o, keys[i..])) == Before(done + [Decimal(v)], Members(o, keys[i + 1..]))
            case Err(e) => Before(done, Members(o, keys[i..])) == Err(e)
  {
    hide Decimal, ReadMember;
    assert keys[i..][1..] == keys[i + 1..];
    if ReadMember(o, keys[i]).Ok? && Members(o, keys[i + 1..]).Ok? {
      var ts := [Decimal(ReadMember(o, keys[i]).value)];
      assert done + (ts + Members(o, keys[i + 1..]).value) == done + ts + Members(o, keys[i + 1..]).value;
    }
  }

  class Parser {
    var out: string
    ghost var written: seq<string>

    ghost predicate Valid()
      reads this
    {
      out == Render(written) && AllWords(written)
    }

    /** What a `build_` function has done: written these tokens, or thrown. */
    ghost predicate Did(before: seq<string>, ts: Result<seq<string>>, r: Status)
      reads this
    {
      && Valid()
      && match ts
         case Ok(tokens) => r == Ok(()) && written == before + tokens
         case Err(e) => r == Err(e)
    }

    constructor ()
      ensures Valid() && written == []
    {
      out, written := "", [];
    }

    method WriteNum(v: u32)
      requires Valid()
      modifies this
      ensures Valid() && written == old(written) + [Decimal(v)]
    {
      hide Decimal, IsWord;
      RenderAppend(written, [Decimal(v)]);
      DecimalIsWord(v);
      assert Render([Decimal(v)]) == Decimal(v) + " " + Render([]);
      assert Render(written) + (Decimal(v) + " " + "") == Render(written) + Decimal(v) + " ";
      out := out + Decimal(v) + " ";
      written := written + [Decimal(v)];
    }

    method WriteSize(n: nat)
      requires Valid()
      modifies this
      ensures Valid() && written == old(written) + Size(n)
    {
      WriteNum(n % TWO_32);
    }

    method WriteMembers(o: Object, keys: seq<string>) returns (r: Status)
      requires Valid()
      modifies this
      ensures Did(old(written), Members(o, keys), r)
    {
      hide Members, ReadMember, Decimal, Valid;
      ghost var done: seq<string> := [];
      MembersStart(o, keys);
      for i := 0 to |keys|
        invariant Valid() && written == old(written) + done
        invariant Members(o, keys) == Before(done, Members(o, keys[i..]))
      {
        MembersGoOn(o, keys, i, done);
        var v :- ReadMember(o, keys[i]);
        WriteNum(v);
        done := done + [Decimal(v)];
      }
      NoMembers(o, keys, done);
      r := Ok(());
    }

    lemma NoMembers(o: Object, keys: seq<string>, done: seq<string>)
      ensures Before(done, Members(o, keys[|keys|..])) == Ok(done)
    {
      assert keys[|keys|..] == [] && done + [] == done;
    }

    method WriteDa(vs: seq<Value>) returns (r: Status)
      requires Valid()
      modifies this
      ensures Did(old(written), Each(Number, vs), r)
    {
      hide Each, ReadU32, Decimal, Valid;
      ghost var done: seq<string> := [];
      EachStarts(Number, vs);
      for i := 0 to |vs|
        invariant Valid() && written == old(written) + done
        invariant Each(Number, vs) == Before(done, Each(Number, vs[i..]))
      {
        EachGoesOn(Number, vs, i, done);
        var v :- ReadU32(vs[i]);
        WriteNum(v);
        done := done + [Decimal(v)];
      }
      EachEnds(Number, vs, done);
      r := Ok(());
    }

    method WriteSizedDa(vs: seq<Value>) returns (r: Status)
      requires Valid()
      modifies this
      ensures Did(old(written), Sized(Number, vs), r)
    {
      hide Each, Size, Number, Valid;
      WriteSize(|vs|);
      r := WriteDa(vs);
    }

    method BuildExtra(o: Object) returns (r: Status)
      requires Valid()
      modifies this
      ensures Did(old(written), ExtraTokens(o), r)
    {
      hide Each, Number, Decimal, Valid, Members, ReadMember;
      var raw: seq<Value> := [];
      if "daExtra" in o { raw :- AsArray(o["daExtra"]); }
      var total := ((if "Endpoint Companion" in o then 6 else 0) + |raw|) % TWO_32;
      if total == 0 {
        WriteNum(0);
        return Ok(());
      }
      WriteNum(total);
      if "Endpoint Companion" in o {
        var c :- AsObject(o["Endpoint Companion"]);
        var _ :- BuildCompanion(c);
      }
      r := WriteDa(raw);
    }

    method BuildCompanion(c: Object) returns (r: Status)
      requires Valid()
      modifies this
      ensures Did(old(written), CompanionTokens(c), r)
    {
      hide Decimal, Valid, Members, ReadMember;
      var _ :- WriteMembers(c, ["bLength", "bDescriptorType", "bMaxBurst", "bmAttributes"]);
      var w :- ReadMember(c, "wBytesPerInterval");
      WriteNum(w % TWO_16 % 256);
      WriteNum(w % TWO_16 / 256 % 256);
      assert Bytes(2, w % TWO_16) == [Decimal(w % TWO_16 % 256)] + ([Decimal(w % TWO_16 / 256 % 256)] + Bytes(0, w % TWO_16 / 256 / 256));
      r := Ok(());
    }

    method BuildEndpoint(v: Value) returns (r: Status)
      requires Valid()
      modifies this
      ensures Did(old(written), EndpointTokens(v), r)
    {
      hide Members, ExtraTokens, Valid;
      var o :- AsObject(v);
      var d :- ObjectAt(o, "Endpoint Descriptor");
      var _ :- WriteMembers(d, ["bLength", "bDescriptorType", "bEndpointAddress", "bmAttributes", "wMaxPacketSize",
                                "bInterval", "bRefresh", "bSynchAddress"]);
      r := BuildExtra(o);
    }

    /** The loop of `build_interface`. */
    method BuildEndpoints(vs: seq<Value>) returns (r: Status)
      requires Valid()
      modifies this
      ensures Did(old(written), Sized(EndpointTokens, vs), r)
    {
      hide Each, Valid, EndpointTokens, Size;
      WriteSize(|vs|);
      ghost var before, done := written, [];
      EachStarts(EndpointTokens, vs);
      for i := 0 to |vs|
        invariant Valid() && written == before + done
        invariant Each(EndpointTokens, vs) == Before(done, Each(EndpointTokens, vs[i..]))
      {
        EachGoesOn(EndpointTokens, vs, i, done);
        var _ :- BuildEndpoint(vs[i]);
        done := done + EndpointTokens(vs[i]).value;
      }
      EachEnds(EndpointTokens, vs, done);
      r := Ok(());
    }

    method BuildInterface(v: Value) returns (r: Status)
      requires Valid()
      modifies this
      ensures Did(old(written), InterfaceTokens(v), r)
    {
      hide Members, ExtraTokens, Valid, Sized;
      var o :- AsObject(v);
      var d :- ObjectAt(o, "Interface Descriptor");
      var _ :- WriteMembers(d, ["bLength", "bDescriptorType", "bInterfaceNumber", "bAlternateSetting", "bNumEndpoints",
                                "bInterfaceClass", "bInterfaceSubClass", "bInterfaceProtocol", "iInterface"]);
      var vs :- ArrayAt(d, "aofEndpoints");
      var _ :- BuildEndpoints(vs);
      r := BuildExtra(d);
    }

    method BuildAltsetting(v: Value) returns (r: Status)
      requires Valid()
      modifies this
      ensures Did(old(written), AltsettingTokens(v), r)
    {
      hide Valid, Each, InterfaceTokens, Size;
      var o :- AsObject(v);
      var vs :- ArrayAt(o, "aofInterfaces");
      WriteSize(|vs|);
      ghost var before, done := written, [];
      EachStarts(InterfaceTokens, vs);
      for i := 0 to |vs|
        invariant Valid() && written == before + done
        invariant Each(InterfaceTokens, vs) == Before(done, Each(InterfaceTokens, vs[i..]))
      {
        EachGoesOn(InterfaceTokens, vs, i, done);
        var _ :- BuildInterface(vs[i]);
        done := done + InterfaceTokens(vs[i]).value;
      }
      EachEnds(InterfaceTokens, vs, done);
      r := Ok(());
    }

    /** The loop of `build_configuration`. */
    method BuildAltsettings(vs: seq<Value>) returns (r: Status)
      requires Valid()
      modifies this
      ensures Did(old(written), Sized(AltsettingTokens, vs), r)
    {
      hide Each, Valid, AltsettingTokens, Size;
      WriteSize(|vs|);
      ghost var before, done := written, [];
      EachStarts(AltsettingTokens, vs);
      for i := 0 to |vs|
        invariant Valid() && written == before + done
        invariant Each(AltsettingTokens, vs) == Before(done, Each(AltsettingTokens, vs[i..]))
      {
        EachGoesOn(AltsettingTokens, vs, i, done);
        var _ :- BuildAltsetting(vs[i]);
        done := done + AltsettingTokens(vs[i]).value;
      }
      EachEnds(AltsettingTokens, vs, done);
      r := Ok(());
    }

    method BuildConfiguration(v: Value) returns (r: Status)
      requires Valid()
      modifies this
      ensures Did(old(written), ConfigTokens(v), r)
    {
      hide Members, ExtraTokens, Valid, Sized;
      var o :- AsObject(v);
      var d :- ObjectAt(o, "Configuration Descriptor");
      var _ :- WriteMembers(d, ["bLength", "bDescriptorType", "wTotalLength", "bNumInterfaces", "bConfigurationValue",
                                "iConfiguration", "bmAttributes", "MaxPower"]);
      var vs :- ArrayAt(d, "aofAltsettings");
      var _ :- BuildAltsettings(vs);
      r := BuildExtra(o);
    }

    method BuildString(v: Value) returns (r: Status)
      requires Valid()
      modifies this
      ensures Did(old(written), StringTokens(v), r)
    {
      hide Members, Each, Number, Decimal, Valid;
      var o :- AsObject(v);
      var d :- ObjectAt(o, "StringDescriptor");
      var _ :- WriteMembers(d, ["bLength", "bLength", "bDescriptorType"]);
      var str :- At(d, "string");
      match str
      case Arr(a) => r := WriteDa(a);
      case Str(chars) =>
        ghost var before := written;
        for i := 0 to |chars|
          invariant Valid() && written + Widened(chars[i..]) == before + Widened(chars)
        {
          assert chars[i..][1..] == chars[i + 1..];
          ghost var tail := Widened(chars[i + 1..]);
          ghost var now := written;
          WriteNum(chars[i]);
          WriteNum(0);
          assert now + ([Decimal(chars[i]), Decimal(0)] + tail) == written + tail;
        }
        assert chars[|chars|..] == [] && written + [] == written;
        r := Ok(());
      case _ => r := Err(Malformed);
    }

    method BuildLanguage(v: Value) returns (r: Status)
      requires Valid()
      modifies this
      ensures Did(old(written), LanguageTokens(v), r)
    {
      hide Each, Valid, StringTokens, Size, Decimal, ReadU32;
      var o :- AsObject(v);
      var id :- At(o, "wLanguageId");
      if id.Arr? {
        var _ :- WriteDa(id.items);
      } else {
        var n :- ReadU32(id);
        WriteNum(n);
      }
      var vs :- ArrayAt(o, "aofStrings");
      WriteSize(|vs|);
      ghost var before, done := written, [];
      EachStarts(StringTokens, vs);
      for i := 0 to |vs|
        invariant Valid() && written == before + done
        invariant Each(StringTokens, vs) == Before(done, Each(StringTokens, vs[i..]))
      {
        EachGoesOn(StringTokens, vs, i, done);
        var _ :- BuildString(vs[i]);
        done := done + StringTokens(vs[i]).value;
      }
      EachEnds(StringTokens, vs, done);
      r := Ok(());
    }

    method BuildStringDescriptors(vs: seq<Value>) returns (r: Status)
      requires Valid()
      modifies this
      ensures Did(old(written), Sized(LanguageTokens, vs), r)
    {
      hide Each, Valid, LanguageTokens, Size;
      WriteSize(|vs|);
      ghost var before, done := written, [];
      EachStarts(LanguageTokens, vs);
      for i := 0 to |vs|
        invariant Valid() && written == before + done
        invariant Each(LanguageTokens, vs) == Before(done, Each(LanguageTokens, vs[i..]))
      {
        EachGoesOn(LanguageTokens, vs, i, done);
        var _ :- BuildLanguage(vs[i]);
        done := done + LanguageTokens(vs[i]).value;
      }
      EachEnds(LanguageTokens, vs, done);
      r := Ok(());
    }

    method BuildCapability(kind: nat, c: Object) returns (r: Status)
      requires Valid()
      modifies this
      ensures Did(old(written), CapabilityTokens(kind, c), r)
    {
      hide Each, Valid, Decimal, ReadMember, Number;
      if kind == 2 && "USB 2.0 Extension" in c {
        var e :- AsObject(c["USB 2.0 Extension"]);
        var attributes :- ReadMember(e, "bmAttributes");
        WriteNum(4);
        WriteNum(attributes % 256);
        WriteNum(attributes / 0x100 % 256);
        WriteNum(attributes / 0x1_0000 % 256);
        WriteNum(attributes / 0x100_0000 % 256);
        r := Ok(());
      } else if kind == 3 && "SuperSpeed USB" in c {
        var s :- AsObject(c["SuperSpeed USB"]);
        var attributes :- ReadMember(s, "bmAttributes");
        var speed :- ReadMember(s, "wSpeedSupported");
        var functionality :- ReadMember(s, "bFunctionalitySupport");
        var u1 :- ReadMember(s, "bU1DevExitLat");
        var u2 :- ReadMember(s, "bU2DevExitLat");
        WriteNum(7);
        WriteNum(attributes % 256);
        WriteNum(speed % 256);
        WriteNum(speed / 0x100 % 256);
        WriteNum(functionality % 256);
        WriteNum(u1 % 256);
        WriteNum(u2 % 256);
        WriteNum(u2 / 0x100 % 256);
        r := Ok(());
      } else if "daDevCapability" in c {
        var a :- AsArray(c["daDevCapability"]);
        r := WriteSizedDa(a);
      } else {
        WriteNum(0);
        r := Ok(());
      }
    }

    method BuildDevCap(v: Value) returns (r: Status)
      requires Valid()
      modifies this
      ensures Did(old(written), DevCapTokens(v), r)
    {
      hide Members, Valid, CapabilityTokens, ReadMember;
      var c :- AsObject(v);
      var _ :- WriteMembers(c, ["bLength", "bDescriptorType", "bDevCapabilityType"]);
      var kind :- ReadMember(c, "bDevCapabilityType");
      r := BuildCapability(kind, c);
    }

    method BuildBos(o: Object) returns (r: Status)
      requires Valid()
      modifies this
      ensures Did(old(written), BosTokens(o), r)
    {
      hide Members, Valid, Each, DevCapTokens, Size;
      var _ :- WriteMembers(o, ["bLength", "bDescriptorType", "wTotalLength", "bNumDeviceCaps"]);
      var vs :- ArrayAt(o, "aofDeviceCaps");
      WriteSize(|vs|);
      ghost var before, done := written, [];
      EachStarts(DevCapTokens, vs);
      for i := 0 to |vs|
        invariant Valid() && written == before + done
        invariant Each(DevCapTokens, vs) == Before(done, Each(DevCapTokens, vs[i..]))
      {
        EachGoesOn(DevCapTokens, vs, i, done);
        var _ :- BuildDevCap(vs[i]);
        done := done + DevCapTokens(vs[i]).value;
      }
      EachEnds(DevCapTokens, vs, done);
      r := Ok(());
    }

    method BuildConfigurations(vs: seq<Value>) returns (r: Status)
      requires Valid()
      modifies this
      ensures Did(old(written), Each(ConfigTokens, vs), r)
    {
      hide Each, Valid, ConfigTokens;
      ghost var done: seq<string> := [];
      EachStarts(ConfigTokens, vs);
      for i := 0 to |vs|
        invariant Valid() && written == old(written) + done
        invariant Each(ConfigTokens, vs) == Before(done, Each(ConfigTokens, vs[i..]))
      {
        EachGoesOn(ConfigTokens, vs, i, done);
        var _ :- BuildConfiguration(vs[i]);
        done := done + ConfigTokens(vs[i]).value;
      }
      EachEnds(ConfigTokens, vs, done);
      r := Ok(());
    }

    method BuildDescriptor(root: Value) returns (r: Status)
      requires Valid()
      modifies this
      ensures Did(old(written), DeviceTokens(root), r)
    {
      hide Members, Valid, Each, Sized, BosTokens, ReadU32, Number, LanguageTokens, ConfigTokens;
      var o :- AsObject(root);
      var devices :- ArrayAt(o, "aofDevices");
      if devices == [] { return Err(MissingKey); }
      var dev :- AsObject(devices[0]);
      var d :- ObjectAt(dev, "Device Descriptor");
      var _ :- WriteMembers(d, ["bLength", "bDescriptorType", "bcdUSB", "bDeviceClass", "bDeviceSubClass",
                                "bDeviceProtocol", "bMaxPacketSize0", "idVendor", "idProduct", "bcdDevice",
                                "iManufacturer", "iProduct", "iSerial", "bNumConfigurations"]);
      var configs :- ArrayAt(d, "aofConfigurations");
      var _ :- BuildConfigurations(configs);
      var langs :- ArrayAt(dev, "aofStringDescriptors");
      var _ :- BuildStringDescriptors(langs);
      var report :- ArrayAt(dev, "daReportDescriptor");
      var _ :- WriteSizedDa(report);
      var bos :- ObjectAt(dev, "BOS Descriptor");
      r := BuildBos(bos);
    }

    /** `parse`: the text for `tree::load`, which then holds the device that the document
        denotes. */
    method Parse(root: Value) returns (r: Result<string>)
      requires Valid() && written == []
      modifies this
      ensures DeviceTokens(root).Ok? ==> r.Ok? && Tokens(r.value) == DeviceTokens(root).value
      ensures DeviceOf(root).Ok? ==> r.Ok? && Load(r.value) == DeviceOf(root)
      ensures forall t :: JsonDocument.WritesDevice(root, t) ==> r.Ok? && Load(r.value) == Ok(t)
    {
      hide DeviceTokens, Tokens, DeviceOf, Render, InTree, JsonDocument.WritesDevice;
      forall t | JsonDocument.WritesDevice(root, t) ensures DeviceOf(root) == Ok(t) {
        JsonDocument.DescribedIsDenoted(root, t);
      }
      if DeviceOf(root).Ok? {
        CompiledIsDenoted(root, []);
        assert DeviceTokens(root).value + [] == DeviceTokens(root).value;
      }
      var _ :- BuildDescriptor(root);
      r := Ok(out);
      TokensOfRender(written, "");
      NoTokens();
      assert out + "" == out && written + [] == written;
      assert written == DeviceTokens(root).value;
    }
  }
}
