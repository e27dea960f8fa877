/** Every device that a configuration file can hold can be written as a JSON document. */
module JsonWriting {
  import opened Prelude
  import opened Descriptors
  import opened Tree
  import opened Json
  import opened JsonDocument

  // ------------------------------------------------------------------ what can be written

  /** Lists are counted in 32 bits. */
  ghost predicate Writable(d: Desc) {
    && WellFormed(d) && |d.children| < TWO_32 && |d.bytes| < TWO_32 && |d.extra| < TWO_32
    && forall c :: c in d.children ==> Writable(c)
  }

  /** A string starts with its length. */
  predicate IsString(bs: seq<byte>) { |bs| >= 2 && bs[0] == |bs| }

  ghost predicate WritableTree(t: Tree) {
    && t.Valid() && Writable(t.config) && Writable(t.bos) && |t.report| < TWO_32
    && forall l :: l in t.strings ==> |t.strings[l]| < TWO_32 && forall s :: s in t.strings[l] ==> IsString(s)
  }

  // --------------------------------------------------------------------------- the writer

  function Ints(bs: seq<byte>): (vs: seq<Value>)
    ensures |vs| == |bs| && forall i :: 0 <= i < |bs| ==> vs[i] == Int(bs[i])
  {
    seq(|bs|, i requires 0 <= i < |bs| => Int(bs[i]))
  }

  function Numbers(names: seq<string>, fs: seq<nat>): Object
    requires |names| == |fs|
  {
    if names == [] then map[] else Numbers(names[1..], fs[1..])[names[0] := Int(fs[0])]
  }

  ghost function EndpointDocs(ds: seq<Desc>): (vs: seq<Value>)
    requires forall d :: d in ds ==> d.kind == Endpoint && WellFormed(d)
    ensures |vs| == |ds| && forall i :: 0 <= i < |ds| ==> vs[i] == EndpointDoc(ds[i])
  {
    if ds == [] then [] else [EndpointDoc(ds[0])] + EndpointDocs(ds[1..])
  }

  ghost function EndpointDoc(d: Desc): Value
    requires d.kind == Endpoint && WellFormed(d)
  {
    Obj(map["Endpoint Descriptor" := Obj(Numbers(Names(Endpoint), d.fields)), "daExtra" := Arr(Ints(d.extra))])
  }

  ghost function InterfaceDocs(ds: seq<Desc>): (vs: seq<Value>)
    requires forall d :: d in ds ==> d.kind == Interface && WellFormed(d)
    ensures |vs| == |ds| && forall i :: 0 <= i < |ds| ==> vs[i] == InterfaceDoc(ds[i])
  {
    if ds == [] then [] else [InterfaceDoc(ds[0])] + InterfaceDocs(ds[1..])
  }

  ghost function InterfaceDoc(d: Desc): Value
    requires d.kind == Interface && WellFormed(d)
  {
    Obj(map["Interface Descriptor" := Obj(InterfaceMembers(d))])
  }

  ghost function UsbInterfaceDocs(ds: seq<Desc>): (vs: seq<Value>)
    requires forall d :: d in ds ==> d.kind == UsbInterface && WellFormed(d)
    ensures |vs| == |ds| && forall i :: 0 <= i < |ds| ==> vs[i] == UsbInterfaceDoc(ds[i])
  {
    if ds == [] then [] else [UsbInterfaceDoc(ds[0])] + UsbInterfaceDocs(ds[1..])
  }

  ghost function UsbInterfaceDoc(d: Desc): Value
    requires d.kind == UsbInterface && WellFormed(d)
  {
    Obj(map["aofInterfaces" := Arr(InterfaceDocs(d.children))])
  }

  ghost function ConfigDoc(d: Desc): Value
    requires d.kind == Config && WellFormed(d)
  {
    Obj(map["Configuration Descriptor" := Obj(Numbers(Names(Config), d.fields)
              ["aofAltsettings" := Arr(UsbInterfaceDocs(d.children))]),
            "daExtra" := Arr(Ints(d.extra))])
  }

  ghost function DevCapDocs(ds: seq<Desc>): (vs: seq<Value>)
    requires forall d :: d in ds ==> d.kind == DevCap && WellFormed(d)
    ensures |vs| == |ds| && forall i :: 0 <= i < |ds| ==> vs[i] == DevCapDoc(ds[i])
  {
    if ds == [] then [] else [DevCapDoc(ds[0])] + DevCapDocs(ds[1..])
  }

  ghost function DevCapDoc(d: Desc): Value
    requires d.kind == DevCap && WellFormed(d)
  {
    Obj(Numbers(Names(DevCap), d.fields)["daDevCapability" := Arr(Ints(d.bytes))])
  }

  ghost function BosDoc(d: Desc): Object
    requires d.kind == Bos && WellFormed(d)
  {
    Numbers(Names(Bos), d.fields)["aofDeviceCaps" := Arr(DevCapDocs(d.children))]
  }

  function StringDocs(ss: seq<seq<byte>>): (vs: seq<Value>)
    requires forall s :: s in ss ==> IsString(s)
    ensures |vs| == |ss| && forall i :: 0 <= i < |ss| ==> vs[i] == StringDoc(ss[i])
  {
    if ss == [] then [] else [StringDoc(ss[0])] + StringDocs(ss[1..])
  }

  function StringDoc(s: seq<byte>): Value
    requires IsString(s)
  {
    Obj(map["StringDescriptor" := Obj(map["bLength" := Int(s[0]), "bDescriptorType" := Int(s[1]), "string" := Arr(Ints(s[2..]))])])
  }

  function LanguageDoc(l: u16, ss: seq<seq<byte>>): Value
    requires forall s :: s in ss ==> IsString(s)
  {
    Obj(map["wLanguageId" := Int(l), "aofStrings" := Arr(StringDocs(ss))])
  }

  function LanguageDocs(m: Strings, ks: seq<u16>): (vs: seq<Value>)
    requires forall k :: k in ks ==> k in m && forall s :: s in m[k] ==> IsString(s)
    ensures |vs| == |ks| && forall i :: 0 <= i < |ks| ==> ks[i] in m && vs[i] == LanguageDoc(ks[i], m[ks[i]])
  {
    if ks == [] then [] else [LanguageDoc(ks[0], m[ks[0]])] + LanguageDocs(m, ks[1..])
  }

  ghost function DocumentOf(t: Tree): Value
    requires WritableTree(t)
  {
    var device := Numbers(DEVICE_NAMES, t.device)["aofConfigurations" := Arr([ConfigDoc(t.config)])];
    Obj(map["aofDevices" := Arr([Obj(map[
      "Device Descriptor" := Obj(device),
      "aofStringDescriptors" := Arr(LanguageDocs(t.strings, SortedKeys(t.strings))),
      "daReportDescriptor" := Arr(Ints(t.report)),
      "BOS Descriptor" := Obj(BosDoc(t.bos))])])])
  }

  // ------------------------------------------------------------------- the names differ

  predicate Distinct(names: seq<string>) { forall i, j :: 0 <= i < j < |names| ==> names[i] != names[j] }

  lemma DeviceNamesDiffer()
    ensures Distinct(DEVICE_NAMES) && "aofConfigurations" !in DEVICE_NAMES
  {
    var ns := DEVICE_NAMES;
    assert |ns[0]| == 7 && |ns[1]| == 15 && |ns[2]| == 6 && |ns[3]| == 12 && |ns[4]| == 15 && |ns[5]| == 15 && |ns[6]| == 15
        && |ns[7]| == 8 && |ns[8]| == 9 && |ns[9]| == 9 && |ns[10]| == 13 && |ns[11]| == 8 && |ns[12]| == 7 && |ns[13]| == 18;
    assert ns[0][0] == 'b' && ns[12][0] == 'i' && ns[8][0] == 'i' && ns[9][0] == 'b' && ns[7][1] == 'd' && ns[11][1] == 'P';
    assert ns[1][7] == 'p' && ns[4][7] == 'S' && ns[5][7] == 'P' && ns[6][1] == 'M' && ns[1][1] == ns[4][1] == ns[5][1] == 'D';
    assert |"aofConfigurations"| == 17;
  }

  lemma NamesDiffer(k: Kind)
    ensures Distinct(Names(k))
    ensures forall i :: 0 <= i < |Names(k)| ==> Names(k)[i] != "" && Names(k)[i][0] in {'b', 'i', 'w', 'M'}
  {
    var ns := Names(k);
    match k
    case Endpoint =>
      assert |ns[0]| == 7 && |ns[1]| == 15 && |ns[2]| == 16 && |ns[3]| == 12 && |ns[4]| == 14 && |ns[5]| == 9
          && |ns[6]| == 8 && |ns[7]| == 13;
    case Interface =>
      assert |ns[0]| == 7 && |ns[1]| == 15 && |ns[2]| == 16 && |ns[3]| == 17 && |ns[4]| == 13 && |ns[5]| == 15
          && |ns[6]| == 18 && |ns[7]| == 18 && |ns[8]| == 10;
      assert ns[1][1] == 'D' && ns[5][1] == 'I' && ns[6][10] == 'S' && ns[7][10] == 'P';
    case Config =>
      assert |ns[0]| == 7 && |ns[1]| == 15 && |ns[2]| == 12 && |ns[3]| == 14 && |ns[4]| == 19 && |ns[5]| == 14
          && |ns[6]| == 12 && |ns[7]| == 8;
      assert ns[2][0] == 'w' && ns[6][0] == 'b' && ns[3][0] == 'b' && ns[5][0] == 'i';
    case DevCap => assert |ns[0]| == 7 && |ns[1]| == 15 && |ns[2]| == 18;
    case Bos => assert |ns[0]| == 7 && |ns[1]| == 15 && |ns[2]| == 12 && |ns[3]| == 14;
    case UsbInterface =>
  }

  lemma {:induction false} NumbersAre(names: seq<string>, fs: seq<nat>)
    requires |names| == |fs| && Distinct(names)
    ensures forall i :: 0 <= i < |names| ==> names[i] in Numbers(names, fs) && Numbers(names, fs)[names[i]] == Int(fs[i])
    ensures forall key :: key in Numbers(names, fs) ==> key in names
  {
    if names != [] {
      var o, rest := Numbers(names, fs), Numbers(names[1..], fs[1..]);
      assert forall i :: 0 <= i < |names[1..]| ==> names[1..][i] == names[i + 1] && fs[1..][i] == fs[i + 1];
      NumbersAre(names[1..], fs[1..]);
      forall i | 0 <= i < |names| ensures names[i] in o && o[names[i]] == Int(fs[i]) {
        if i > 0 { assert names[0] != names[i] && names[1..][i - 1] == names[i]; }
      }
    }
  }

  /** With other members beside them the numbers are still there. */
  lemma MembersAre(k: Kind, d: Desc, o: Object)
    requires d.kind == k && WellFormed(d)
    requires forall key :: key in Numbers(Names(k), d.fields) ==> key in o && o[key] == Numbers(Names(k), d.fields)[key]
    ensures forall i :: 0 <= i < |Names(k)| ==> Member(o, Names(k)[i], d.fields[i], Pow256(Widths(k)[i]))
  {
    hide Numbers, Names, Widths, Pow256;
    NamesDiffer(k);
    NumbersAre(Names(k), d.fields);
  }

  /** A key of another kind is not among them. */
  lemma OtherKey(k: Kind, fs: seq<nat>, key: string)
    requires |fs| == |Names(k)| && key != "" && key[0] in {'a', 'd'}
    ensures key !in Numbers(Names(k), fs)
  {
    hide Numbers, Names;
    NamesDiffer(k);
    NumbersAre(Names(k), fs);
  }

  // -------------------------------------------------------------------------- the proofs

  lemma BytesAreWritten(bs: seq<byte>)
    requires |bs| < TWO_32
    ensures WritesBytes(Ints(bs), bs)
  {
  }

  lemma EndpointIsWritten(d: Desc)
    requires d.kind == Endpoint && Writable(d)
    ensures WritesEndpoint(EndpointDoc(d), d)
  {
    hide Numbers, Member, WritesBytes, Pow256;
    SmallPowers();
    MembersAre(Endpoint, d, Numbers(Names(Endpoint), d.fields));
    BytesAreWritten(d.extra);
    assert d.extra[0..] == d.extra;
    var ns, f, o := Names(Endpoint), d.fields, Numbers(Names(Endpoint), d.fields);
    assert Member(o, ns[0], f[0], 0x100) && Member(o, ns[1], f[1], 0x100) && Member(o, ns[2], f[2], 0x100)
        && Member(o, ns[3], f[3], 0x100) && Member(o, ns[4], f[4], 0x1_0000) && Member(o, ns[5], f[5], 0x100)
        && Member(o, ns[6], f[6], 0x100) && Member(o, ns[7], f[7], 0x100);
  }

  lemma ExtraIsWritten(o: Object, extra: seq<byte>)
    requires |extra| < TWO_32 && "Endpoint Companion" !in o && "daExtra" in o && o["daExtra"] == Arr(Ints(extra))
    ensures WritesExtra(o, extra)
  {
    hide Ints, WritesBytes;
    BytesAreWritten(extra);
    assert extra[0..] == extra;
  }

  ghost function InterfaceMembers(d: Desc): Object
    requires d.kind == Interface && WellFormed(d)
  {
    Numbers(Names(Interface), d.fields)["aofEndpoints" := Arr(EndpointDocs(d.children))]["daExtra" := Arr(Ints(d.extra))]
  }

  lemma InterfaceMembersAre(d: Desc)
    requires d.kind == Interface && Writable(d)
    ensures WellFormed(d) && |d.fields| == 9 && WritesExtra(InterfaceMembers(d), d.extra)
    ensures var (o, ns, f) := (InterfaceMembers(d), Names(Interface), d.fields);
      && HasArray(o, "aofEndpoints") && o["aofEndpoints"].items == EndpointDocs(d.children)
      && forall i :: 0 <= i < 9 ==> Member(o, ns[i], f[i], 0x100)
  {
    hide Numbers, Member, WritesExtra, Pow256, Writable, EndpointDocs, Ints;
    WritableParts(d);
    SmallPowers();
    OtherKey(Interface, d.fields, "aofEndpoints");
    OtherKey(Interface, d.fields, "daExtra");
    var o := InterfaceMembers(d);
    MembersAre(Interface, d, o);
    NoCompanion(Interface, d.fields, o);
    ExtraIsWritten(o, d.extra);
  }

  lemma InterfaceIsWritten(d: Desc)
    requires d.kind == Interface && Writable(d)
    ensures WritesInterface(InterfaceDoc(d), d)
  {
    hide Member, WritesExtra, WritesEndpoint, Writable, EndpointDoc, InterfaceMembers;
    WritableParts(d);
    InterfaceMembersAre(d);
    forall i | 0 <= i < |d.children| ensures WritesEndpoint(EndpointDocs(d.children)[i], d.children[i]) {
      assert d.children[i] in d.children;
      EndpointIsWritten(d.children[i]);
    }
    var ns, f, o := Names(Interface), d.fields, InterfaceMembers(d);
    assert Member(o, ns[0], f[0], 0x100) && Member(o, ns[1], f[1], 0x100) && Member(o, ns[2], f[2], 0x100)
        && Member(o, ns[3], f[3], 0x100) && Member(o, ns[4], f[4], 0x100) && Member(o, ns[5], f[5], 0x100)
        && Member(o, ns[6], f[6], 0x100) && Member(o, ns[7], f[7], 0x100) && Member(o, ns[8], f[8], 0x100);
  }

  lemma WritableParts(d: Desc)
    requires Writable(d)
    ensures WellFormed(d) && |d.extra| < TWO_32 && |d.bytes| < TWO_32 && |d.children| < TWO_32
    ensures forall c :: c in d.children ==> Writable(c)
  {
  }

  /** No member is called like a companion. */
  lemma NoCompanion(k: Kind, fs: seq<nat>, o: Object)
    requires |fs| == |Names(k)|
    requires forall key :: key in o ==> key in Numbers(Names(k), fs) || (key != "" && key[0] in {'a', 'd'})
    ensures "Endpoint Companion" !in o && "USB 2.0 Extension" !in o && "SuperSpeed USB" !in o
  {
    hide Numbers, Names;
    NamesDiffer(k);
    NumbersAre(Names(k), fs);
    forall key | key in o ensures key != "" && key[0] in {'b', 'i', 'w', 'M', 'a', 'd'} {
      if key in Numbers(Names(k), fs) { assert key in Names(k); }
    }
    assert "Endpoint Companion"[0] == 'E' && "USB 2.0 Extension"[0] == 'U' && "SuperSpeed USB"[0] == 'S';
  }

  lemma UsbInterfaceIsWritten(d: Desc)
    requires d.kind == UsbInterface && Writable(d)
    ensures WritesUsbInterface(UsbInterfaceDoc(d), d)
  {
    hide WritesInterface, InterfaceDoc;
    forall i | 0 <= i < |d.children| ensures WritesInterface(InterfaceDocs(d.children)[i], d.children[i]) {
      assert d.children[i] in d.children;
      InterfaceIsWritten(d.children[i]);
    }
  }

  lemma ConfigIsWritten(d: Desc)
    requires d.kind == Config && Writable(d)
    ensures WritesConfig(ConfigDoc(d), d)
  {
    hide Numbers, Member, WritesBytes, Pow256, WritesUsbInterface, Writable, UsbInterfaceDoc, Ints;
    WritableParts(d);
    SmallPowers();
    OtherKey(Config, d.fields, "aofAltsettings");
    var o := ConfigDoc(d).members["Configuration Descriptor"].members;
    MembersAre(Config, d, o);
    BytesAreWritten(d.extra);
    assert d.extra[0..] == d.extra;
    forall i | 0 <= i < |d.children| ensures WritesUsbInterface(UsbInterfaceDocs(d.children)[i], d.children[i]) {
      assert d.children[i] in d.children;
      UsbInterfaceIsWritten(d.children[i]);
    }
    var ns, f := Names(Config), d.fields;
    assert Member(o, ns[0], f[0], 0x100) && Member(o, ns[1], f[1], 0x100) && Member(o, ns[2], f[2], 0x1_0000)
        && Member(o, ns[3], f[3], 0x100) && Member(o, ns[4], f[4], 0x100) && Member(o, ns[5], f[5], 0x100)
        && Member(o, ns[6], f[6], 0x100) && Member(o, ns[7], f[7], 0x100);
  }

  lemma DevCapIsWritten(d: Desc)
    requires d.kind == DevCap && Writable(d)
    ensures WritesDevCap(DevCapDoc(d), d)
  {
    hide Numbers, Member, WritesBytes, Pow256, Ints;
    SmallPowers();
    OtherKey(DevCap, d.fields, "daDevCapability");
    var o := DevCapDoc(d).members;
    MembersAre(DevCap, d, o);
    BytesAreWritten(d.bytes);
    NoCompanion(DevCap, d.fields, o);
    var ns, f := Names(DevCap), d.fields;
    assert Member(o, ns[0], f[0], 0x100) && Member(o, ns[1], f[1], 0x100) && Member(o, ns[2], f[2], 0x100);
  }

  lemma BosIsWritten(d: Desc)
    requires d.kind == Bos && Writable(d)
    ensures WritesBos(BosDoc(d), d)
  {
    hide Numbers, Member, Pow256, WritesDevCap, Writable, DevCapDoc;
    WritableParts(d);
    SmallPowers();
    OtherKey(Bos, d.fields, "aofDeviceCaps");
    var o := BosDoc(d);
    MembersAre(Bos, d, o);
    forall i | 0 <= i < |d.children| ensures WritesDevCap(DevCapDocs(d.children)[i], d.children[i]) {
      assert d.children[i] in d.children;
      DevCapIsWritten(d.children[i]);
    }
    var ns, f := Names(Bos), d.fields;
    assert Member(o, ns[0], f[0], 0x100) && Member(o, ns[1], f[1], 0x100) && Member(o, ns[2], f[2], 0x1_0000)
        && Member(o, ns[3], f[3], 0x100);
  }

  lemma StringIsWritten(s: seq<byte>)
    requires IsString(s)
    ensures WritesString(StringDoc(s), s)
  {
    hide Numeral;
    BytesAreWritten(s[2..]);
  }

  lemma LanguageIsWritten(l: u16, ss: seq<seq<byte>>)
    requires |ss| < TWO_32 && forall s :: s in ss ==> IsString(s)
    ensures WritesLanguage(LanguageDoc(l, ss), (l, ss))
  {
    hide WritesString, StringDoc;
    forall i | 0 <= i < |ss| ensures WritesString(StringDocs(ss)[i], ss[i]) {
      assert ss[i] in ss;
      StringIsWritten(ss[i]);
    }
  }

  /** The languages of a map, each once. */
  function Entries(m: Strings, ks: seq<u16>): (es: seq<(u16, seq<seq<byte>>)>)
    requires forall i :: 0 <= i < |ks| ==> ks[i] in m
    ensures |es| == |ks| && forall i :: 0 <= i < |ks| ==> es[i] == (ks[i], m[ks[i]])
  {
    seq(|ks|, i requires 0 <= i < |ks| => (ks[i], m[ks[i]]))
  }

  lemma EntriesAreFirst(m: Strings, ks: seq<u16>)
    requires forall l :: l in m <==> l in ks
    requires forall i :: 0 <= i < |ks| ==> ks[i] in m
    ensures FirstOfEach(m, Entries(m, ks))
  {
    var es := Entries(m, ks);
    forall l | l in m ensures exists i :: 0 <= i < |es| && es[i].0 == l {
      var i :| 0 <= i < |ks| && ks[i] == l;
      assert es[i].0 == l;
    }
  }

  lemma StringsAreWritten(m: Strings)
    requires forall l :: l in m ==> |m[l]| < TWO_32 && forall s :: s in m[l] ==> IsString(s)
    ensures WritesStrings(LanguageDocs(m, SortedKeys(m)), m)
  {
    hide WritesLanguage, LanguageDoc, SortedKeys, FirstOfEach, IsString, LanguageDocs;
    var ks := SortedKeys(m);
    SortedKeysAre(m);
    forall i | 0 <= i < |ks| ensures ks[i] in m { assert ks[i] in ks; }
    EntriesAreFirst(m, ks);
    var vs, es := LanguageDocs(m, ks), Entries(m, ks);
    forall i | 0 <= i < |vs| ensures WritesLanguage(vs[i], es[i]) { LanguageIsWritten(ks[i], m[ks[i]]); }
  }

  lemma DeviceFieldsAreWritten(fs: seq<nat>, more: Value)
    requires InRange(DEVICE_WIDTHS, fs)
    ensures WritesDeviceFields(Numbers(DEVICE_NAMES, fs)["aofConfigurations" := more], fs)
  {
    hide Numbers, Pow256;
    SmallPowers();
    DeviceNamesDiffer();
    NumbersAre(DEVICE_NAMES, fs);
    var o := Numbers(DEVICE_NAMES, fs)["aofConfigurations" := more];
    forall i | 0 <= i < 14 ensures Member(o, DEVICE_NAMES[i], fs[i], Pow256(DEVICE_WIDTHS[i])) {
      assert DEVICE_NAMES[i] in DEVICE_NAMES;
    }
    hide Member;
    var ns := DEVICE_NAMES;
    assert Member(o, ns[0], fs[0], 0x100) && Member(o, ns[1], fs[1], 0x100) && Member(o, ns[2], fs[2], 0x1_0000)
        && Member(o, ns[3], fs[3], 0x100) && Member(o, ns[4], fs[4], 0x100) && Member(o, ns[5], fs[5], 0x100)
        && Member(o, ns[6], fs[6], 0x100) && Member(o, ns[7], fs[7], 0x1_0000) && Member(o, ns[8], fs[8], 0x1_0000)
        && Member(o, ns[9], fs[9], 0x1_0000) && Member(o, ns[10], fs[10], 0x100) && Member(o, ns[11], fs[11], 0x100)
        && Member(o, ns[12], fs[12], 0x100) && Member(o, ns[13], fs[13], 0x100);
  }

  /** For every device there is a document that describes it, and so denotes it. */
  lemma EveryTreeIsWritten(t: Tree)
    requires WritableTree(t)
    ensures WritesDevice(DocumentOf(t), t) && DeviceOf(DocumentOf(t)) == Ok(t)
  {
    hide Numbers, WritesDeviceFields, WritesConfig, WritesStrings, WritesBytes, WritesBos, ConfigDoc, BosDoc, LanguageDocs,
      Ints, DeviceOf, Writable, SortedKeys, WellFormed;
    DeviceFieldsAreWritten(t.device, Arr([ConfigDoc(t.config)]));
    ConfigIsWritten(t.config);
    StringsAreWritten(t.strings);
    BytesAreWritten(t.report);
    BosIsWritten(t.bos);
    DescribedIsDenoted(DocumentOf(t), t);
  }
}
