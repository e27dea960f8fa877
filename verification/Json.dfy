/** The JSON description of a device (json_impl.cpp): the values it is made of, how a
    number is read, and the device it denotes. */
module Json {
  import opened Prelude
  import Text
  import opened Descriptors
  import opened Tree

  /** A parsed document. A string is its UTF-8 bytes; Other is null, a boolean, a
      floating-point number, or an integer beyond 64 signed bits. */
  datatype Value =
    | Int(n: int)
    | Str(chars: seq<byte>)
    | Arr(items: seq<Value>)
    | Obj(members: map<string, Value>)
    | Other

  type Object = map<string, Value>

  function AsArray(v: Value): Result<seq<Value>> { if v.Arr? then Ok(v.items) else Err(Malformed) }
  function AsObject(v: Value): Result<Object> { if v.Obj? then Ok(v.members) else Err(Malformed) }

  function At(o: Object, key: string): Result<Value> { if key in o then Ok(o[key]) else Err(MissingKey) }

  function ArrayAt(o: Object, key: string): Result<seq<Value>> {
    var v :- At(o, key);
    AsArray(v)
  }

  function ObjectAt(o: Object, key: string): Result<Object> {
    var v :- At(o, key);
    AsObject(v)
  }

  // -------------------------------------------------------------- reading numbers

  predicate IsBlank(b: byte) { b == 32 || 9 <= b <= 13 }

  /** The value of a digit, if it is one in that base. */
  function DigitIn(base: nat, b: byte): Option<nat> {
    var v := if '0' as int <= b <= '9' as int then b - '0' as int
             else if 'a' as int <= b <= 'f' as int then b - 'a' as int + 10
             else if 'A' as int <= b <= 'F' as int then b - 'A' as int + 10
             else base;
    if v < base then Some(v) else None
  }

  function DigitRun(base: nat, s: seq<byte>): (n: nat)
    ensures n <= |s| && forall i :: 0 <= i < n ==> DigitIn(base, s[i]).Some?
  {
    if s == [] || DigitIn(base, s[0]) == None then 0 else 1 + DigitRun(base, s[1..])
  }

  function NumberIn(base: nat, s: seq<byte>): nat
    requires forall i :: 0 <= i < |s| ==> DigitIn(base, s[i]).Some?
  {
    if s == [] then 0 else base * NumberIn(base, s[..|s| - 1]) + DigitIn(base, s[|s| - 1]).value
  }

  function Digits(base: nat, s: seq<byte>): Result<nat> {
    var n := DigitRun(base, s);
    if n == 0 then Err(Malformed)
    else if NumberIn(base, s[..n]) >= TWO_64 then Err(OutOfRange)
    else Ok(NumberIn(base, s[..n]))
  }

  function Unsigned(s: seq<byte>): Result<nat> {
    if |s| >= 3 && s[0] == '0' as int && s[1] in {'x' as int, 'X' as int} && DigitIn(16, s[2]).Some? then
      Digits(16, s[2..])
    else if s != [] && s[0] == '0' as int then Digits(8, s)
    else Digits(10, s)
  }

  /** `std::stoul(s, nullptr, 0)`: blanks, a sign, a base by prefix; what is behind the
      digits is ignored. */
  function Stoul(s: seq<byte>): Result<nat> {
    if s != [] && IsBlank(s[0]) then Stoul(s[1..])
    else if s != [] && s[0] == '-' as int then
      var v :- Unsigned(s[1..]);
      Ok((TWO_64 - v) % TWO_64)
    else Unsigned(if s != [] && s[0] == '+' as int then s[1..] else s)
  }

  function ReadU32(v: Value): Result<u32> {
    match v
    case Int(n) => Ok(Word(n))
    case Str(s) =>
      var n :- Stoul(s);
      Ok(Word(n))
    case _ => Err(Malformed)
  }

  /** A member that is missing reads as zero. */
  function ReadMember(o: Object, key: string): Result<u32> { if key in o then ReadU32(o[key]) else Ok(0) }

  // Numbers as they are written: digits, 0x and hexadecimal digits, or 0 and octal ones.

  function DigitCode(base: nat, n: nat): (b: byte)
    requires n < base <= 16
    ensures DigitIn(base, b) == Some(n) && b == "0123456789abcdef"[n] as int
  {
    Text.HexDigit(n) as int
  }

  function Numeral(base: nat, n: nat): (s: seq<byte>)
    requires 2 <= base <= 16
    ensures s != [] && forall i :: 0 <= i < |s| ==> DigitIn(base, s[i]).Some?
    decreases n
  {
    if n < base then [DigitCode(base, n)] else Numeral(base, n / base) + [DigitCode(base, n % base)]
  }

  lemma {:induction false} NumberOfNumeral(base: nat, n: nat)
    requires 2 <= base <= 16
    ensures NumberIn(base, Numeral(base, n)) == n
    decreases n
  {
    hide NumberIn, DigitIn, Numeral;
    if n < base {
      OneDigit(base, n);
    } else {
      NumberOfNumeral(base, n / base);
      LastDigit(base, n);
      NumberEnds(base, Numeral(base, n / base), n % base);
      assert base * (n / base) + n % base == n;
    }
  }

  lemma OneDigit(base: nat, n: nat)
    requires n < base <= 16 && 2 <= base
    ensures NumberIn(base, Numeral(base, n)) == n
  {
    hide DigitIn;
    var s := Numeral(base, n);
    assert s == [DigitCode(base, n)] && s[..0] == [];
    assert NumberIn(base, s) == base * NumberIn(base, []) + n;
  }

  lemma LastDigit(base: nat, n: nat)
    requires 2 <= base <= 16 && base <= n
    ensures Numeral(base, n) == Numeral(base, n / base) + [DigitCode(base, n % base)]
  {
    hide DigitIn;
  }

  lemma NumberEnds(base: nat, s: seq<byte>, d: nat)
    requires d < base <= 16 && forall i :: 0 <= i < |s| ==> DigitIn(base, s[i]).Some?
    ensures NumberIn(base, s + [DigitCode(base, d)]) == base * NumberIn(base, s) + d
  {
    hide DigitIn;
    var t := s + [DigitCode(base, d)];
    assert t[..|t| - 1] == s && t[|t| - 1] == DigitCode(base, d);
  }

  lemma {:induction false} NoLeadingZero(base: nat, n: nat)
    requires 2 <= base <= 16 && n > 0
    ensures Numeral(base, n)[0] != '0' as int
    decreases n
  {
    hide DigitIn;
    if n >= base {
      assert n / base > 0;
      NoLeadingZero(base, n / base);
      assert Numeral(base, n)[0] == Numeral(base, n / base)[0];
    }
  }

  lemma {:induction false} DigitsEnd(base: nat, s: seq<byte>, rest: seq<byte>)
    requires forall i :: 0 <= i < |s| ==> DigitIn(base, s[i]).Some?
    requires rest == [] || DigitIn(base, rest[0]) == None
    ensures DigitRun(base, s + rest) == |s|
  {
    if s == [] {
      assert s + rest == rest;
    } else {
      assert (s + rest)[1..] == s[1..] + rest;
      DigitsEnd(base, s[1..], rest);
    }
  }

  lemma DigitsOfNumeral(base: nat, n: nat, rest: seq<byte>)
    requires 2 <= base <= 16 && (rest == [] || DigitIn(base, rest[0]) == None)
    ensures Digits(base, Numeral(base, n) + rest) == if n < 0x1_0000_0000_0000_0000 then Ok(n) else Err(OutOfRange)
  {
    hide NumberIn, DigitIn, Numeral;
    var s := Numeral(base, n);
    DigitsEnd(base, s, rest);
    NumberOfNumeral(base, n);
    assert (s + rest)[..|s|] == s;
  }

  /** A digit has its value in either case, and in every base that has the digit. */
  lemma DigitsRead(base: nat, n: nat)
    requires n < 16
    ensures forall b: byte :: b == "0123456789abcdef"[n] as int || b == "0123456789ABCDEF"[n] as int ==>
      DigitIn(base, b) == if n < base then Some(n) else None
  {
  }

  /** What cannot go on a number: the end, or no letter or digit. */
  predicate Stops(rest: seq<byte>) {
    rest == [] || (DigitIn(16, rest[0]) == None && rest[0] !in {'x' as int, 'X' as int})
  }

  /** What a number of up to 64 bits is cut to. */
  function Cut(n: nat): Result<u32> {
    if n < 0x1_0000_0000_0000_0000 then Ok(n % 0x1_0000_0000) else Err(OutOfRange)
  }

  /** A number in hexadecimal is read as that number. */
  lemma ReadHex(n: nat, x: byte, rest: seq<byte>)
    requires x in {'x' as int, 'X' as int} && Stops(rest)
    ensures ReadU32(Str(['0' as int, x] + Numeral(16, n) + rest)) == Cut(n)
  {
    hide Digits, Numeral, NumberIn, DigitIn;
    var s: seq<byte> := ['0' as int, x] + Numeral(16, n) + rest;
    assert s[0] == '0' as int && s[1] == x;
    assert s[2..] == Numeral(16, n) + rest && s[2] == Numeral(16, n)[0];
    DigitsOfNumeral(16, n, rest);
    assert Unsigned(s) == Digits(16, Numeral(16, n) + rest);
  }

  lemma UnsignedDecimal(n: nat, rest: seq<byte>)
    requires Stops(rest)
    ensures Unsigned(Numeral(10, n) + rest) == if n < 0x1_0000_0000_0000_0000 then Ok(n) else Err(OutOfRange)
    ensures '0' as int <= (Numeral(10, n) + rest)[0] <= '9' as int
  {
    hide Digits, NumberIn;
    var s := Numeral(10, n) + rest;
    if n > 0 { NoLeadingZero(10, n); }
    assert s[0] == Numeral(10, n)[0];
    if n == 0 {
      assert Numeral(10, n) == Numeral(8, n) == ['0' as int];
      assert |s| >= 2 ==> s[1] == rest[0];
      assert rest != [] ==> DigitIn(8, rest[0]) == None;
      DigitsOfNumeral(8, n, rest);
    } else {
      assert rest != [] ==> DigitIn(10, rest[0]) == None;
      DigitsOfNumeral(10, n, rest);
    }
  }

  /** And in decimal; with a minus in front, modulo 2^64 and then 2^32. */
  lemma ReadDecimal(n: nat, rest: seq<byte>)
    requires Stops(rest)
    ensures ReadU32(Str(Numeral(10, n) + rest)) == Cut(n)
    ensures ReadU32(Str(['+' as int] + Numeral(10, n) + rest)) == Cut(n)
    ensures n < 0x1_0000_0000_0000_0000 ==>
      ReadU32(Str(['-' as int] + Numeral(10, n) + rest)) == Ok((0x1_0000_0000_0000_0000 - n) % 0x1_0000_0000)
  {
    hide Digits, Numeral, NumberIn, DigitIn, Unsigned;
    UnsignedDecimal(n, rest);
    var s := Numeral(10, n) + rest;
    assert (['+' as int] + Numeral(10, n) + rest)[1..] == s;
    assert (['-' as int] + Numeral(10, n) + rest)[1..] == s;
  }

  /** And in octal, behind a zero. */
  lemma ReadOctal(n: nat, rest: seq<byte>)
    requires Stops(rest)
    ensures ReadU32(Str(['0' as int] + Numeral(8, n) + rest)) == Cut(n)
  {
    hide Digits, Numeral, NumberIn;
    var t := Numeral(8, n) + rest;
    assert t[0] == Numeral(8, n)[0] && DigitIn(8, t[0]).Some?;
    assert rest != [] ==> DigitIn(8, rest[0]) == None;
    DigitsOfNumeral(8, n, rest);
    LeadingZero(t);
    assert ['0' as int] + Numeral(8, n) + rest == ['0' as int] + t;
    UnsignedOctal(t);
  }

  lemma UnsignedOctal(t: seq<byte>)
    requires t != [] && DigitIn(8, t[0]).Some?
    ensures Unsigned(['0' as int] + t) == Digits(8, ['0' as int] + t)
  {
    hide Digits;
    var s: seq<byte> := ['0' as int] + t;
    assert s[1] == t[0];
  }

  lemma LeadingZero(t: seq<byte>)
    requires t != [] && DigitIn(8, t[0]).Some?
    ensures Digits(8, ['0' as int] + t) == Digits(8, t)
  {
    hide DigitIn;
    var s: seq<byte> := ['0' as int] + t;
    assert s[1..] == t && DigitIn(8, '0' as int) == Some(0) by { ZeroIsDigit(); }
    var n := DigitRun(8, t);
    assert s[..n + 1] == ['0' as int] + t[..n];
    ZeroInFront(t[..n], s[..n + 1]);
  }

  lemma ZeroIsDigit()
    ensures DigitIn(8, '0' as int) == Some(0)
  {
  }

  lemma {:induction false} ZeroInFront(s: seq<byte>, z: seq<byte>)
    requires z == ['0' as int] + s && forall i :: 0 <= i < |s| ==> DigitIn(8, s[i]).Some?
    ensures forall i :: 0 <= i < |z| ==> DigitIn(8, z[i]).Some?
    ensures NumberIn(8, z) == NumberIn(8, s)
    decreases |s|
  {
    hide DigitIn;
    ZeroIsDigit();
    if s == [] {
      assert z == ['0' as int] && z[..0] == [];
    } else {
      assert z[..|z| - 1] == ['0' as int] + s[..|s| - 1] && z[|z| - 1] == s[|s| - 1];
      ZeroInFront(s[..|s| - 1], z[..|z| - 1]);
    }
  }

  /** White space in front is skipped. */
  lemma ReadBehindBlank(b: byte, s: seq<byte>)
    requires b in {9, 10, 11, 12, 13, 32}
    ensures ReadU32(Str([b] + s)) == ReadU32(Str(s))
  {
    assert ([b] + s)[1..] == s;
  }

  /** An integer is cut to 32 bits. */
  lemma ReadInt(n: int)
    ensures ReadU32(Int(n)).Ok? && (n - ReadU32(Int(n)).value) % 0x1_0000_0000 == 0
    ensures 0 <= n < 0x1_0000_0000 ==> ReadU32(Int(n)) == Ok(n)
  {
  }

  // ------------------------------------------------- the device a document denotes

  /** The members of the libusb structures, in their order. */
  function Names(k: Kind): (ns: seq<string>)
    ensures |ns| == |Widths(k)|
  {
    match k
    case Endpoint => ["bLength", "bDescriptorType", "bEndpointAddress", "bmAttributes", "wMaxPacketSize",
                      "bInterval", "bRefresh", "bSynchAddress"]
    case Interface => ["bLength", "bDescriptorType", "bInterfaceNumber", "bAlternateSetting", "bNumEndpoints",
                       "bInterfaceClass", "bInterfaceSubClass", "bInterfaceProtocol", "iInterface"]
    case UsbInterface => []
    case Config => ["bLength", "bDescriptorType", "wTotalLength", "bNumInterfaces", "bConfigurationValue",
                    "iConfiguration", "bmAttributes", "MaxPower"]
    case DevCap => ["bLength", "bDescriptorType", "bDevCapabilityType"]
    case Bos => ["bLength", "bDescriptorType", "wTotalLength", "bNumDeviceCaps"]
  }

  const DEVICE_NAMES: seq<string> := [
    "bLength", "bDescriptorType", "bcdUSB", "bDeviceClass", "bDeviceSubClass", "bDeviceProtocol",
    "bMaxPacketSize0", "idVendor", "idProduct", "bcdDevice", "iManufacturer", "iProduct", "iSerial",
    "bNumConfigurations"]

  function Fit(width: nat, v: nat): (r: Result<nat>)
    ensures r.Ok? ==> r.value == v < Pow256(width)
  {
    if v < Pow256(width) then Ok(v) else Err(OutOfRange)
  }

  function FieldsOf(ws: seq<nat>, names: seq<string>, o: Object): (r: Result<seq<nat>>)
    requires |ws| == |names|
    ensures r.Ok? ==> InRange(ws, r.value)
  {
    if ws == [] then Ok([])
    else
      var raw :- ReadMember(o, names[0]);
      var v :- Fit(ws[0], raw);
      var vs :- FieldsOf(ws[1..], names[1..], o);
      Ok([v] + vs)
  }

  function ByteOf(v: Value): Result<byte> {
    var raw :- ReadU32(v);
    if raw < 256 then Ok(raw) else Err(OutOfRange)
  }

  /** All the elements of an array, of which there must be fewer than 2^32. */
  function Collect<T>(f: Value -> Result<T>, vs: seq<Value>): (r: Result<seq<T>>)
    ensures r.Ok? ==> |r.value| == |vs|
    ensures r.Ok? ==> forall i :: 0 <= i < |vs| ==> f(vs[i]) == Ok(r.value[i])
  {
    if vs == [] then Ok([])
    else
      var x :- f(vs[0]);
      var xs :- Collect(f, vs[1..]);
      Ok([x] + xs)
  }

  function CollectFew<T>(f: Value -> Result<T>, vs: seq<Value>): (r: Result<seq<T>>)
    ensures r.Ok? ==> |vs| < TWO_32 && r == Collect(f, vs)
  {
    if |vs| < TWO_32 then Collect(f, vs) else Err(OutOfRange)
  }

  /** A SuperSpeed companion descriptor, packed. */
  function CompanionOf(c: Object): (r: Result<seq<byte>>)
    ensures r.Ok? ==> |r.value| == 6
  {
    var head :- FieldsOf([1, 1, 1, 1, 2], ["bLength", "bDescriptorType", "bMaxBurst", "bmAttributes", "wBytesPerInterval"], c);
    Ok([head[0] % 256, head[1] % 256, head[2] % 256, head[3] % 256] + LittleEndian(2, head[4]))
  }

  /** Extra bytes: the companion, then the raw ones. */
  function ExtraOf(o: Object): (r: Result<seq<byte>>)
    ensures r.Ok? ==> |r.value| < TWO_32
  {
    var companion :- if "Endpoint Companion" in o then
                       (var c :- AsObject(o["Endpoint Companion"]); CompanionOf(c))
                     else Ok([]);
    var raw :- if "daExtra" in o then
                 (var a :- AsArray(o["daExtra"]); Collect(ByteOf, a))
               else Ok([]);
    if |companion + raw| < TWO_32 then Ok(companion + raw) else Err(OutOfRange)
  }

  function EndpointOf(v: Value): Result<Desc> {
    var o :- AsObject(v);
    var d :- ObjectAt(o, "Endpoint Descriptor");
    var fields :- FieldsOf(Widths(Endpoint), Names(Endpoint), d);
    var extra :- ExtraOf(o);
    Ok(Desc(Endpoint, fields, [], [], extra))
  }

  function InterfaceOf(v: Value): Result<Desc> {
    var o :- AsObject(v);
    var d :- ObjectAt(o, "Interface Descriptor");
    var fields :- FieldsOf(Widths(Interface), Names(Interface), d);
    var eps :- ArrayAt(d, "aofEndpoints");
    var endpoints :- CollectFew(EndpointOf, eps);
    var extra :- ExtraOf(d);
    Ok(Desc(Interface, fields, endpoints, [], extra))
  }

  function UsbInterfaceOf(v: Value): Result<Desc> {
    var o :- AsObject(v);
    var ifs :- ArrayAt(o, "aofInterfaces");
    var interfaces :- CollectFew(InterfaceOf, ifs);
    Ok(Desc(UsbInterface, [], interfaces, [], []))
  }

  function ConfigOf(v: Value): Result<Desc> {
    var o :- AsObject(v);
    var d :- ObjectAt(o, "Configuration Descriptor");
    var fields :- FieldsOf(Widths(Config), Names(Config), d);
    var alts :- ArrayAt(d, "aofAltsettings");
    var interfaces :- CollectFew(UsbInterfaceOf, alts);
    var extra :- ExtraOf(o);
    Ok(Desc(Config, fields, interfaces, [], extra))
  }

  /** The bytes behind a capability's header: those of the structure its type calls
      for if it is given, else the raw ones. */
  function CapabilityOf(kind: nat, c: Object): (r: Result<seq<byte>>)
    ensures r.Ok? ==> |r.value| < TWO_32
  {
    if kind == 2 && "USB 2.0 Extension" in c then
      var e :- AsObject(c["USB 2.0 Extension"]);
      var attributes :- ReadMember(e, "bmAttributes");
      Ok(LittleEndian(4, attributes))
    else if kind == 3 && "SuperSpeed USB" in c then
      var s :- AsObject(c["SuperSpeed USB"]);
      var f :- FieldsOf([1, 2, 1, 1, 2], ["bmAttributes", "wSpeedSupported", "bFunctionalitySupport", "bU1DevExitLat",
                                          "bU2DevExitLat"], s);
      Ok(LittleEndian(1, f[0]) + LittleEndian(2, f[1]) + LittleEndian(1, f[2]) + LittleEndian(1, f[3])
         + LittleEndian(2, f[4]))
    else if "daDevCapability" in c then
      var a :- AsArray(c["daDevCapability"]);
      CollectFew(ByteOf, a)
    else Ok([])
  }

  function DevCapOf(v: Value): Result<Desc> {
    var c :- AsObject(v);
    var fields :- FieldsOf(Widths(DevCap), Names(DevCap), c);
    var bytes :- CapabilityOf(fields[2], c);
    Ok(Desc(DevCap, fields, [], bytes, []))
  }

  function BosOf(o: Object): Result<Desc> {
    var fields :- FieldsOf(Widths(Bos), Names(Bos), o);
    var a :- ArrayAt(o, "aofDeviceCaps");
    var caps :- CollectFew(DevCapOf, a);
    Ok(Desc(Bos, fields, caps, [], []))
  }

  function Widen(s: seq<byte>): seq<byte> {
    if s == [] then [] else [s[0], 0] + Widen(s[1..])
  }

  /** The text of a string descriptor: given as its bytes, or as characters to widen. */
  function TextOf(v: Value): Result<seq<byte>> {
    match v
    case Arr(a) => Collect(ByteOf, a)
    case Str(s) => Ok(Widen(s))
    case _ => Err(Malformed)
  }

  /** A string descriptor must state its true length, two more than its text. */
  function StringOf(v: Value): Result<seq<byte>> {
    var o :- AsObject(v);
    var d :- ObjectAt(o, "StringDescriptor");
    var head :- FieldsOf([1, 1], ["bLength", "bDescriptorType"], d);
    var str :- At(d, "string");
    var text :- TextOf(str);
    if head[0] == 2 + |text| then Ok([head[0] % 256, head[1] % 256] + text) else Err(Malformed)
  }

  /** A language identifier: a number, or an array of just one. */
  function LanguageOf(v: Value): Result<u16> {
    var raw :- if v.Arr? then (if |v.items| == 1 then ReadU32(v.items[0]) else Err(Malformed)) else ReadU32(v);
    if raw < TWO_16 then Ok(raw) else Err(OutOfRange)
  }

  function LanguageStringsOf(v: Value): Result<(u16, seq<seq<byte>>)> {
    var o :- AsObject(v);
    var id :- At(o, "wLanguageId");
    var language :- LanguageOf(id);
    var a :- ArrayAt(o, "aofStrings");
    var strings :- CollectFew(StringOf, a);
    Ok((language, strings))
  }

  /** The entries as a map; of two for one language the first counts. */
  function Gather(acc: Strings, entries: seq<(u16, seq<seq<byte>>)>): Strings
    decreases |entries|
  {
    if entries == [] then acc else Gather(Insert(acc, entries[0].0, entries[0].1), entries[1..])
  }

  /** The device: its first entry, with exactly one configuration. */
  function DeviceOf(root: Value): Result<Tree> {
    var o :- AsObject(root);
    var devices :- ArrayAt(o, "aofDevices");
    if devices == [] then Err(MissingKey)
    else
      var dev :- AsObject(devices[0]);
      var d :- ObjectAt(dev, "Device Descriptor");
      var fields :- FieldsOf(DEVICE_WIDTHS, DEVICE_NAMES, d);
      var configs :- ArrayAt(d, "aofConfigurations");
      if |configs| != 1 then Err(Malformed)
      else
        var config :- ConfigOf(configs[0]);
        var langs :- ArrayAt(dev, "aofStringDescriptors");
        var entries :- CollectFew(LanguageStringsOf, langs);
        var reportArray :- ArrayAt(dev, "daReportDescriptor");
        var report :- CollectFew(ByteOf, reportArray);
        var bosObject :- ObjectAt(dev, "BOS Descriptor");
        var bos :- BosOf(bosObject);
        Ok(Tree(fields, config, Gather(map[], entries), report, bos))
  }

  // --------------------------------------------------------- it is a tree that fits

  ghost predicate Fits(k: Kind, d: Desc) { d.kind == k && WellFormed(d) }

  lemma EndpointFits(v: Value)
    ensures EndpointOf(v).Ok? ==> Fits(Endpoint, EndpointOf(v).value)
  {
    hide FieldsOf, ExtraOf;
  }

  lemma InterfaceFits(v: Value)
    ensures InterfaceOf(v).Ok? ==> Fits(Interface, InterfaceOf(v).value)
  {
    hide FieldsOf, ExtraOf, EndpointOf, Collect;
    if InterfaceOf(v).Ok? {
      var eps := ArrayAt(ObjectAt(v.members, "Interface Descriptor").value, "aofEndpoints").value;
      forall i | 0 <= i < |eps| ensures EndpointOf(eps[i]).Ok? ==> Fits(Endpoint, EndpointOf(eps[i]).value) {
        EndpointFits(eps[i]);
      }
    }
  }

  lemma UsbInterfaceFits(v: Value)
    ensures UsbInterfaceOf(v).Ok? ==> Fits(UsbInterface, UsbInterfaceOf(v).value)
  {
    hide InterfaceOf, Collect;
    if UsbInterfaceOf(v).Ok? {
      var ifs := ArrayAt(v.members, "aofInterfaces").value;
      forall i | 0 <= i < |ifs| ensures InterfaceOf(ifs[i]).Ok? ==> Fits(Interface, InterfaceOf(ifs[i]).value) {
        InterfaceFits(ifs[i]);
      }
    }
  }

  lemma ConfigFits(v: Value)
    ensures ConfigOf(v).Ok? ==> Fits(Config, ConfigOf(v).value)
  {
    hide FieldsOf, ExtraOf, UsbInterfaceOf, Collect;
    if ConfigOf(v).Ok? {
      var alts := ArrayAt(ObjectAt(v.members, "Configuration Descriptor").value, "aofAltsettings").value;
      forall i | 0 <= i < |alts| ensures UsbInterfaceOf(alts[i]).Ok? ==> Fits(UsbInterface, UsbInterfaceOf(alts[i]).value) {
        UsbInterfaceFits(alts[i]);
      }
    }
  }

  lemma DevCapFits(v: Value)
    ensures DevCapOf(v).Ok? ==> Fits(DevCap, DevCapOf(v).value)
  {
    hide FieldsOf, CapabilityOf;
  }

  lemma BosFits(o: Object)
    ensures BosOf(o).Ok? ==> Fits(Bos, BosOf(o).value)
  {
    hide FieldsOf, DevCapOf, Collect;
    if BosOf(o).Ok? {
      var caps := ArrayAt(o, "aofDeviceCaps").value;
      forall i | 0 <= i < |caps| ensures DevCapOf(caps[i]).Ok? ==> Fits(DevCap, DevCapOf(caps[i]).value) {
        DevCapFits(caps[i]);
      }
    }
  }

  lemma StringFits(v: Value)
    ensures StringOf(v).Ok? ==> |StringOf(v).value| < 256
  {
    hide TextOf;
    SmallPowers();
  }

  lemma LanguageStringsFit(v: Value)
    ensures LanguageStringsOf(v).Ok? ==> ValidVectors(LanguageStringsOf(v).value.1)
  {
    hide StringOf, Collect, LanguageOf;
    if LanguageStringsOf(v).Ok? {
      var a := ArrayAt(v.members, "aofStrings").value;
      forall i | 0 <= i < |a| ensures StringOf(a[i]).Ok? ==> |StringOf(a[i]).value| < 256 { StringFits(a[i]); }
    }
  }

  lemma {:induction false} GatherFits(acc: Strings, entries: seq<(u16, seq<seq<byte>>)>)
    requires forall l :: l in acc ==> ValidVectors(acc[l])
    requires forall i :: 0 <= i < |entries| ==> ValidVectors(entries[i].1)
    ensures forall l :: l in Gather(acc, entries) ==> ValidVectors(Gather(acc, entries)[l])
    decreases |entries|
  {
    hide ValidVectors;
    if entries != [] { GatherFits(Insert(acc, entries[0].0, entries[0].1), entries[1..]); }
  }

  lemma LanguagesFit(langs: seq<Value>, entries: seq<(u16, seq<seq<byte>>)>)
    requires CollectFew(LanguageStringsOf, langs) == Ok(entries)
    ensures forall l :: l in Gather(map[], entries) ==> ValidVectors(Gather(map[], entries)[l])
  {
    hide LanguageStringsOf, Collect, ValidVectors, Gather;
    forall i | 0 <= i < |entries| ensures ValidVectors(entries[i].1) {
      assert LanguageStringsOf(langs[i]) == Ok(entries[i]);
      LanguageStringsFit(langs[i]);
    }
    GatherFits(map[], entries);
  }

  /** Whatever a document denotes can be stored in the tree. */
  lemma DeviceFits(root: Value)
    ensures DeviceOf(root).Ok? ==> DeviceOf(root).value.Valid()
  {
    hide FieldsOf, ConfigOf, LanguageStringsOf, BosOf, Gather, WellFormed, Collect;
    if DeviceOf(root).Ok? {
      var dev := AsObject(ArrayAt(root.members, "aofDevices").value[0]).value;
      var d := ObjectAt(dev, "Device Descriptor").value;
      ConfigFits(ArrayAt(d, "aofConfigurations").value[0]);
      BosFits(ObjectAt(dev, "BOS Descriptor").value);
      var langs := ArrayAt(dev, "aofStringDescriptors").value;
      LanguagesFit(langs, CollectFew(LanguageStringsOf, langs).value);
    }
  }

  // ------------------------------------------------------ the least one has to write

  lemma {:induction false} MissingNumbersAreZero(ws: seq<nat>, names: seq<string>, o: Object)
    requires |ws| == |names| && forall i :: 0 <= i < |names| ==> names[i] !in o
    ensures FieldsOf(ws, names, o).Ok? && forall i :: 0 <= i < |ws| ==> FieldsOf(ws, names, o).value[i] == 0
  {
    if ws != [] { MissingNumbersAreZero(ws[1..], names[1..], o); }
  }

  function BareConfig(): Value {
    Obj(map["Configuration Descriptor" := Obj(map["aofAltsettings" := Arr([])])])
  }

  function BareDevice(): Value {
    Obj(map["aofDevices" := Arr([Obj(map[
      "Device Descriptor" := Obj(map["aofConfigurations" := Arr([BareConfig()])]),
      "aofStringDescriptors" := Arr([]),
      "daReportDescriptor" := Arr([]),
      "BOS Descriptor" := Obj(map["aofDeviceCaps" := Arr([])])])])])
  }

  lemma BareConfigDenotes()
    ensures ConfigOf(BareConfig()).Ok?
  {
    hide FieldsOf, Collect;
    var d: Object := map["aofAltsettings" := Arr([])];
    MissingNumbersAreZero(Widths(Config), Names(Config), d);
    assert Collect(UsbInterfaceOf, []) == Ok([]) by { NothingToCollect(UsbInterfaceOf); }
  }

  lemma NothingToCollect<T>(f: Value -> Result<T>)
    ensures Collect(f, []) == Ok([])
  {
  }

  /** Every number may be left out, and every list be empty: such a document denotes a
      device, of zeros. */
  lemma BareDeviceDenotes()
    ensures DeviceOf(BareDevice()).Ok?
    ensures forall i :: 0 <= i < |DEVICE_WIDTHS| ==> DeviceOf(BareDevice()).value.device[i] == 0
  {
    hide FieldsOf, Collect, ConfigOf, Gather;
    var d: Object := map["aofConfigurations" := Arr([BareConfig()])];
    var bos: Object := map["aofDeviceCaps" := Arr([])];
    MissingNumbersAreZero(DEVICE_WIDTHS, DEVICE_NAMES, d);
    BareConfigDenotes();
    NothingToCollect(LanguageStringsOf);
    NothingToCollect(ByteOf);
    NothingToCollect(DevCapOf);
    MissingNumbersAreZero(Widths(Bos), Names(Bos), bos);
    assert BosOf(bos).Ok?;
  }
}
