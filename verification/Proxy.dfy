/** The proxy device (usb_device_proxy_impl.cpp): how a command becomes a transfer,
    how a completed transfer or a control request becomes a reply request, and how
    `queue_reply_to_host` (usb_basic_impl.cpp) turns that into a message. */
module Proxy {
  import opened Prelude
  import opened Vhci
  import Iso

  // -------------------------------------------------------------- reply requests

  /** `queue_reply_request`; data None is the null pointer. */
  datatype ReplyRequest = ReplyRequest(
    cmd: Command, data: Option<seq<byte>>, size: nat, status: i32, isoDescriptorSize: nat, errorCount: nat)
  {
    /** How many bytes `queue_reply_to_host` copies out of data. */
    function CopySize(): nat
      requires cmd.CmdSubmit?
    {
      (if cmd.IsOut() then 0 else size) + if cmd.IsIso() then isoDescriptorSize else 0
    }

    /** The copy stays inside data. */
    predicate Readable() {
      cmd.CmdSubmit? && data.Some? ==> CopySize() <= |data.value|
    }
  }

  /** `queue_reply_to_host`. */
  function ReplyFor(req: ReplyRequest): (r: Reply)
    requires req.Readable()
    ensures r.seqnum == req.cmd.seqnum && r.ep == req.cmd.ep && r.direction == req.cmd.direction
    ensures r.RetSubmit? <==> req.cmd.CmdSubmit?
  {
    match req.cmd
    case CmdSubmit(seqnum, devid, direction, ep, _, _, startFrame, packets, _, _, _) =>
      RetSubmit(seqnum, devid, direction, ep, req.status, Int32(req.size), startFrame, packets, Int32(req.errorCount),
                if req.data.Some? then req.data.value[..req.CopySize()] else [])
    case CmdUnlink(seqnum, devid, direction, ep, _) =>
      RetUnlink(seqnum, devid, direction, ep, req.status)
  }

  // ------------------------------------------------------------ starting transfers

  function PrepareBuffer(c: Command): seq<byte>
    requires c.CmdSubmit? && c.WellFormed()
  {
    if !c.IsOut() then Zeros(c.bufferLength)
    else if c.IsIso() then c.payload[..|c.payload| - c.packets * ISO_DESCRIPTOR_SIZE]
    else c.payload
  }

  /** `prepare_buffer`: copy the payload and cut the descriptors off, or make room. */
  method PrepareTransferBuffer(c: Command) returns (buffer: seq<byte>)
    requires c.CmdSubmit? && c.WellFormed()
    ensures buffer == PrepareBuffer(c)
  {
    buffer := [];
    if c.IsOut() {
      buffer := buffer + c.payload;
      if c.IsIso() { buffer := buffer[..|buffer| - c.packets * ISO_DESCRIPTOR_SIZE]; }
    } else {
      buffer := Zeros(c.bufferLength);
    }
  }

  function PrepareIsoDescriptors(c: Command): seq<byte>
    requires c.CmdSubmit? && c.WellFormed() && c.IsIso()
  {
    if c.IsOut() then c.payload[|c.payload| - c.packets * ISO_DESCRIPTOR_SIZE..] else []
  }

  /** The device is given exactly the bytes the host sent, or an empty buffer of the length
      it asked for; the payload of an isochronous OUT splits into the two buffers. */
  lemma PreparedBuffers(c: Command)
    requires c.CmdSubmit? && c.WellFormed() && (c.IsIn() || c.IsOut())
    ensures |PrepareBuffer(c)| == c.bufferLength
    ensures c.IsIn() ==> forall i :: 0 <= i < c.bufferLength ==> PrepareBuffer(c)[i] == 0
    ensures c.IsOut() && !c.IsIso() ==> PrepareBuffer(c) == c.payload
    ensures c.IsIso() && c.IsOut() ==>
      && c.payload == PrepareBuffer(c) + PrepareIsoDescriptors(c)
      && |PrepareIsoDescriptors(c)| == c.packets * ISO_DESCRIPTOR_SIZE
  {
  }

  /** `fill_iso`: as many packets as asked for, all of the same length; the host's
      own packet descriptors are not used. */
  method FillIso(buffer: seq<byte>, count: nat) returns (packets: seq<Iso.Packet>)
    requires count > 0 && |buffer| < TWO_31
    ensures UniformPackets(packets, |buffer|, count)
  {
    var packetSize := |buffer| / count;
    packets := [];
    for i := 0 to count
      invariant |packets| == i && forall p :: p in packets ==> p.length == packetSize && p.actual == 0
    {
      packets := packets + [Iso.Packet(packetSize, 0, true)];
    }
  }

  ghost predicate UniformPackets(ps: seq<Iso.Packet>, size: nat, count: nat) {
    |ps| == count && forall p :: p in ps ==> count > 0 && p.length == size / count
  }

  lemma {:induction false} TotalOfUniform(ps: seq<Iso.Packet>, length: nat)
    requires forall p :: p in ps ==> p.length == length
    ensures Iso.TotalLength(ps) == |ps| * length
  {
    if ps != [] { TotalOfUniform(ps[1..], length); }
  }

  /** `count * (size / count) <= size`: the packets never overrun the buffer. */
  lemma UniformPacketsFit(ps: seq<Iso.Packet>, size: nat, count: nat)
    requires UniformPackets(ps, size, count)
    ensures Iso.TotalLength(ps) <= size
  {
    if ps != [] {
      TotalOfUniform(ps, size / count);
      assert count * (size / count) <= size;
    }
  }

  /** t is what the device may hand back for the transfer started for c: the buffer
      prepared for it, the packets `fill_iso` laid out, no more bytes than room. A
      command without packets on an isochronous endpoint gets one packet. */
  ghost predicate Completes(c: Command, t: Iso.Transfer) {
    && c.CmdSubmit? && c.WellFormed() && (c.IsIn() || c.IsOut())
    && |t.buffer| == |PrepareBuffer(c)|
    && t.actualLength <= |t.buffer|
    && (if c.IsIso() then |t.packets| == c.packets else |t.packets| <= 1)
    && UniformPackets(t.packets, |t.buffer|, |t.packets|)
    && Iso.Fits(t.packets)
    && |t.packets| * ISO_DESCRIPTOR_SIZE < TWO_31
  }

  lemma CompletedIsValid(c: Command, t: Iso.Transfer)
    requires Completes(c, t)
    ensures t.Valid() && |t.buffer| == c.bufferLength
  {
    PreparedBuffers(c);
    UniformPacketsFit(t.packets, |t.buffer|, |t.packets|);
  }

  // --------------------------------------------------------- finishing transfers

  /** `transfer_data`: payload bytes, then packet descriptors. */
  datatype TransferData = TransferData(buffer: seq<byte>, isoDescriptorSize: nat, errorCount: nat) {
    predicate Valid() { isoDescriptorSize <= |buffer| }

    function DataSize(): nat
      requires Valid()
    {
      |buffer| - isoDescriptorSize
    }
  }

  /** `queue_data_for_host`. Failed packets that report bytes make the announced
      size larger than the gathered data; the gap is filled with zeros. */
  function DataForHost(t: Iso.Transfer): (d: TransferData)
    requires t.Valid()
    ensures d.Valid()
    ensures d.DataSize() == Iso.ActualLength(t)
    ensures d.isoDescriptorSize == |t.packets| * ISO_DESCRIPTOR_SIZE
  {
    if t.IsIso() then
      var iso := Iso.Describe(t);
      var data := Iso.IsoData(t);
      Iso.SizesAgree(t);
      TransferData(data + Zeros(iso.dataSize - |data|) + Iso.DescriptorBytes(iso.list),
                   |t.packets| * ISO_DESCRIPTOR_SIZE, iso.errorCount)
    else TransferData(t.buffer[..t.actualLength], 0, 0)
  }

  /** `send_data_to_host`, once it holds both a command and some data. */
  function InRequest(c: Command, d: TransferData): (req: ReplyRequest)
    requires c.CmdSubmit? && c.IsIn() && d.Valid()
    ensures req.Readable()
  {
    ReplyRequest(c, Some(d.buffer), d.DataSize(), 0, d.isoDescriptorSize, d.errorCount)
  }

  /** `on_out_transfer_complete` and `on_out_iso_transfer_complete`. */
  function OutRequest(c: Command, t: Iso.Transfer): (req: ReplyRequest)
    requires c.CmdSubmit? && c.IsOut() && t.Valid()
    ensures req.Readable()
  {
    if c.IsIso() then
      var iso := Iso.Describe(t);
      ReplyRequest(c, Some(Iso.DescriptorBytes(iso.list)), iso.dataSize, 0, |t.packets| * ISO_DESCRIPTOR_SIZE,
                   iso.errorCount)
    else ReplyRequest(c, None, t.actualLength, 0, 0, 0)
  }

  /** The own data of a transfer fits the buffer the host offered, and its reply
      announces exactly its payload. */
  lemma OwnDataIsFramed(c: Command, t: Iso.Transfer)
    requires Completes(c, t)
    ensures t.Valid()
    ensures DataForHost(t).DataSize() <= c.bufferLength
    ensures c.IsIn() ==> ReplyFor(InRequest(c, DataForHost(t))).Framed()
    ensures c.IsOut() ==> ReplyFor(OutRequest(c, t)).Framed()
  {
    CompletedIsValid(c, t);
    if t.IsIso() { Iso.SizesAgree(t); }
    Int32Word(DataForHost(t).DataSize());
  }

  /** End to end: a host that splits the data of an isochronous IN by the announced
      size, decodes the descriptors behind it, and puts each packet's share at its
      offset, has every packet's bytes, if every packet completed, and also if those that
      failed are empty and the packets aligned. */
  lemma HostRestoresPackets(t: Iso.Transfer, into: seq<byte>)
    requires t.Valid() && t.IsIso() && |into| == |t.buffer|
    requires (forall p :: p in t.packets ==> p.completed) || (Iso.Aligned(t.packets) && Iso.FailedAreEmpty(t.packets))
    ensures var d := DataForHost(t);
      Iso.SamePackets(Iso.Scatter(into, d.buffer[..d.DataSize()], Iso.HostDescriptors(d.buffer[d.DataSize()..])),
                      t.buffer, t.packets, 0)
  {
    hide Iso.Scatter, Iso.SamePackets, Iso.DescriptorBytes, Iso.HostDescriptors;
    var iso, data := Iso.Describe(t), Iso.IsoData(t);
    Iso.GatherThenScatter(t, into);
    assert data + Zeros(iso.dataSize - |data|) == data;
    Iso.DescriptorsDecode(iso.list);
    var d := DataForHost(t);
    assert d.buffer == data + Iso.DescriptorBytes(iso.list);
    assert d.buffer[..d.DataSize()] == data && d.buffer[d.DataSize()..] == Iso.DescriptorBytes(iso.list);
  }

  // -------------------------------------------------------------- control requests

  datatype Setup = Setup(requestType: u8, request: u8, value: u16, index: u16, length: u16)

  function Word16(lo: byte, hi: byte): u16 { lo as int + 256 * (hi as int) }

  function ControlSetup(c: Command): Setup
    requires c.CmdSubmit? && |c.setup| == 8
  {
    var s := c.setup;
    Setup(s[0], s[1], Word16(s[2], s[3]), Word16(s[4], s[5]), Word16(s[6], s[7]))
  }

  /** Bits 5 and 6 of the request type, and its low five bits. */
  predicate IsStandard(s: Setup) { s.requestType / 32 % 4 == 0 }
  function Recipient(s: Setup): u8 { s.requestType % 32 }

  const TO_DEVICE: u8 := 0
  const TO_INTERFACE: u8 := 1

  const GET_STATUS: u8 := 0x00
  const GET_DESCRIPTOR: u8 := 0x06
  const SET_CONFIGURATION: u8 := 0x09
  const GET_INTERFACE: u8 := 0x0a
  const SET_INTERFACE: u8 := 0x0b
  const SET_ISOCH_DELAY: u8 := 0x31

  const DT_DEVICE: u8 := 0x01
  const DT_CONFIG: u8 := 0x02
  const DT_STRING: u8 := 0x03
  const DT_BOS: u8 := 0x0f
  const DT_REPORT: u8 := 0x22

  /** `submit_control_setup`: bytes, or a negative error. */
  datatype Answer = Data(bytes: seq<byte>) | Failed(error: i32)

  /** What the USB device underneath answers while one control command runs. */
  datatype Usb = Usb(
    selfPowered: bool,
    device: seq<byte>, config: seq<byte>, strings: map<u16, seq<seq<byte>>>, bos: seq<byte>, report: seq<byte>,
    altSettings: map<u8, u8>, answer: Answer)
  {
    /** Every language that is present has a string: `at` throws otherwise. A
        transfer never answers more than an int can count. */
    ghost predicate Valid() {
      && (forall l :: l in strings ==> strings[l] != [])
      && (answer.Data? ==> |answer.bytes| < TWO_31)
    }

    function PackString(language: u16, index: u8): seq<byte>
      requires forall l :: l in strings ==> strings[l] != []
    {
      if language !in strings || index > |strings[language]| then []
      else strings[language][if index == 0 then 0 else index - 1]
    }
  }

  /** Forward a request to the device and report what it said. */
  function Forward(c: Command, usb: Usb): ReplyRequest
    requires c.CmdSubmit? && |c.setup| == 8
  {
    match usb.answer
    case Failed(error) => ReplyRequest(c, None, if c.IsIn() then 0 else ControlSetup(c).length, error, 0, 0)
    case Data(bytes) =>
      if c.IsIn() then ReplyRequest(c, Some(bytes), |bytes|, 0, 0, 0)
      else ReplyRequest(c, None, ControlSetup(c).length, 0, 0, 0)
  }

  /** The bytes behind a GET_DESCRIPTOR, or the device's error. */
  function DescriptorData(c: Command, usb: Usb): Answer
    requires c.CmdSubmit? && |c.setup| == 8 && usb.Valid()
  {
    var s := ControlSetup(c);
    var (kind, index) := (s.value / 256, s.value % 256);
    if kind == DT_DEVICE then Data(usb.device)
    else if kind == DT_CONFIG then Data(usb.config)
    else if kind == DT_STRING then Data(usb.PackString(s.index, index))
    else if kind == DT_BOS then Data(usb.bos)
    else if kind == DT_REPORT then Data(usb.report)
    else usb.answer
  }

  function Describe(c: Command, usb: Usb): ReplyRequest
    requires c.CmdSubmit? && |c.setup| == 8 && usb.Valid()
  {
    match DescriptorData(c, usb)
    case Failed(error) => ReplyRequest(c, None, 0, error, 0, 0)
    case Data(bytes) =>
      ReplyRequest(c, Some(bytes), Min(|bytes|, ControlSetup(c).length), if bytes == [] then 1 else 0, 0, 0)
  }

  predicate IsGetStatus(s: Setup) { IsStandard(s) && Recipient(s) == TO_DEVICE && s.request == GET_STATUS }

  predicate IsGetDescriptor(s: Setup) {
    IsStandard(s) && Recipient(s) in {TO_DEVICE, TO_INTERFACE} && s.request == GET_DESCRIPTOR
  }

  /** The control dispatch tree: each branch queues exactly one reply. */
  function ControlRequest(c: Command, usb: Usb): ReplyRequest
    requires c.CmdSubmit? && |c.setup| == 8 && usb.Valid()
  {
    var s := ControlSetup(c);
    if !IsStandard(s) then Forward(c, usb)
    else if c.IsIn() then
      if IsGetStatus(s) then
        ReplyRequest(c, Some([if usb.selfPowered then 1 else 0, 0]), 2, 0, 0, 0)
      else if IsGetDescriptor(s) then Describe(c, usb)
      else Forward(c, usb)
    else
      if Recipient(s) == TO_DEVICE && s.request == SET_CONFIGURATION then
        ReplyRequest(c, None, c.bufferLength % TWO_64, 0, 0, 0)
      else if Recipient(s) == TO_DEVICE && s.request == SET_ISOCH_DELAY then ReplyRequest(c, None, 0, 0, 0, 0)
      else if Recipient(s) == TO_INTERFACE && s.request == GET_INTERFACE then
        var interface := s.index % 256;
        ReplyRequest(c, Some([if interface in usb.altSettings then usb.altSettings[interface] else 0]), 1, 0, 0, 0)
      else if Recipient(s) == TO_INTERFACE && s.request == SET_INTERFACE then ReplyRequest(c, None, s.length, 0, 0, 0)
      else Forward(c, usb)
  }

  /** A command the control endpoint may get. */
  predicate ControlCommand(c: Command) {
    c.CmdSubmit? && c.WellFormed() && (c.IsIn() || c.IsOut()) && !c.IsIso()
  }

  /** In every branch of the dispatch tree the copy stays inside the data, the reply
      names the command and announces exactly its payload, and only an OUT request
      can report a length without sending bytes. */
  lemma ControlReplyIsFramed(c: Command, usb: Usb)
    requires ControlCommand(c) && usb.Valid()
    ensures ControlRequest(c, usb).cmd == c
    ensures ControlRequest(c, usb).Readable()
    ensures ReplyFor(ControlRequest(c, usb)).Framed()
    ensures c.IsOut() ==> ReplyFor(ControlRequest(c, usb)).payload == []
  {
    var req := ControlRequest(c, usb);
    if c.IsIn() { Int32Word(req.size); }
  }

  /** A served descriptor is cut to what the host asked for: the payload is a prefix
      of the packed bytes, and the whole of them whenever they fit; a device without the
      descriptor answers status 1, or its own error. */
  lemma DescriptorReply(c: Command, usb: Usb)
    requires ControlCommand(c) && c.IsIn() && usb.Valid()
    requires IsGetDescriptor(ControlSetup(c))
    ensures ControlRequest(c, usb) == Describe(c, usb)
    ensures var r := ReplyFor(Describe(c, usb));
      match DescriptorData(c, usb)
      case Data(bytes) =>
        && r.payload <= bytes && |r.payload| <= ControlSetup(c).length
        && (|bytes| <= ControlSetup(c).length ==> r.payload == bytes)
        && r.status == if bytes == [] then 1 else 0
      case Failed(error) => r.payload == [] && r.status == error
  {
  }

  /** The status of a device is two bytes, low byte first: 1 if it is self-powered. */
  lemma StatusReply(c: Command, usb: Usb)
    requires ControlCommand(c) && c.IsIn() && usb.Valid() && IsGetStatus(ControlSetup(c))
    ensures var r := ReplyFor(ControlRequest(c, usb));
      r.status == 0 && r.payload == LittleEndian(2, if usb.selfPowered then 1 else 0)
  {
    var v := if usb.selfPowered then 1 else 0;
    assert LittleEndian(2, v) == [v % 256] + LittleEndian(1, 0) && LittleEndian(1, 0) == [0];
  }

  /** What the device may say when it is asked: no more than the request has room for. */
  predicate KeepsToLength(c: Command, usb: Usb)
    requires c.CmdSubmit? && |c.setup| == 8
  {
    usb.answer.Data? ==> |usb.answer.bytes| <= ControlSetup(c).length
  }

  /** No reply to a control IN request is larger than the request asks for, exactly when
      it is a request for a descriptor, which is cut; or for the status, of which two bytes
      are sent whatever was asked; or else if the device itself keeps to the length. */
  lemma ControlReplyFitsIff(c: Command, usb: Usb)
    requires ControlCommand(c) && c.IsIn() && usb.Valid()
    ensures |ReplyFor(ControlRequest(c, usb)).payload| <= ControlSetup(c).length
       <==> if IsGetStatus(ControlSetup(c)) then ControlSetup(c).length >= 2
            else IsGetDescriptor(ControlSetup(c)) || KeepsToLength(c, usb)
  {
    hide ControlSetup;
    if IsGetDescriptor(ControlSetup(c)) {
      DescriptorReply(c, usb);
    } else if IsGetStatus(ControlSetup(c)) {
      StatusReply(c, usb);
    }
  }
}
