/** What a reply means to the host: in terms of its own command and of what the device did,
    and without the functions that build it. */
module Replies {
  import opened Prelude
  import opened Vhci
  import opened Proxy
  import Iso

  /** The header repeats what the command said of itself. */
  predicate Echoes(c: Command, r: Reply) {
    && c.CmdSubmit? && r.RetSubmit?
    && r.seqnum == c.seqnum && r.devid == c.devid && r.direction == c.direction && r.ep == c.ep
    && r.startFrame == c.startFrame && r.packets == c.packets
  }

  /** Decoded, sixteen bytes each tell of the packets in turn. */
  predicate TellsPackets(bs: seq<byte>, ps: seq<Iso.Packet>) {
    var ds := Iso.HostDescriptors(bs);
    |bs| == 16 * |ps| && |ds| == |ps| && forall i :: 0 <= i < |ps| ==> Iso.Tells(ds[i], ps, i)
  }

  predicate AsksForPackets(c: Command) { c.CmdSubmit? && c.packets != 0 && c.packets != -1 }

  // ------------------------------------------------------------------------- transfers

  /** The device may complete a transfer with any bytes and any failures, as long as there
      is room for what it reports: packets are all of the length that the buffer gives each. */
  lemma AnyCompletion(c: Command, t: Iso.Transfer)
    requires c.CmdSubmit? && c.WellFormed() && c.direction in {0, 1}
    requires |t.buffer| == c.bufferLength && t.actualLength <= |t.buffer|
    requires if AsksForPackets(c) then |t.packets| == c.packets else t.packets == []
    requires forall p :: p in t.packets ==> p.actual <= p.length == c.bufferLength / |t.packets|
    ensures Completes(c, t) && t.Valid()
  {
    PreparedBuffers(c);
    assert Completes(c, t);
    CompletedIsValid(c, t);
  }

  /** r brings the host the data of t: all that was received, or what was gathered from
      the packets, with nothing but zeros up to what they claim; then, if packets were
      asked for, what became of each. */
  ghost predicate Delivers(c: Command, t: Iso.Transfer, r: Reply)
    requires t.Valid()
  {
    && Echoes(c, r) && r.status == 0 && 0 <= r.actualLength <= |r.payload|
    && r.errorCount == |Iso.Failed(t.packets)|
    && (if t.packets == [] then r.payload[..r.actualLength] == t.buffer[..t.actualLength]
        else
          var own := Iso.IsoData(t);
          && r.actualLength == Iso.TotalActual(t.packets) >= |own| && r.payload[..|own|] == own
          && forall k :: |own| <= k < r.actualLength ==> r.payload[k] == 0)
    && (if AsksForPackets(c) then TellsPackets(r.payload[r.actualLength..], t.packets)
        else |r.payload| == r.actualLength)
  }

  /** r tells the host how much of a write was carried out, and, if packets were asked
      for, what became of each. */
  ghost predicate Reports(c: Command, t: Iso.Transfer, r: Reply) {
    && Echoes(c, r) && r.status == 0
    && if AsksForPackets(c) then
         && r.actualLength == Iso.TotalActual(t.packets) && r.errorCount == |Iso.Failed(t.packets)|
         && TellsPackets(r.payload, t.packets)
       else r.actualLength == t.actualLength && r.errorCount == 0 && r.payload == []
  }

  lemma FewFailures(t: Iso.Transfer)
    requires t.Valid()
    ensures |Iso.Failed(t.packets)| == Iso.Failures(t.packets) <= |t.packets| < TWO_31
  {
    Iso.FailuresAre(t.packets);
    FailuresAtMost(t.packets);
  }

  lemma {:induction false} FailuresAtMost(ps: seq<Iso.Packet>)
    ensures Iso.Failures(ps) <= |ps|
  {
    if ps != [] { FailuresAtMost(ps[1..]); }
  }

  lemma DescriptorsTell(t: Iso.Transfer)
    requires t.Valid()
    ensures TellsPackets(Iso.DescriptorBytes(Iso.Describe(t).list), t.packets)
  {
    hide Iso.Describe, Iso.Tells, Iso.DescriptorBytes, Iso.HostDescriptors;
    Iso.DescribedPackets(t);
    Iso.DescriptorsDecode(Iso.Describe(t).list);
  }

  /** What `queue_data_for_host` hands on. */
  lemma DataIs(t: Iso.Transfer)
    requires t.Valid()
    ensures var d := DataForHost(t); var own := Iso.IsoData(t);
      && d.DataSize() < TWO_31 && d.errorCount == |Iso.Failed(t.packets)| < TWO_31
      && TellsPackets(d.buffer[d.DataSize()..], t.packets)
      && (if t.packets == [] then d.buffer[..d.DataSize()] == t.buffer[..t.actualLength]
          else
            && d.DataSize() == Iso.TotalActual(t.packets) >= |own| && d.buffer[..|own|] == own
            && forall k :: |own| <= k < d.DataSize() ==> d.buffer[k] == 0)
  {
    hide TellsPackets, Iso.IsoData, Iso.Failed, Iso.TotalActual, Iso.DescriptorBytes;
    var d := DataForHost(t);
    FewFailures(t);
    if t.IsIso() {
      var iso, own := Iso.Describe(t), Iso.IsoData(t);
      Iso.SizesAgree(t);
      DescriptorsTell(t);
      assert d.buffer == own + Zeros(iso.dataSize - |own|) + Iso.DescriptorBytes(iso.list);
      assert d.buffer[d.DataSize()..] == Iso.DescriptorBytes(iso.list);
    } else {
      NoPackets();
      assert d.buffer[d.DataSize()..] == [];
    }
  }

  /** The reply that a read is paired with, whichever transfer that is. */
  lemma ReadReplyDelivers(c: Command, t: Iso.Transfer)
    requires c.CmdSubmit? && c.IsIn() && t.Valid()
    ensures Delivers(c, t, ReplyFor(InRequest(c, DataForHost(t))))
  {
    hide TellsPackets, DataForHost, Iso.IsoData, Iso.Failed, Iso.TotalActual;
    var d := DataForHost(t);
    DataIs(t);
    Int32Word(d.DataSize());
    Int32Word(d.errorCount);
    var r := ReplyFor(InRequest(c, d));
    assert r.payload == if AsksForPackets(c) then d.buffer else d.buffer[..d.DataSize()];
    assert r.payload[..d.DataSize()] == d.buffer[..d.DataSize()];
    assert forall k :: 0 <= k < d.DataSize() ==> r.payload[k] == d.buffer[k];
    assert t.packets != [] ==> r.payload[..|Iso.IsoData(t)|] == d.buffer[..|Iso.IsoData(t)|];
  }

  lemma NoPackets()
    ensures TellsPackets([], []) && Iso.Failures([]) == 0
  {
  }

  lemma WriteReplyReports(c: Command, t: Iso.Transfer)
    requires c.CmdSubmit? && c.IsOut() && t.Valid() && (AsksForPackets(c) ==> t.IsIso())
    ensures Reports(c, t, ReplyFor(OutRequest(c, t)))
  {
    hide TellsPackets, Iso.Failed, Iso.DescriptorBytes;
    FewFailures(t);
    if t.IsIso() { Iso.SizesAgree(t); }
    DescriptorsTell(t);
    var iso := Iso.Describe(t);
    Int32Word(iso.dataSize);
    Int32Word(iso.errorCount);
    Int32Word(t.actualLength);
    var bytes := Iso.DescriptorBytes(iso.list);
    assert bytes[..|bytes|] == bytes;
  }

  // ------------------------------------------------------------------ control requests

  /** As much of these bytes as the host asks for; status 1 if there are none. */
  predicate Serves(bytes: seq<byte>, wLength: nat, r: Reply)
    requires r.RetSubmit?
  {
    && r.payload == bytes[..if |bytes| <= wLength then |bytes| else wLength]
    && r.status == if bytes == [] then 1 else 0
  }

  /** What GET_DESCRIPTOR is answered with, by type and index. */
  predicate Describes(s: seq<byte>, usb: Usb, r: Reply)
    requires |s| == 8 && usb.Valid() && r.RetSubmit?
  {
    var (index, kind, language, wLength) := (s[2] as int, s[3] as int, s[4] as int + 256 * s[5] as int, s[6] as int + 256 * s[7] as int);
    && (kind == 1 ==> Serves(usb.device, wLength, r))
    && (kind == 2 ==> Serves(usb.config, wLength, r))
    && (kind == 15 ==> Serves(usb.bos, wLength, r))
    && (kind == 34 ==> Serves(usb.report, wLength, r))
    && (kind == 3 && language in usb.strings && index == 0 ==> Serves(usb.strings[language][0], wLength, r))
    && (kind == 3 && language in usb.strings && 1 <= index <= |usb.strings[language]| ==>
          Serves(usb.strings[language][index - 1], wLength, r))
    && (kind == 3 && (language !in usb.strings || index > |usb.strings[language]|) ==> r.status == 1 && r.payload == [])
    && (kind !in {1, 2, 3, 15, 34} ==>
          match usb.answer
          case Data(bytes) => Serves(bytes, wLength, r)
          case Failed(error) => r.status == error && r.payload == [])
  }

  /** What the device itself said, of a request for data. */
  predicate Relays(usb: Usb, r: Reply)
    requires r.RetSubmit?
  {
    match usb.answer
    case Data(bytes) => r.status == 0 && r.payload == bytes
    case Failed(error) => r.status == error && r.payload == []
  }

  /** The reply to a control request, by the bytes of its setup packet. */
  predicate Answers(c: Command, usb: Usb, r: Reply)
    requires c.CmdSubmit? && |c.setup| == 8 && usb.Valid()
  {
    var s := c.setup;
    var standard, recipient, request := s[0] / 32 % 4 == 0, s[0] % 32, s[1];
    && Echoes(c, r) && r.errorCount == 0
    && (c.direction == 1 ==>
          && r.actualLength == |r.payload|
          && if standard && recipient == 0 && request == 0 then
               r.status == 0 && r.payload == [if usb.selfPowered then 1 else 0, 0]
             else if standard && recipient in {0, 1} && request == 6 then Describes(s, usb, r)
             else Relays(usb, r))
    && (c.direction == 0 ==>
          && r.payload == []
          && if standard && recipient == 0 && request == 9 then r.status == 0 && r.actualLength == c.bufferLength
             else if standard && recipient == 0 && request == 0x31 then r.status == 0 && r.actualLength == 0
             else if standard && recipient == 1 && request == 0x0a then r.status == 0 && r.actualLength == 1
             else
               && r.actualLength == s[6] as int + 256 * s[7] as int
               && r.status == if (standard && recipient == 1 && request == 0x0b) || usb.answer.Data? then 0
                              else usb.answer.error)
  }

  lemma ControlReplyAnswers(c: Command, usb: Usb)
    requires ControlCommand(c) && usb.Valid()
    ensures ControlRequest(c, usb).Readable() && Answers(c, usb, ReplyFor(ControlRequest(c, usb)))
  {
    ControlReplyIsFramed(c, usb);
    if c.IsIn() { InReplyAnswers(c, usb); } else { OutReplyAnswers(c, usb); }
  }

  /** Any other IN request: the status, or what the device itself said. */
  lemma InRequestIs(c: Command, usb: Usb)
    requires ControlCommand(c) && c.IsIn() && usb.Valid() && !IsGetDescriptor(ControlSetup(c))
    ensures var (s, req) := (c.setup, ControlRequest(c, usb));
      && req.cmd == c && req.errorCount == 0
      && if s[0] / 32 % 4 == 0 && s[0] % 32 == 0 && s[1] == 0 then
           req.status == 0 && req.size == 2 && req.data == Some([if usb.selfPowered then 1 else 0, 0])
         else
           match usb.answer
           case Data(bytes) => req.status == 0 && req.size == |bytes| && req.data == Some(bytes)
           case Failed(error) => req.status == error && req.size == 0 && req.data == None
  {
    SetupIs(c);
    hide ControlSetup, IsStandard, Recipient;
  }

  lemma InReplyAnswers(c: Command, usb: Usb)
    requires ControlCommand(c) && c.IsIn() && usb.Valid() && ControlRequest(c, usb).Readable()
    ensures Answers(c, usb, ReplyFor(ControlRequest(c, usb)))
  {
    SetupIs(c);
    hide Describes, ControlRequest, ControlSetup, IsStandard, Recipient;
    if IsGetDescriptor(ControlSetup(c)) {
      DescriptorAnswers(c, usb);
    } else {
      InRequestIs(c, usb);
      var req := ControlRequest(c, usb);
      Int32Word(req.size);
      Int32Word(req.errorCount);
      assert req.data.Some? ==> req.data.value[..req.size] == req.data.value;
    }
  }

  /** The bytes that GET_DESCRIPTOR is about, or the device's error. */
  lemma DescriptorRequestIs(c: Command, usb: Usb)
    requires ControlCommand(c) && c.IsIn() && usb.Valid() && IsGetDescriptor(ControlSetup(c))
    ensures ControlRequest(c, usb) == Describe(c, usb)
    ensures var (s, d) := (c.setup, DescriptorData(c, usb));
      var (index, kind, language) := (s[2] as int, s[3] as int, s[4] as int + 256 * s[5] as int);
      && ControlSetup(c).length == s[6] as int + 256 * s[7] as int
      && (kind == 1 ==> d == Data(usb.device)) && (kind == 2 ==> d == Data(usb.config))
      && (kind == 15 ==> d == Data(usb.bos)) && (kind == 34 ==> d == Data(usb.report))
      && (kind == 3 ==> d == Data(if language !in usb.strings || index > |usb.strings[language]| then []
                                  else usb.strings[language][if index == 0 then 0 else index - 1]))
      && (kind !in {1, 2, 3, 15, 34} ==> d == usb.answer)
  {
    var s := c.setup;
    assert ControlSetup(c).value / 256 == s[3] && ControlSetup(c).value % 256 == s[2];
  }

  lemma DescriptorServed(c: Command, usb: Usb)
    requires ControlCommand(c) && c.IsIn() && usb.Valid()
    ensures Describe(c, usb).Readable()
    ensures var r := ReplyFor(Describe(c, usb));
      && Echoes(c, r) && r.errorCount == 0 && r.actualLength == |r.payload|
      && match DescriptorData(c, usb)
         case Data(bytes) => Serves(bytes, ControlSetup(c).length, r)
         case Failed(error) => r.status == error && r.payload == []
  {
    hide DescriptorData, ControlSetup;
    match DescriptorData(c, usb)
    case Data(bytes) =>
      var n := Min(|bytes|, ControlSetup(c).length);
      Int32Word(n);
      assert ReplyFor(Describe(c, usb)).payload == bytes[..n];
    case Failed(error) =>
  }

  lemma DescriptorAnswers(c: Command, usb: Usb)
    requires ControlCommand(c) && c.IsIn() && usb.Valid() && IsGetDescriptor(ControlSetup(c))
    ensures ControlRequest(c, usb).Readable()
    ensures var r := ReplyFor(ControlRequest(c, usb));
      Describes(c.setup, usb, r) && Echoes(c, r) && r.errorCount == 0 && r.actualLength == |r.payload|
  {
    DescriptorRequestIs(c, usb);
    DescriptorServed(c, usb);
    hide ControlRequest, DescriptorData, ControlSetup, IsGetDescriptor, Describe, ReplyFor, ReplyRequest.Readable;
  }

  /** The length and the status an OUT request is answered with. */
  lemma OutRequestIs(c: Command, usb: Usb)
    requires ControlCommand(c) && c.IsOut() && usb.Valid()
    ensures var (s, req) := (c.setup, ControlRequest(c, usb));
      var (standard, recipient, request) := (s[0] / 32 % 4 == 0, s[0] % 32, s[1]);
      && req.cmd == c && req.errorCount == 0
      && if standard && recipient == 0 && request == 9 then req.status == 0 && req.size == c.bufferLength
         else if standard && recipient == 0 && request == 0x31 then req.status == 0 && req.size == 0
         else if standard && recipient == 1 && request == 0x0a then req.status == 0 && req.size == 1
         else
           && req.size == s[6] as int + 256 * s[7] as int
           && req.status == if (standard && recipient == 1 && request == 0x0b) || usb.answer.Data? then 0
                            else usb.answer.error
    {
    SetupIs(c);
    SmallSize(c.bufferLength);
    hide ControlSetup, IsStandard, Recipient;
  }

  lemma SetupIs(c: Command)
    requires c.CmdSubmit? && |c.setup| == 8
    ensures var (b, s) := (c.setup, ControlSetup(c));
      && (IsStandard(s) <==> b[0] / 32 % 4 == 0) && Recipient(s) == b[0] % 32 && s.request == b[1]
      && s.length == b[6] as int + 256 * b[7] as int
  {
  }

  lemma SmallSize(n: i32)
    ensures n >= 0 ==> n % TWO_64 == n
  {
  }

  lemma OutReplyAnswers(c: Command, usb: Usb)
    requires ControlCommand(c) && c.IsOut() && usb.Valid() && ControlRequest(c, usb).Readable()
    ensures Answers(c, usb, ReplyFor(ControlRequest(c, usb)))
  {
    hide ControlRequest;
    OutRequestIs(c, usb);
    var req := ControlRequest(c, usb);
    assert req.CopySize() == 0;
    Int32Word(req.size);
    Int32Word(req.errorCount);
  }
}
