/** Runs that show what the engine does not promise. */
module EngineRuns {
  import opened Prelude
  import opened Vhci
  import opened Proxy
  import opened Engine
  import opened EngineInvariants
  import opened EnginePairing
  import Iso

  lemma {:induction false} RunAppend(s: State, before: seq<Step>, m: State, after: seq<Step>, t: State)
    requires |s.eps| == EP_COUNT && |m.eps| == EP_COUNT && Run(s, before, m) && Run(m, after, t)
    ensures Run(s, before + after, t)
    decreases |before|
  {
    if before == [] {
      assert before + after == after;
    } else {
      assert (before + after)[0] == before[0] && (before + after)[1..] == before[1..] + after;
      RunAppend(Next(s, before[0]), before[1..], m, after, t);
    }
  }

  lemma RunOne(s: State, step: Step)
    requires |s.eps| == EP_COUNT && Enabled(s, step)
    ensures Run(s, [step], Next(s, step))
  {
    assert [step][1..] == [];
  }

  lemma RunSnoc(s: State, steps: seq<Step>, m: State, step: Step)
    requires |s.eps| == EP_COUNT && |m.eps| == EP_COUNT && Run(s, steps, m) && Enabled(m, step)
    ensures Run(s, steps + [step], Next(m, step))
  {
    hide Next, Enabled;
    RunOne(m, step);
    RunAppend(s, steps, m, [step], Next(m, step));
  }

  lemma RunFetch(s: State, c: Command)
    requires |s.eps| == EP_COUNT && s.executor == Idle && s.queue == [] && Admissible(s, c)
    ensures Run(s, [Receive(c), Pull], s.(accepted := s.accepted[c.seqnum := c], executor := Holding(c)))
  {
    var m := Next(s, Receive(c));
    RunOne(s, Receive(c));
    RunSnoc(s, [Receive(c)], m, Pull);
    assert Next(m, Pull) == s.(accepted := s.accepted[c.seqnum := c], executor := Holding(c)) by {
      assert m.queue[1..] == s.queue;
    }
    assert [Receive(c)] + [Pull] == [Receive(c), Pull];
  }

  // ------------------------------------------------------------ out-of-order completion

  function Read(seqnum: u32, size: i32): Command {
    CmdSubmit(seqnum, 0, DIR_IN, 1, 0, size, 0, 0, 0, Zeros(8), [])
  }

  /** Take a read from the host to its endpoint's queue. */
  lemma RunIssue(s: State, c: Command) returns (steps: seq<Step>)
    requires |s.eps| == EP_COUNT && s.executor == Idle && s.queue == [] && Admissible(s, c) && IsRead(c)
    ensures Run(s, steps, s.(accepted := s.accepted[c.seqnum := c],
                             eps := s.eps[c.ep := Issued(Started(s.eps[c.ep], c), c)]))
  {
    RunFetch(s, c);
    var m := s.(accepted := s.accepted[c.seqnum := c], executor := Holding(c));
    RunSnoc(s, [Receive(c), Pull], m, StartRead);
    var m' := Next(m, StartRead);
    RunSnoc(s, [Receive(c), Pull] + [StartRead], m', PushRead);
    steps := [Receive(c), Pull] + [StartRead] + [PushRead];
    assert m'.eps[c.ep := Issued(m'.eps[c.ep], c)] == s.eps[c.ep := Issued(Started(s.eps[c.ep], c), c)];
  }

  lemma RunComplete(s: State, c: Command, x: Iso.Transfer) returns (t: State, steps: seq<Step>)
    requires |s.eps| == EP_COUNT && 0 < c.ep < EP_COUNT && c in s.eps[c.ep].flying && Completes(c, x) && x.Valid()
    requires s.eps[c.ep].hand == None && s.eps[c.ep].data == [] && s.eps[c.ep].commands != []
    requires IsRead(s.eps[c.ep].commands[0])
    ensures Run(s, steps, t) && |t.eps| == EP_COUNT && t.accepted == s.accepted
    ensures t.eps[c.ep].lost == s.eps[c.ep].lost
    ensures t.eps[c.ep].started == s.eps[c.ep].started && t.eps[c.ep].done == s.eps[c.ep].done + [Completion(c, x)]
    ensures t.eps[c.ep].answers == s.eps[c.ep].answers + [PairedReply(s.eps[c.ep].commands[0], DataForHost(x))]
    ensures t.replies == s.replies + [PairedReply(s.eps[c.ep].commands[0], DataForHost(x))]
    ensures t.writer == s.writer && t.unlinked == s.unlinked && t.wire == s.wire
  {
    hide PairedReply, DataForHost, Completes;
    RunOne(s, PairPull(c.ep));
    var m := Next(s, PairPull(c.ep));
    RunSnoc(s, [PairPull(c.ep)], m, CompleteRead(c, x));
    var m' := Next(m, CompleteRead(c, x));
    assert m'.eps[c.ep].data == [DataForHost(x)];
    RunSnoc(s, [PairPull(c.ep)] + [CompleteRead(c, x)], m', PairReply(c.ep));
    t, steps := Next(m', PairReply(c.ep)), [PairPull(c.ep)] + [CompleteRead(c, x)] + [PairReply(c.ep)];
  }

  /** Two reads of endpoint 1 are with the device, and their commands queued. */
  lemma RunTwoReads(a: Command, b: Command) returns (steps: seq<Step>, t: State)
    requires IsRead(a) && IsRead(b) && a.WellFormed() && b.WellFormed() && a.seqnum == 1 && b.seqnum == 2
    requires a.ep == b.ep == 1
    ensures Run(Init(), steps, t) && |t.eps| == EP_COUNT
    ensures var e := t.eps[1];
      && e.commands == [a, b] && e.started == [a, b] && e.flying == multiset{a, b} && e.lost == multiset{}
      && e.hand == None && e.data == [] && e.done == [] && e.answers == []
    ensures t.accepted == map[1 := a, 2 := b]
    ensures t.writer == Waiting && t.replies == [] && t.unlinked == {} && t.wire == []
  {
    hide Run, Next, Enabled;
    var s := Init();
    var before := RunIssue(s, a);
    var m := s.(accepted := s.accepted[1 := a], eps := s.eps[1 := Issued(Started(s.eps[1], a), a)]);
    var between := RunIssue(m, b);
    t := m.(accepted := m.accepted[2 := b], eps := m.eps[1 := Issued(Started(m.eps[1], b), b)]);
    RunAppend(s, before, m, between, t);
    steps := before + between;
  }

  /** The assertion in `send_data_to_host` depends on the device: if it completes two
      reads in the other order, the first reply carries the second read's data, more of
      it than the first read had room for. */
  lemma OutOfOrderOverruns()
    ensures exists steps, t ::
      && Run(Init(), steps, t) && |t.eps| == EP_COUNT && |t.eps[1].answers| == 1
      && t.eps[1].answers[0].RetSubmit? && t.eps[1].answers[0].seqnum in t.accepted
      && t.accepted[t.eps[1].answers[0].seqnum].CmdSubmit?
      && t.eps[1].answers[0].actualLength > t.accepted[t.eps[1].answers[0].seqnum].bufferLength
      && !OwnSlot(t.eps[1], 0)
  {
    hide Run, Next, Enabled, Completes, PairedReply, DataForHost;
    var a, b := Read(1, 1), Read(2, 2);
    var before, m := RunTwoReads(a, b);
    var x := Iso.Transfer(Zeros(2), 2, []);
    OutOfOrderAnswer(a, b, x);
    var t, after := RunComplete(m, b, x);
    RunAppend(Init(), before, m, after, t);
  }

  /** A cancelled read shifts the pairing of those behind it: its command is still the
      next to be answered, with the data of the read after it. */
  lemma CancelledReadShifts()
    ensures exists steps, t ::
      && Run(Init(), steps, t) && |t.eps| == EP_COUNT && |t.eps[1].answers| == 1 && |t.eps[1].done| == 1
      && t.eps[1].lost == multiset{Read(1, 1)} && t.eps[1].done[0].cmd == Read(2, 2)
      && t.eps[1].answers[0].RetSubmit? && t.eps[1].answers[0].seqnum == 1
      && t.eps[1].answers[0].actualLength > Read(1, 1).bufferLength
  {
    hide Run, Next, Enabled, Completes, PairedReply, DataForHost;
    var a, b := Read(1, 1), Read(2, 2);
    var before, m := RunTwoReads(a, b);
    CancelIs(m, a);
    var m' := m.(eps := m.eps[1 := Cancelled(m.eps[1], a)]);
    RunSnoc(Init(), before, m, CancelRead(a));
    var x := Iso.Transfer(Zeros(2), 2, []);
    OutOfOrderAnswer(a, b, x);
    var t, after := RunComplete(m', b, x);
    RunAppend(Init(), before + [CancelRead(a)], m', after, t);
  }

  lemma CancelIs(s: State, c: Command)
    requires |s.eps| == EP_COUNT && c.ep < EP_COUNT && c in s.eps[c.ep].flying
    ensures Enabled(s, CancelRead(c)) && Next(s, CancelRead(c)) == s.(eps := s.eps[c.ep := Cancelled(s.eps[c.ep], c)])
  {
  }

  lemma OutOfOrderAnswer(a: Command, b: Command, x: Iso.Transfer)
    requires a == Read(1, 1) && b == Read(2, 2) && x == Iso.Transfer(Zeros(2), 2, [])
    ensures Completes(b, x) && x.Valid()
    ensures IsRead(a) && PairedReply(a, DataForHost(x)).seqnum == 1
    ensures PairedReply(a, DataForHost(x)).actualLength > a.bufferLength
  {
    Int32Word(2);
  }

  function Write(seqnum: u32): Command { CmdSubmit(seqnum, 0, DIR_OUT, 1, 0, 0, 0, 0, 0, Zeros(8), []) }

  /** A write whose transfer is cancelled is never answered: nothing holds it any more. */
  lemma CancelledWriteIsLost()
    ensures exists steps, t ::
      && Run(Init(), steps, t) && 1 in t.accepted && t.cancelled == multiset{1} && t.writes == multiset{}
      && t.queue == [] && t.executor == Idle && t.replies == [] && t.writer == Waiting && t.wire == [] && t.dropped == []
  {
    hide Run, Next, Enabled;
    var s, c := Init(), Write(1);
    RunFetch(s, c) by { WriteIsAdmissible(s, c); }
    var m := s.(accepted := s.accepted[1 := c], executor := Holding(c));
    var m1 := s.(accepted := s.accepted[1 := c], writes := multiset{1});
    var t := s.(accepted := s.accepted[1 := c], cancelled := multiset{1});
    WriteSteps(s, c);
    RunSnoc(s, [Receive(c), Pull], m, StartWrite);
    RunSnoc(s, [Receive(c), Pull] + [StartWrite], m1, CancelWrite(c));
  }

  lemma WriteIsAdmissible(s: State, c: Command)
    requires s == Init() && c == Write(1)
    ensures Admissible(s, c)
  {
  }

  lemma WriteSteps(s: State, c: Command)
    requires s == Init() && c == Write(1)
    ensures var m := s.(accepted := s.accepted[1 := c], executor := Holding(c));
      var m1 := s.(accepted := s.accepted[1 := c], writes := multiset{1});
      && Enabled(m, StartWrite) && Next(m, StartWrite) == m1
      && Enabled(m1, CancelWrite(c)) && Next(m1, CancelWrite(c)) == s.(accepted := s.accepted[1 := c], cancelled := multiset{1})
  {
  }

  // ------------------------------------------------------------------------ late unlink

  /** From a state at rest, push a reply and let the writer write it. */
  lemma RunWrite(s: State, r: Reply)
    requires |s.eps| == EP_COUNT && s.writer == Waiting && s.replies == [r] && r.seqnum !in s.unlinked
    ensures Run(s, [WriterPull, WriterCheck, WriterWrite], s.(replies := [], wire := s.wire + [r]))
  {
    RunOne(s, WriterPull);
    var m := Next(s, WriterPull);
    RunSnoc(s, [WriterPull], m, WriterCheck);
    var m' := Next(m, WriterCheck);
    RunSnoc(s, [WriterPull] + [WriterCheck], m', WriterWrite);
    assert [WriterPull] + [WriterCheck] + [WriterWrite] == [WriterPull, WriterCheck, WriterWrite];
  }

  function IsoRead(seqnum: u32, packets: i32): Command
    requires 0 <= packets
  {
    CmdSubmit(seqnum, 0, DIR_IN, 1, 0, 2, 0, packets, 0, Zeros(8), Zeros(packets * ISO_DESCRIPTOR_SIZE))
  }

  /** Reads with different numbers of packets, completed in the other order: the first
      reply has one descriptor more than its header announces, and a host that reads the
      socket by headers does not get back what was written. */
  lemma MixedPacketsDoNotDecode()
    ensures exists steps, t ::
      && Run(Init(), steps, t) && |t.wire| == 1 && t.wire[0].RetSubmit? && t.wire[0].packets == 1
      && HostReadAll(EncodeReplies(t.wire)) != Some(t.wire)
  {
    hide Run, Next, Enabled, Completes, PairedReply, DataForHost;
    var a, b := IsoRead(1, 1), IsoRead(2, 2);
    var before, m := RunTwoReads(a, b);
    var x := Iso.Transfer(Zeros(2), 2, [Iso.Packet(1, 1, true), Iso.Packet(1, 1, true)]);
    MixedAnswer(a, b, x);
    var r := PairedReply(a, DataForHost(x));
    var m', after := RunComplete(m, b, x);
    RunAppend(Init(), before, m, after, m');
    var t := m'.(replies := [], wire := m'.wire + [r]);
    RunWrite(m', r);
    RunAppend(Init(), before + after, m', [WriterPull, WriterCheck, WriterWrite], t);
    assert t.wire == [r];
    OutboundRoundTrip(t.wire);
  }

  lemma MixedAnswer(a: Command, b: Command, x: Iso.Transfer)
    requires a == IsoRead(1, 1) && b == IsoRead(2, 2)
    requires x == Iso.Transfer(Zeros(2), 2, [Iso.Packet(1, 1, true), Iso.Packet(1, 1, true)])
    ensures Completes(b, x) && x.Valid()
    ensures IsRead(a) && PairedReply(a, DataForHost(x)).seqnum == 1 && PairedReply(a, DataForHost(x)).packets == 1
    ensures !PairedReply(a, DataForHost(x)).Framed()
  {
    assert Completes(b, x);
    CompletedIsValid(b, x);
    PairedIsFramedIff(a, x);
  }

  function Ask(seqnum: u32): Command { CmdSubmit(seqnum, 0, DIR_OUT, 0, 0, 0, 0, 0, 0, Zeros(8), []) }

  lemma RunAsk(s: State, c: Command, usb: Usb) returns (steps: seq<Step>)
    requires |s.eps| == EP_COUNT && s.executor == Idle && s.queue == [] && Admissible(s, c)
    requires IsControl(c) && usb.Valid() && s.writer == Waiting && s.replies == [] && c.seqnum !in s.unlinked
    ensures Run(s, steps, s.(accepted := s.accepted[c.seqnum := c], wire := s.wire + [ControlReply(c, usb)]))
  {
    hide ControlReply;
    RunFetch(s, c);
    var m := s.(accepted := s.accepted[c.seqnum := c], executor := Holding(c));
    RunSnoc(s, [Receive(c), Pull], m, Control(usb));
    var m' := Next(m, Control(usb));
    RunWrite(m', ControlReply(c, usb));
    steps := [Receive(c), Pull] + [Control(usb)] + [WriterPull, WriterCheck, WriterWrite];
    RunAppend(s, [Receive(c), Pull] + [Control(usb)], m', [WriterPull, WriterCheck, WriterWrite],
              m'.(replies := [], wire := s.wire + [ControlReply(c, usb)]));
  }

  lemma RunUnlink(s: State, u: Command) returns (t: State, steps: seq<Step>)
    requires |s.eps| == EP_COUNT && s.executor == Idle && s.queue == [] && Admissible(s, u) && u.CmdUnlink?
    requires s.writer == Waiting && s.replies == [] && s.unlinked == {} && u.seqnum != u.target
    ensures Run(s, steps, t) && t.unlinked == {u.target} && t.dropped == s.dropped
    ensures t.wire == s.wire + [UnlinkReply(u, -ECONNRESET)]
  {
    hide UnlinkReply;
    RunFetch(s, u);
    var m := s.(accepted := s.accepted[u.seqnum := u], executor := Holding(u));
    RunSnoc(s, [Receive(u), Pull], m, RecordUnlink);
    var m1 := Next(m, RecordUnlink);
    RunSnoc(s, [Receive(u), Pull] + [RecordUnlink], m1, ReplyUnlink);
    var m2 := Next(m1, ReplyUnlink);
    RunWrite(m2, UnlinkReply(u, -ECONNRESET));
    t := m2.(replies := [], wire := m2.wire + [UnlinkReply(u, -ECONNRESET)]);
    steps := [Receive(u), Pull] + [RecordUnlink] + [ReplyUnlink] + [WriterPull, WriterCheck, WriterWrite];
    RunAppend(s, [Receive(u), Pull] + [RecordUnlink] + [ReplyUnlink], m2, [WriterPull, WriterCheck, WriterWrite], t);
  }

  /** The USB/IP protocol wants status 0 for an unlink that comes after the target's
      reply (Linux kernel document on the USB/IP protocol, RET_UNLINK). The engine says
      -ECONNRESET, and keeps the number in its set. */
  lemma LateUnlinkSaysReset()
    ensures exists steps, t ::
      && Run(Init(), steps, t) && |t.wire| == 2 && t.dropped == []
      && t.wire[0].RetSubmit? && t.wire[0].seqnum == 1
      && t.wire[1].RetUnlink? && t.wire[1].status == -104
      && t.unlinked == {1}
  {
    hide Run, Next, Enabled;
    var s, c, u := Init(), Ask(1), CmdUnlink(2, 0, DIR_OUT, 0, 1);
    var usb := Usb(false, [], [], map[], [], [], map[], Failed(-1));
    var before := RunAsk(s, c, usb);
    var m := s.(accepted := s.accepted[1 := c], wire := s.wire + [ControlReply(c, usb)]);
    var t, after := RunUnlink(m, u);
    RunAppend(s, before, m, after, t);
  }
}
