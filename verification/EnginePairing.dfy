/** What the pairing of commands with data amounts to in every run: whose data a reply
    carries, and whether the host can tell where it ends. */
module EnginePairing {
  import opened Prelude
  import opened Vhci
  import opened Proxy
  import opened Engine
  import opened EngineInvariants
  import opened EngineProofs
  import opened Replies
  import Iso

  /** Pairing survives every interleaving: the i-th answer of an endpoint is the i-th
      command executed there with the i-th data completed there. Unlinks play no part. */
  lemma AnswersAreZipped(steps: seq<Step>, t: State, ep: nat)
    requires Run(Init(), steps, t) && ep < EP_COUNT == |t.eps|
    ensures var e := t.eps[ep];
      && |e.answers| <= |e.started| && |e.answers| <= |e.done|
      && (forall i :: 0 <= i < |e.done| ==> e.done[i].transfer.Valid())
      && (forall i :: 0 <= i < |e.answers| ==>
            && IsRead(e.started[i])
            && e.answers[i] == PairedReply(e.started[i], DataForHost(e.done[i].transfer))
            && Delivers(e.started[i], e.done[i].transfer, e.answers[i]))
  {
    hide TallyInv, SourcedInv, UnlinkInv, WireSafe, EndpointInv, Delivers, DataForHost;
    InitHolds();
    RunKeeps(Init(), steps, t);
    var e := t.eps[ep];
    ZipIs(t.accepted, IssuingOn(t.executor, ep), e, ep);
    forall i | 0 <= i < |e.answers| ensures Delivers(e.started[i], e.done[i].transfer, e.answers[i]) {
      ReadReplyDelivers(e.started[i], e.done[i].transfer);
    }
  }

  lemma ZipIs(accepted: map<u32, Command>, issuing: seq<Command>, e: Endpoint, ep: nat)
    requires EndpointInv(accepted, issuing, e, ep)
    ensures |e.answers| <= |e.started| && |e.answers| <= |e.done|
    ensures forall i :: 0 <= i < |e.done| ==> e.done[i].transfer.Valid()
    ensures forall i :: 0 <= i < |e.answers| ==>
      && IsRead(e.started[i])
      && e.answers[i] == PairedReply(e.started[i], DataForHost(e.done[i].transfer))
  {
    hide DataForHost, Completes, PairedReply;
  }

  lemma DoneIsRead(accepted: map<u32, Command>, issuing: seq<Command>, e: Endpoint, ep: nat, i: nat)
    requires EndpointInv(accepted, issuing, e, ep) && i < |e.done| && i < |e.started|
    ensures var c := e.done[i].cmd; MapsTo(accepted, c) && IsRead(c) && c.ep == ep && Completes(c, e.done[i].transfer)
    ensures var r := e.started[i]; MapsTo(accepted, r) && IsRead(r) && r.ep == ep
  {
    hide PairedReply, DataForHost, Completes;
    assert CompletedCommands(e.done)[i] == e.done[i].cmd;
    assert e.done[i].cmd in multiset(e.started);
    var j :| 0 <= j < |e.started| && e.started[j] == e.done[i].cmd;
  }

  /** A reply to a read that was written is one of the answers of its endpoint, to that
      read. */
  lemma WrittenIsAnswer(t: State, r: Reply) returns (i: nat)
    requires Inv(t) && |t.eps| == EP_COUNT && r in t.wire && r.seqnum in t.accepted && IsRead(t.accepted[r.seqnum])
    ensures var c := t.accepted[r.seqnum]; var e := t.eps[c.ep];
      i < |e.answers| && i < |e.started| && i < |e.done| && e.answers[i] == r && e.started[i] == c
  {
    hide TallyInv, UnlinkInv, WireSafe, EndpointInv;
    var k :| 0 <= k < |t.wire| && t.wire[k] == r;
    assert Sourced(t.accepted, t.reset, t.eps, t.wire[k]);
    var ep := t.accepted[r.seqnum].ep;
    i :| 0 <= i < |t.eps[ep].answers| && t.eps[ep].answers[i] == r;
    AnswerIsTo(t.accepted, IssuingOn(t.executor, ep), t.eps[ep], ep, i);
  }

  lemma AnswerIsTo(accepted: map<u32, Command>, issuing: seq<Command>, e: Endpoint, ep: nat, i: nat)
    requires EndpointInv(accepted, issuing, e, ep) && i < |e.answers|
    ensures i < |e.started| && i < |e.done| && IsRead(e.started[i]) && MapsTo(accepted, e.started[i])
    ensures e.answers[i].seqnum == e.started[i].seqnum && e.done[i].transfer.Valid()
    ensures e.answers[i] == PairedReply(e.started[i], DataForHost(e.done[i].transfer))
  {
    hide DataForHost, Completes;
    assert e.issued[i] == e.started[i];
  }

  // ------------------------------------------------------------------------ own data

  /** What was completed as the i-th is what was started as the i-th. */
  predicate OwnSlot(e: Endpoint, i: nat) {
    i < |e.done| && i < |e.started| && e.done[i].cmd == e.started[i]
  }

  /** The device completed the reads of an endpoint in the order they were started. */
  predicate InOrder(e: Endpoint) { forall i :: 0 <= i < |e.done| ==> OwnSlot(e, i) }

  /** r is what the host is owed for c: the data of c's own transfer, byte for byte and no
      larger than the buffer it offered, behind a header that announces exactly it. */
  ghost predicate CarriesOwnData(e: Endpoint, c: Command, r: Reply) {
    exists i ::
      && 0 <= i < |e.done| && e.done[i].cmd == c && Completes(c, e.done[i].transfer) && e.done[i].transfer.Valid()
      && IsRead(c)
      && r == PairedReply(c, DataForHost(e.done[i].transfer))
      && Delivers(c, e.done[i].transfer, r) && r.actualLength <= c.bufferLength
      && r.Framed()
  }

  /** If the device completed a read in its turn, the reply to it carries its own data,
      in whatever order all others complete. */
  lemma OwnAnswer(accepted: map<u32, Command>, issuing: seq<Command>, e: Endpoint, ep: nat, i: nat)
    requires EndpointInv(accepted, issuing, e, ep) && i < |e.answers| && OwnSlot(e, i)
    ensures CarriesOwnData(e, e.started[i], e.answers[i])
  {
    hide PairedReply, DataForHost, Completes, Delivers;
    AnswerIsTo(accepted, issuing, e, ep, i);
    DoneIsRead(accepted, issuing, e, ep, i);
    PairedDelivers(e.started[i], e.done[i].transfer);
  }

  lemma PairedDelivers(c: Command, x: Iso.Transfer)
    requires IsRead(c) && Completes(c, x)
    ensures x.Valid()
    ensures var r := PairedReply(c, DataForHost(x)); Delivers(c, x, r) && r.Framed() && r.actualLength <= c.bufferLength
  {
    hide Delivers;
    OwnDataIsFramed(c, x);
    ReadReplyDelivers(c, x);
    Int32Word(DataForHost(x).DataSize());
  }

  // ------------------------------------------------------------------ what replies say

  /** In every run, every reply on the wire says what was done for its command: to a
      read, the data of the transfer in its slot; to a write, how its own transfer ended;
      to a control request, what the device answered; to an unlink, whether it was news. */
  lemma EveryReplyMeans(steps: seq<Step>, t: State, k: nat)
    requires Run(Init(), steps, t) && |t.eps| == EP_COUNT && k < |t.wire|
    ensures t.wire[k].seqnum in t.accepted
    ensures var r := t.wire[k]; var c := t.accepted[r.seqnum];
      && (IsRead(c) ==> exists i ::
            && 0 <= i < |t.eps[c.ep].done| && i < |t.eps[c.ep].started| && t.eps[c.ep].started[i] == c
            && t.eps[c.ep].done[i].transfer.Valid() && Delivers(c, t.eps[c.ep].done[i].transfer, r))
      && (IsWrite(c) ==> exists x: Iso.Transfer :: Completes(c, x) && x.Valid() && Reports(c, x, r))
      && (IsControl(c) ==> exists usb: Usb :: usb.Valid() && Answers(c, usb, r))
      && (c.CmdUnlink? ==> r.RetUnlink? && r.devid == c.devid && r.status in {0, -104})
      && (IsRead(c) || IsWrite(c) || IsControl(c) || c.CmdUnlink?)
  {
    hide EndpointInv, TallyInv, UnlinkInv, WireSafe, Delivers, Reports, Answers, Completes, DataForHost;
    InitHolds();
    RunKeeps(Init(), steps, t);
    assert Sourced(t.accepted, t.reset, t.eps, t.wire[k]);
    var c := t.accepted[t.wire[k].seqnum];
    if IsRead(c) {
      var i := WrittenIsAnswer(t, t.wire[k]);
      AnswerIsTo(t.accepted, IssuingOn(t.executor, c.ep), t.eps[c.ep], c.ep, i);
      ReadReplyDelivers(c, t.eps[c.ep].done[i].transfer);
    }
  }

  /** Every reply written for a read is the answer in some slot of its endpoint, and
      carries the read's own data if the device completed that slot in its turn. */
  lemma OwnDataOnWire(steps: seq<Step>, t: State, k: nat) returns (i: nat)
    requires Run(Init(), steps, t) && |t.eps| == EP_COUNT
    requires k < |t.wire| && t.wire[k].seqnum in t.accepted && IsRead(t.accepted[t.wire[k].seqnum])
    ensures var c := t.accepted[t.wire[k].seqnum]; var e := t.eps[c.ep];
      && i < |e.answers| && i < |e.started| && e.answers[i] == t.wire[k] && e.started[i] == c
      && (OwnSlot(e, i) ==> CarriesOwnData(e, c, t.wire[k]))
  {
    hide CarriesOwnData, EndpointInv, TallyInv, SourcedInv, UnlinkInv, WireSafe;
    InitHolds();
    RunKeeps(Init(), steps, t);
    i := WrittenIsAnswer(t, t.wire[k]);
    var ep := t.accepted[t.wire[k].seqnum].ep;
    if OwnSlot(t.eps[ep], i) { OwnAnswer(t.accepted, IssuingOn(t.executor, ep), t.eps[ep], ep, i); }
  }

  // One read at a time.

  /** No read of the endpoint is started while another is with the device, and none is
      cancelled. */
  ghost predicate OneAtATime(s: State, steps: seq<Step>, ep: nat)
    requires |s.eps| == EP_COUNT && ep < EP_COUNT
    decreases |steps|
  {
    steps == [] ||
    (Enabled(s, steps[0]) && Alone(s, steps[0], ep) && OneAtATime(Next(s, steps[0]), steps[1..], ep))
  }

  ghost predicate Alone(s: State, step: Step, ep: nat)
    requires |s.eps| == EP_COUNT && ep < EP_COUNT && Enabled(s, step)
  {
    && (step.StartRead? && s.executor.cmd.ep == ep ==> s.eps[ep].flying == multiset{})
    && !(step.CancelRead? && step.cmd.ep == ep)
  }

  ghost predicate Serial(e: Endpoint) {
    && InOrder(e)
    && (if |e.started| == |e.done| then e.flying == multiset{}
        else |e.started| == |e.done| + 1 && e.flying == multiset{e.started[|e.done|]})
  }

  lemma SerialStarted(e: Endpoint, c: Command)
    requires Serial(e) && e.flying == multiset{}
    ensures Serial(Started(e, c))
  {
    var e' := Started(e, c);
    forall i | 0 <= i < |e'.done| ensures OwnSlot(e', i) { assert OwnSlot(e, i); }
    assert e'.flying == multiset{c};
  }

  lemma SerialCompleted(e: Endpoint, c: Command, x: Iso.Transfer)
    requires Serial(e) && c in e.flying && x.Valid()
    ensures Serial(Completed(e, c, x))
  {
    hide DataForHost;
    var e' := Completed(e, c, x);
    assert c == e.started[|e.done|] && e'.flying == multiset{};
    forall i | 0 <= i < |e'.done| ensures OwnSlot(e', i) {
      if i < |e.done| { assert OwnSlot(e, i); }
    }
  }

  /** The other steps leave all that Serial looks at as it was. */
  lemma SerialSame(e: Endpoint, e': Endpoint)
    requires Serial(e) && e'.started == e.started && e'.done == e.done && e'.flying == e.flying
    ensures Serial(e')
  {
    forall i | 0 <= i < |e'.done| ensures OwnSlot(e', i) { assert OwnSlot(e, i); }
  }

  lemma SerialStep(s: State, step: Step, ep: nat)
    requires |s.eps| == EP_COUNT && ep < EP_COUNT && Enabled(s, step) && Alone(s, step, ep) && Serial(s.eps[ep])
    ensures |Next(s, step).eps| == EP_COUNT && Serial(Next(s, step).eps[ep])
  {
    hide Serial, Admissible, Completes, DataForHost, PairedReply, ControlReply, WriteReply, UnlinkReply;
    var e := s.eps[ep];
    match step {
      case StartRead => if s.executor.cmd.ep == ep { SerialStarted(e, s.executor.cmd); }
      case CompleteRead(c, x) => if c.ep == ep { SerialCompleted(e, c, x); }
      case _ => SerialSame(e, Next(s, step).eps[ep]);
    }
  }

  lemma {:induction false} SerialRun(s: State, steps: seq<Step>, t: State, ep: nat)
    requires |s.eps| == EP_COUNT && ep < EP_COUNT && Run(s, steps, t) && OneAtATime(s, steps, ep) && Serial(s.eps[ep])
    ensures |t.eps| == EP_COUNT && Serial(t.eps[ep])
    decreases |steps|
  {
    hide Next, Enabled, Serial, Alone;
    if steps != [] {
      SerialStep(s, steps[0], ep);
      SerialRun(Next(s, steps[0]), steps[1..], t, ep);
    }
  }

  /** So every reply carries its own data when one read is with the device at a time and
      none is cancelled, however slow the threads are. */
  lemma OneAtATimeIsOwn(steps: seq<Step>, t: State, ep: nat, i: nat)
    requires Run(Init(), steps, t) && |t.eps| == EP_COUNT
    requires ep < EP_COUNT && OneAtATime(Init(), steps, ep) && i < |t.eps[ep].answers|
    ensures var e := t.eps[ep]; i < |e.started| && CarriesOwnData(e, e.started[i], e.answers[i])
  {
    hide CarriesOwnData, EndpointInv, TallyInv, SourcedInv, UnlinkInv, WireSafe, OneAtATime, Run;
    InitHolds();
    RunKeeps(Init(), steps, t);
    SerialRun(Init(), steps, t, ep);
    AnswerIsTo(t.accepted, IssuingOn(t.executor, ep), t.eps[ep], ep, i);
    assert OwnSlot(t.eps[ep], i);
    OwnAnswer(t.accepted, IssuingOn(t.executor, ep), t.eps[ep], ep, i);
  }

  // ------------------------------------------------------------------------- framing

  /** A read with packets was paired with data of as many packets. */
  predicate PacketsMatch(c: Command, x: Iso.Transfer) {
    c.CmdSubmit? && (c.IsIso() ==> |x.packets| == c.packets)
  }

  /** A reply announces exactly its payload if and only if the packets match. */
  lemma PairedIsFramedIff(c: Command, x: Iso.Transfer)
    requires IsRead(c) && x.Valid()
    ensures PairedReply(c, DataForHost(x)).Framed() <==> PacketsMatch(c, x)
  {
    var d := DataForHost(x);
    assert d.DataSize() < TWO_31 by { if x.IsIso() { Iso.SizesAgree(x); } }
    Int32Word(d.DataSize());
  }

  predicate SlotMatches(e: Endpoint, i: nat) {
    i < |e.done| && i < |e.started| && PacketsMatch(e.started[i], e.done[i].transfer)
  }

  lemma AnswerIsFramedIff(accepted: map<u32, Command>, issuing: seq<Command>, e: Endpoint, ep: nat, i: nat)
    requires EndpointInv(accepted, issuing, e, ep) && i < |e.answers|
    ensures e.answers[i].Framed() <==> SlotMatches(e, i)
  {
    hide EndpointInv, PairedReply, DataForHost;
    AnswerIsTo(accepted, issuing, e, ep, i);
    PairedIsFramedIff(e.started[i], e.done[i].transfer);
  }

  /** In every run, in whatever order the device completes and whatever is cancelled, the
      bytes on the socket decode, by headers alone, to exactly the replies written if and
      only if every answer among them pairs a read with data of as many packets. */
  lemma WireDecodesIff(steps: seq<Step>, t: State)
    requires Run(Init(), steps, t) && |t.eps| == EP_COUNT
    ensures HostReadAll(EncodeReplies(t.wire)) == Some(t.wire) <==>
      forall ep, i :: 0 <= ep < EP_COUNT && 0 <= i < |t.eps[ep].answers| && t.eps[ep].answers[i] in t.wire ==>
        SlotMatches(t.eps[ep], i)
  {
    hide EndpointInv, TallyInv, UnlinkInv, WireSafe, SlotMatches, Reply.Framed, HostReadAll, EncodeReplies;
    InitHolds();
    RunKeeps(Init(), steps, t);
    OutboundRoundTrip(t.wire);
    forall ep, i | 0 <= ep < EP_COUNT && 0 <= i < |t.eps[ep].answers|
      ensures t.eps[ep].answers[i].Framed() <==> SlotMatches(t.eps[ep], i)
    {
      AnswerIsFramedIff(t.accepted, IssuingOn(t.executor, ep), t.eps[ep], ep, i);
    }
    forall r | r in t.wire
      ensures r.Framed() || exists ep, i :: 0 <= ep < EP_COUNT && 0 <= i < |t.eps[ep].answers| && t.eps[ep].answers[i] == r
    {
      WrittenIsFramedOrAnswer(t, r);
    }
  }

  lemma WrittenIsFramedOrAnswer(t: State, r: Reply)
    requires Inv(t) && |t.eps| == EP_COUNT && r in t.wire
    ensures r.Framed() || exists ep, i :: 0 <= ep < EP_COUNT && 0 <= i < |t.eps[ep].answers| && t.eps[ep].answers[i] == r
  {
    hide EndpointInv, TallyInv, UnlinkInv, WireSafe;
    var k :| 0 <= k < |t.wire| && t.wire[k] == r;
    assert Sourced(t.accepted, t.reset, t.eps, t.wire[k]);
    if IsRead(t.accepted[r.seqnum]) {
      var i := WrittenIsAnswer(t, r);
    }
  }

  /** Two reads of one endpoint ask for as many packets. */
  predicate Alike(c: Command, r: Command) {
    IsRead(c) && IsRead(r) && c.ep == r.ep ==> c.packets == r.packets
  }

  /** A condition the host can keep: with one number of packets for all the reads of an
      endpoint, the socket decodes in every run. */
  lemma AlikeDecodes(steps: seq<Step>, t: State)
    requires Run(Init(), steps, t)
    requires forall n, m :: n in t.accepted && m in t.accepted ==> Alike(t.accepted[n], t.accepted[m])
    ensures HostReadAll(EncodeReplies(t.wire)) == Some(t.wire)
  {
    hide EndpointInv, TallyInv, SourcedInv, UnlinkInv, WireSafe, HostReadAll, EncodeReplies;
    InitHolds();
    RunKeeps(Init(), steps, t);
    forall ep, i | 0 <= ep < EP_COUNT && 0 <= i < |t.eps[ep].answers| ensures SlotMatches(t.eps[ep], i) {
      var e := t.eps[ep];
      AnswerIsTo(t.accepted, IssuingOn(t.executor, ep), e, ep, i);
      DoneIsRead(t.accepted, IssuingOn(t.executor, ep), e, ep, i);
      assert Alike(t.accepted[e.done[i].cmd.seqnum], t.accepted[e.started[i].seqnum]);
    }
    WireDecodesIff(steps, t);
  }

  /** So it does when the device completes in order. */
  lemma WireDecodesInOrder(steps: seq<Step>, t: State)
    requires Run(Init(), steps, t) && |t.eps| == EP_COUNT
    requires forall ep :: 0 <= ep < EP_COUNT ==> InOrder(t.eps[ep])
    ensures HostReadAll(EncodeReplies(t.wire)) == Some(t.wire)
  {
    hide EndpointInv, TallyInv, SourcedInv, UnlinkInv, WireSafe, HostReadAll, EncodeReplies;
    InitHolds();
    RunKeeps(Init(), steps, t);
    forall ep, i | 0 <= ep < EP_COUNT && 0 <= i < |t.eps[ep].answers| ensures SlotMatches(t.eps[ep], i) {
      var e := t.eps[ep];
      AnswerIsTo(t.accepted, IssuingOn(t.executor, ep), e, ep, i);
      DoneIsRead(t.accepted, IssuingOn(t.executor, ep), e, ep, i);
      assert OwnSlot(e, i);
    }
    WireDecodesIff(steps, t);
  }
}
