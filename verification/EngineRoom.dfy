/** Room for the data: exactly when a reply can carry more than its read offered to take
    (the assertion in `send_data_to_host`, usb_basic_impl.cpp). */
module EngineRoom {
  import opened Prelude
  import opened Vhci
  import opened Proxy
  import opened Engine
  import opened EngineInvariants
  import opened EngineProofs
  import opened EngineTheorems
  import opened EnginePairing
  import Iso

  // ------------------------------------------------------------- what a read can bring

  /** The room a read offers. */
  function Room(c: Command): int { if c.CmdSubmit? then c.bufferLength else 0 }

  /** The most data the device can deliver for it: what its packets add up to. */
  function MostData(c: Command): int {
    if c.CmdSubmit? && c.IsIso() && c.packets > 0 then c.packets * (c.bufferLength / c.packets) else Room(c)
  }

  lemma AtMostMostData(c: Command, x: Iso.Transfer)
    requires Completes(c, x)
    ensures x.Valid() && DataForHost(x).DataSize() <= MostData(c)
  {
    CompletedIsValid(c, x);
    if x.IsIso() {
      TotalOfUniform(x.packets, |x.buffer| / |x.packets|);
      Iso.SizesAgree(x);
      Iso.GatherSize(x.buffer, x.packets, 0);
    }
  }

  /** A transfer that fills every packet. */
  ghost function FullTransfer(c: Command): Iso.Transfer
    requires c.CmdSubmit? && c.WellFormed()
  {
    var n := if c.IsIso() then c.packets as nat else 0;
    var size := if n == 0 then 0 else c.bufferLength / n;
    Iso.Transfer(Zeros(c.bufferLength), c.bufferLength, seq(n, i => Iso.Packet(size, size, true)))
  }

  lemma {:induction false} TotalOfFull(ps: seq<Iso.Packet>, size: nat)
    requires forall p :: p in ps ==> p.actual == size
    ensures Iso.TotalActual(ps) == |ps| * size
  {
    if ps != [] { TotalOfFull(ps[1..], size); }
  }

  lemma MostDataIsReached(c: Command)
    requires c.CmdSubmit? && c.WellFormed() && (c.IsIn() || c.IsOut())
    ensures Completes(c, FullTransfer(c)) && FullTransfer(c).Valid()
    ensures DataForHost(FullTransfer(c)).DataSize() == MostData(c)
  {
    var x := FullTransfer(c);
    assert forall p :: p in x.packets ==> |x.packets| > 0;
    CompletedIsValid(c, x);
    if c.IsIso() { TotalOfFull(x.packets, c.bufferLength / c.packets); }
  }

  // ---------------------------------------------------------------- the next completion

  /** Whichever of the reads in flight completes next, its data fits the read it will
      be paired with: the one started as the k-th, k completions having gone before. */
  ghost predicate RoomFor(e: Endpoint) {
    forall c :: c in e.flying ==> |e.done| < |e.started| && MostData(c) <= Room(e.started[|e.done|])
  }

  lemma SlotExists(accepted: map<u32, Command>, issuing: seq<Command>, e: Endpoint, ep: nat, c: Command)
    requires EndpointInv(accepted, issuing, e, ep) && c in e.flying
    ensures |e.done| < |e.started|
  {
    hide Zipped;
    assert |multiset(e.started)| == |multiset(CompletedCommands(e.done))| + |e.flying| + |e.lost|;
  }

  lemma FlyingCanFill(s: State, ep: nat, c: Command)
    requires Inv(s) && ep < EP_COUNT == |s.eps| && c in s.eps[ep].flying
    ensures c.CmdSubmit? && c.WellFormed() && c.ep == ep
    ensures FullTransfer(c).Valid() && Enabled(s, CompleteRead(c, FullTransfer(c)))
    ensures DataForHost(FullTransfer(c)).DataSize() == MostData(c)
    ensures |s.eps[ep].done| < |s.eps[ep].started|
  {
    hide TallyInv, SourcedInv, UnlinkInv, WireSafe, EndpointInv, FullTransfer, Completes, DataForHost;
    FlyingIsRead(s.accepted, IssuingOn(s.executor, ep), s.eps[ep], ep, c);
    SlotExists(s.accepted, IssuingOn(s.executor, ep), s.eps[ep], ep, c);
    MostDataIsReached(c);
  }

  /** No completion that may come next brings more than there is room for, if and only if
      none of the reads in flight could. */
  lemma RoomForIff(s: State, ep: nat)
    requires Inv(s) && ep < EP_COUNT == |s.eps|
    ensures (forall c: Command, x: Iso.Transfer :: c.ep == ep && Enabled(s, CompleteRead(c, x)) ==>
              && |s.eps[ep].done| < |s.eps[ep].started|
              && DataForHost(x).DataSize() <= Room(s.eps[ep].started[|s.eps[ep].done|]))
       <==> RoomFor(s.eps[ep])
  {
    hide Inv, MostData, FullTransfer, Completes, DataForHost;
    forall c | c in s.eps[ep].flying
      ensures c.CmdSubmit? && c.WellFormed() && c.ep == ep
      ensures FullTransfer(c).Valid() && Enabled(s, CompleteRead(c, FullTransfer(c)))
      ensures DataForHost(FullTransfer(c)).DataSize() == MostData(c)
    {
      FlyingCanFill(s, ep, c);
    }
    forall c: Command, x: Iso.Transfer | c.ep == ep && Enabled(s, CompleteRead(c, x)) ensures x.Valid() && DataForHost(x).DataSize() <= MostData(c) {
      AtMostMostData(c, x);
    }
  }

  // ----------------------------------------------------------- what follows in every run

  /** What was completed and started stays. */
  lemma HistoryStep(s: State, step: Step, ep: nat)
    requires |s.eps| == EP_COUNT && Enabled(s, step) && ep < EP_COUNT
    ensures |Next(s, step).eps| == EP_COUNT
    ensures s.eps[ep].done <= Next(s, step).eps[ep].done && s.eps[ep].started <= Next(s, step).eps[ep].started
    ensures !(step.CompleteRead? && step.cmd.ep == ep) ==> Next(s, step).eps[ep].done == s.eps[ep].done
    ensures step.CompleteRead? && step.cmd.ep == ep ==>
      Next(s, step).eps[ep].done == s.eps[ep].done + [Completion(step.cmd, step.transfer)]
  {
    hide Completes, DataForHost, PairedReply, ControlReply, WriteReply, UnlinkReply;
  }

  lemma {:induction false} HistoryGrows(s: State, steps: seq<Step>, t: State, ep: nat)
    requires |s.eps| == EP_COUNT && Run(s, steps, t) && ep < EP_COUNT
    ensures |t.eps| == EP_COUNT && s.eps[ep].done <= t.eps[ep].done && s.eps[ep].started <= t.eps[ep].started
    decreases |steps|
  {
    hide Next, Enabled;
    if steps != [] {
      HistoryStep(s, steps[0], ep);
      HistoryGrows(Next(s, steps[0]), steps[1..], t, ep);
    }
  }

  /** Every reply to a read of this endpoint carries no more than the read had room for. */
  ghost predicate NoOverrun(e: Endpoint) {
    forall i :: 0 <= i < |e.answers| ==> AnswerFits(e, i)
  }

  ghost predicate AnswerFits(e: Endpoint, i: nat) {
    i < |e.answers| && i < |e.started| && e.answers[i].RetSubmit? && e.answers[i].actualLength <= Room(e.started[i])
  }

  ghost predicate DataFits(e: Endpoint, i: nat) {
    && i < |e.done| && i < |e.started| && e.done[i].transfer.Valid()
    && DataForHost(e.done[i].transfer).DataSize() <= Room(e.started[i])
  }

  /** A reply announces what its transfer brought. */
  lemma AnswerIsData(accepted: map<u32, Command>, issuing: seq<Command>, e: Endpoint, ep: nat, i: nat)
    requires EndpointInv(accepted, issuing, e, ep) && i < |e.answers|
    ensures i < |e.done| && i < |e.started| && e.answers[i].RetSubmit? && e.done[i].transfer.Valid()
    ensures e.answers[i].actualLength == DataForHost(e.done[i].transfer).DataSize()
    ensures AnswerFits(e, i) <==> DataFits(e, i)
  {
    hide Iso.Describe, Iso.IsoData;
    var x := e.done[i].transfer;
    assert e.issued[i] == e.started[i] && Completes(e.done[i].cmd, x);
    AtMostMostData(e.done[i].cmd, x);
    OwnDataIsFramed(e.done[i].cmd, x);
    Int32Word(DataForHost(x).DataSize());
  }

  /** Every completion of the run, on this endpoint, came when there was room. */
  ghost predicate Roomy(s: State, steps: seq<Step>, ep: nat)
    requires |s.eps| == EP_COUNT && ep < EP_COUNT
    decreases |steps|
  {
    steps == [] ||
    (Enabled(s, steps[0]) && (steps[0].CompleteRead? && steps[0].cmd.ep == ep ==> RoomFor(s.eps[ep]))
     && Roomy(Next(s, steps[0]), steps[1..], ep))
  }

  lemma RoomyStep(s: State, step: Step, ep: nat)
    requires Inv(s) && ep < EP_COUNT == |s.eps| && Enabled(s, step)
    requires forall i :: 0 <= i < |s.eps[ep].done| ==> DataFits(s.eps[ep], i)
    requires step.CompleteRead? && step.cmd.ep == ep ==> RoomFor(s.eps[ep])
    ensures |Next(s, step).eps| == EP_COUNT
    ensures forall i :: 0 <= i < |Next(s, step).eps[ep].done| ==> DataFits(Next(s, step).eps[ep], i)
  {
    hide Inv, Next, MostData, Room, DataForHost, Completes;
    HistoryStep(s, step, ep);
    var e, e' := s.eps[ep], Next(s, step).eps[ep];
    if step.CompleteRead? && step.cmd.ep == ep { AtMostMostData(step.cmd, step.transfer); }
    forall i | 0 <= i < |e'.done| ensures DataFits(e', i) {
      if i < |e.done| { assert DataFits(e, i) && e'.done[i] == e.done[i] && e'.started[i] == e.started[i]; }
    }
  }

  lemma {:induction false} RoomyRun(s: State, steps: seq<Step>, t: State, ep: nat)
    requires Inv(s) && ep < EP_COUNT == |s.eps| && Run(s, steps, t) && Roomy(s, steps, ep)
    requires forall i :: 0 <= i < |s.eps[ep].done| ==> DataFits(s.eps[ep], i)
    ensures Inv(t) && |t.eps| == EP_COUNT && forall i :: 0 <= i < |t.eps[ep].done| ==> DataFits(t.eps[ep], i)
    decreases |steps|
  {
    hide Inv, Next, Enabled, DataFits, RoomFor;
    if steps != [] {
      StepKeeps(s, steps[0]);
      RoomyStep(s, steps[0], ep);
      RoomyRun(Next(s, steps[0]), steps[1..], t, ep);
    } else {
      RunKeeps(s, steps, t);
    }
  }

  /** In a run in which there is always room, in whatever order the device completes, no
      reply overruns its read. */
  lemma RoomyNeverOverruns(steps: seq<Step>, t: State, ep: nat)
    requires Run(Init(), steps, t) && ep < EP_COUNT && Roomy(Init(), steps, ep)
    ensures |t.eps| == EP_COUNT && NoOverrun(t.eps[ep])
  {
    hide DataFits, AnswerFits, EndpointInv, TallyInv, SourcedInv, UnlinkInv, WireSafe;
    InitHolds();
    RoomyRun(Init(), steps, t, ep);
    forall i | 0 <= i < |t.eps[ep].answers| ensures AnswerFits(t.eps[ep], i) {
      AnswerIsData(t.accepted, IssuingOn(t.executor, ep), t.eps[ep], ep, i);
    }
  }

  predicate Suits(c: Command, r: Command, ep: nat) {
    IsRead(c) && IsRead(r) && c.ep == ep == r.ep ==> MostData(c) <= Room(r)
  }

  /** So it is, for one, when no read of the endpoint can bring more than any other has
      room for: when the host sends reads of one size. */
  lemma OneSizeNeverOverruns(steps: seq<Step>, t: State, ep: nat)
    requires Run(Init(), steps, t) && ep < EP_COUNT
    requires forall n, m :: n in t.accepted && m in t.accepted ==> Suits(t.accepted[n], t.accepted[m], ep)
    ensures |t.eps| == EP_COUNT && NoOverrun(t.eps[ep])
  {
    hide MostData, Room, AnswerFits, EndpointInv, TallyInv, SourcedInv, UnlinkInv, WireSafe;
    InitHolds();
    RunKeeps(Init(), steps, t);
    var e := t.eps[ep];
    forall i | 0 <= i < |e.answers| ensures AnswerFits(e, i) {
      AnswerIsData(t.accepted, IssuingOn(t.executor, ep), e, ep, i);
      DoneIsRead(t.accepted, IssuingOn(t.executor, ep), e, ep, i);
      AtMostMostData(e.done[i].cmd, e.done[i].transfer);
      var c, r := e.done[i].cmd, e.started[i];
      assert Suits(t.accepted[c.seqnum], t.accepted[r.seqnum], ep);
    }
  }

  // ------------------------------------------------------------ without room, it happens

  /** What the pairing thread does next: it can always go on while there is data. */
  lemma PairingGoesOn(s: State, ep: nat, k: nat) returns (step: Step)
    requires Inv(s) && ep < EP_COUNT == |s.eps| && |s.eps[ep].answers| <= k < |s.eps[ep].done| && k < |s.eps[ep].started|
    ensures Enabled(s, step) && (step == PairReply(ep) || step == PairPull(ep) || step == PushRead)
    ensures step == PairPull(ep) ==> s.eps[ep].hand == None
    ensures step == PushRead ==> s.eps[ep].Pending() == []
  {
    hide TallyInv, SourcedInv, UnlinkInv, WireSafe, PairedReply, DataForHost, Completes;
    var e := s.eps[ep];
    assert EndpointInv(s.accepted, IssuingOn(s.executor, ep), e, ep);
    if e.hand.Some? {
      AnsweredEndpoint(e);
      step := PairReply(ep);
    } else if e.commands != [] {
      step := PairPull(ep);
    } else {
      step := PushRead;
      assert e.issued[|e.answers|..] == [] && IssuingOn(s.executor, ep) != [];
    }
  }

  function Waits(e: Endpoint): nat { if e.hand.Some? then 0 else if e.commands != [] then 1 else 2 }

  lemma PairingStep(s: State, step: Step, ep: nat)
    requires Inv(s) && ep < EP_COUNT == |s.eps| && Enabled(s, step)
    requires step == PairReply(ep) || step == PairPull(ep) || (step == PushRead && s.eps[ep].Pending() == [])
    requires step == PushRead ==> s.executor.cmd.ep == ep
    ensures var (e, e') := (s.eps[ep], Next(s, step).eps[ep]);
      && e'.done == e.done && e'.started == e.started
      && if step.PairReply? then |e'.answers| == |e.answers| + 1
         else e'.answers == e.answers && Waits(e') < Waits(e)
  {
    hide Inv, PairedReply;
  }

  lemma PushIsHere(s: State, ep: nat, k: nat)
    requires Inv(s) && ep < EP_COUNT == |s.eps| && |s.eps[ep].answers| <= k < |s.eps[ep].started|
    requires s.eps[ep].Pending() == [] && s.executor.Issuing?
    ensures s.executor.cmd.ep == ep
  {
    hide TallyInv, SourcedInv, UnlinkInv, WireSafe, PairedReply, DataForHost, Completes;
    var e := s.eps[ep];
    assert EndpointInv(s.accepted, IssuingOn(s.executor, ep), e, ep);
    assert e.issued[|e.answers|..] == [];
  }

  /** Left alone, the pairing thread answers up to the k-th read. */
  lemma {:induction false} CatchUp(s: State, ep: nat, k: nat) returns (steps: seq<Step>, t: State)
    requires Inv(s) && ep < EP_COUNT == |s.eps| && k < |s.eps[ep].done| && k < |s.eps[ep].started|
    ensures Run(s, steps, t) && Inv(t) && |t.eps| == EP_COUNT
    ensures t.eps[ep].done == s.eps[ep].done && t.eps[ep].started == s.eps[ep].started && k < |t.eps[ep].answers|
    decreases if k < |s.eps[ep].answers| then 0 else k + 1 - |s.eps[ep].answers|, Waits(s.eps[ep])
  {
    hide Inv, Next, Enabled;
    if k < |s.eps[ep].answers| {
      steps, t := [], s;
    } else {
      var step := PairingGoesOn(s, ep, k);
      if step == PushRead {
        PushNeedsIssuing(s);
        PushIsHere(s, ep, k);
      }
      PairingStep(s, step, ep);
      StepKeeps(s, step);
      var rest;
      rest, t := CatchUp(Next(s, step), ep, k);
      steps := [step] + rest;
      assert steps[0] == step && steps[1..] == rest;
    }
  }

  lemma PushNeedsIssuing(s: State)
    requires |s.eps| == EP_COUNT && Enabled(s, PushRead)
    ensures s.executor.Issuing?
  {
  }

  /** The assertion can fail next if and only if there is no room. From any state a run
      reaches: some read in flight can complete so that, whatever else happens, the
      reply its data goes into carries more than its own read had room for, exactly when
      RoomFor does not hold. */
  lemma OverrunsNextIff(before: seq<Step>, s: State, ep: nat)
    requires Run(Init(), before, s) && ep < EP_COUNT == |s.eps|
    ensures (exists c: Command, x: Iso.Transfer, steps: seq<Step>, t: State ::
              && c.ep == ep && Enabled(s, CompleteRead(c, x)) && Run(Next(s, CompleteRead(c, x)), steps, t)
              && |t.eps| == EP_COUNT && Overrun(t.eps[ep], |s.eps[ep].done|))
       <==> !RoomFor(s.eps[ep])
  {
    hide Inv, RoomFor, Overrun, Next, Enabled, Run;
    RunReaches(before, s);
    forall c: Command, x: Iso.Transfer | c.ep == ep && Enabled(s, CompleteRead(c, x))
      ensures |Next(s, CompleteRead(c, x)).eps| == EP_COUNT
    {
      HistoryStep(s, CompleteRead(c, x), ep);
    }
    if RoomFor(s.eps[ep]) {
      forall c: Command, x: Iso.Transfer, steps: seq<Step>, t: State |
        c.ep == ep && Enabled(s, CompleteRead(c, x)) && Run(Next(s, CompleteRead(c, x)), steps, t)
        ensures |t.eps| == EP_COUNT && !Overrun(t.eps[ep], |s.eps[ep].done|)
      {
        RoomHelps(s, ep, c, x, steps, t);
      }
    } else {
      var c, x, steps, t := NoRoomHurts(s, ep);
    }
  }

  lemma RunReaches(before: seq<Step>, s: State)
    requires Run(Init(), before, s)
    ensures Inv(s)
  {
    InitHolds();
    RunKeeps(Init(), before, s);
  }

  /** The k-th reply carries more than the k-th read had room for. */
  ghost predicate Overrun(e: Endpoint, k: nat) {
    k < |e.answers| && k < |e.started| && e.answers[k].RetSubmit? && e.answers[k].actualLength > Room(e.started[k])
  }

  lemma RoomHelps(s: State, ep: nat, c: Command, x: Iso.Transfer, steps: seq<Step>, t: State)
    requires Inv(s) && ep < EP_COUNT == |s.eps| && RoomFor(s.eps[ep]) && c.ep == ep && Enabled(s, CompleteRead(c, x))
    requires |Next(s, CompleteRead(c, x)).eps| == EP_COUNT && Run(Next(s, CompleteRead(c, x)), steps, t)
    ensures |t.eps| == EP_COUNT && !Overrun(t.eps[ep], |s.eps[ep].done|)
  {
    hide TallyInv, SourcedInv, UnlinkInv, WireSafe, EndpointInv, DataForHost, Completes;
    var m, k := Next(s, CompleteRead(c, x)), |s.eps[ep].done|;
    RoomForIff(s, ep);
    StepKeeps(s, CompleteRead(c, x));
    RunKeeps(m, steps, t);
    HistoryStep(s, CompleteRead(c, x), ep);
    HistoryGrows(m, steps, t, ep);
    if k < |t.eps[ep].answers| {
      AnswerIsData(t.accepted, IssuingOn(t.executor, ep), t.eps[ep], ep, k);
      assert t.eps[ep].done[k] == m.eps[ep].done[k] == Completion(c, x);
    }
  }

  lemma NoRoomHurts(s: State, ep: nat) returns (c: Command, x: Iso.Transfer, steps: seq<Step>, t: State)
    requires Inv(s) && ep < EP_COUNT == |s.eps| && !RoomFor(s.eps[ep])
    ensures c.ep == ep && Enabled(s, CompleteRead(c, x)) && |Next(s, CompleteRead(c, x)).eps| == EP_COUNT
    ensures Run(Next(s, CompleteRead(c, x)), steps, t) && |t.eps| == EP_COUNT && Overrun(t.eps[ep], |s.eps[ep].done|)
  {
    hide TallyInv, SourcedInv, UnlinkInv, WireSafe, EndpointInv, DataForHost, Completes, MostData, FullTransfer;
    var k := |s.eps[ep].done|;
    c :| c in s.eps[ep].flying && !(k < |s.eps[ep].started| && MostData(c) <= Room(s.eps[ep].started[k]));
    FlyingCanFill(s, ep, c);
    x := FullTransfer(c);
    var m := Next(s, CompleteRead(c, x));
    StepKeeps(s, CompleteRead(c, x));
    HistoryStep(s, CompleteRead(c, x), ep);
    steps, t := CatchUp(m, ep, k);
    AnswerIsData(t.accepted, IssuingOn(t.executor, ep), t.eps[ep], ep, k);
    assert t.eps[ep].done[k] == Completion(c, x);
  }
}
