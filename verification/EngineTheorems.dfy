/** What holds in every run of the engine. */
module EngineTheorems {
  import opened Prelude
  import opened Vhci
  import opened Proxy
  import opened Engine
  import opened EngineInvariants
  import opened EngineProofs
  import Iso

  // ------------------------------------------------------------------------ unlinking

  /** The reply answers an unlink of n. */
  predicate AnswersUnlinkOf(s: State, r: Reply, n: u32) { r.RetUnlink? && Unlinks(s.accepted, r, n) }

  /** Once the answer to an unlink is on the wire, the answer to its target is never
      written behind it, although the writer decides under the lock and writes later;
      and only submits that some unlink had named are ever held back. */
  lemma NoReplyAfterItsUnlink(steps: seq<Step>, t: State)
    requires Run(Init(), steps, t)
    ensures forall i, j :: 0 <= i < j < |t.wire| ==> !AnswersUnlinkOf(t, t.wire[i], t.wire[j].seqnum)
    ensures forall r :: r in t.dropped ==> r.RetSubmit? && r.seqnum in t.reset
  {
    InitHolds();
    RunKeeps(Init(), steps, t);
  }

  /** The writer has n in hand or behind it. */
  predicate Taken(s: State, n: u32) {
    Settled(s, n) > 0 || (s.writer.Writing? && s.writer.reply.seqnum == n)
  }

  /** Unlinked in time: n will be suppressed, or has been. */
  ghost predicate Suppressing(s: State, n: u32) {
    || CountReplies(s.dropped, n) > 0
    || (n in s.unlinked && !Taken(s, n))
  }

  /** Unlinked too late: n was let through, and its number stays in the set. */
  ghost predicate TooLate(s: State, n: u32) {
    n in s.unlinked && Taken(s, n) && CountReplies(s.dropped, n) == 0
  }

  /** The writer decides on what it holds, which is not settled yet. */
  lemma OutcomeOfCheck(s: State, n: u32)
    requires |s.eps| == EP_COUNT && TallyInv(s) && Enabled(s, WriterCheck)
    ensures Suppressing(s, n) ==> Suppressing(Next(s, WriterCheck), n)
    ensures TooLate(s, n) ==> TooLate(Next(s, WriterCheck), n)
  {
    hide TallyInv, CountReplies;
    OnlyOnce(s, s.writer.reply.seqnum);
    CountRepliesAppend(s.dropped, s.writer.reply, n);
  }

  lemma OutcomeOfWrite(s: State, n: u32)
    requires |s.eps| == EP_COUNT && TallyInv(s) && Enabled(s, WriterWrite)
    ensures Suppressing(s, n) ==> Suppressing(Next(s, WriterWrite), n)
    ensures TooLate(s, n) ==> TooLate(Next(s, WriterWrite), n)
  {
    hide TallyInv, CountReplies;
    OnlyOnce(s, s.writer.reply.seqnum);
    CountRepliesAppend(s.wire, s.writer.reply, n);
  }

  lemma OutcomeStep(s: State, step: Step, n: u32)
    requires |s.eps| == EP_COUNT && TallyInv(s) && Enabled(s, step)
    ensures Suppressing(s, n) ==> Suppressing(Next(s, step), n)
    ensures TooLate(s, n) ==> TooLate(Next(s, step), n)
  {
    hide TallyInv, CountReplies;
    if step.WriterCheck? {
      OutcomeOfCheck(s, n);
    } else if step.WriterWrite? {
      OutcomeOfWrite(s, n);
    } else {
      var t := Next(s, step);
      assert t.wire == s.wire && t.dropped == s.dropped && s.unlinked <= t.unlinked;
      assert t.writer.Writing? == s.writer.Writing?;
    }
  }

  lemma {:induction false} OutcomeRun(s: State, steps: seq<Step>, t: State, n: u32)
    requires |s.eps| == EP_COUNT && Inv(s) && Run(s, steps, t)
    ensures Suppressing(s, n) ==> Suppressing(t, n)
    ensures TooLate(s, n) ==> TooLate(t, n)
    decreases |steps|
  {
    hide Next, Enabled, Suppressing, TooLate, EndpointsInv, SourcedInv, UnlinkInv, WireSafe;
    if steps != [] {
      OutcomeStep(s, steps[0], n);
      StepKeeps(s, steps[0]);
      OutcomeRun(Next(s, steps[0]), steps[1..], t, n);
    }
  }

  /** What an unlink achieves depends on one thing a host cannot see: whether the
      writer had already let the target's reply through when the unlink ran. If not,
      that reply never reaches the wire. If so, no reply to the target is held back
      any more, the unlink nevertheless answers -ECONNRESET unless the number is
      still in the set, and the number is never removed. */
  lemma UnlinkOutcome(before: seq<Step>, s: State, after: seq<Step>, t: State)
    requires Run(Init(), before, s) && |s.eps| == EP_COUNT
    requires Enabled(s, RecordUnlink) && Run(Next(s, RecordUnlink), after, t)
    ensures var n := s.executor.cmd.target;
      && (!Taken(s, n) || CountReplies(s.dropped, n) > 0 ==> CountReplies(t.wire, n) == 0)
      && (Taken(s, n) && CountReplies(s.dropped, n) == 0 ==>
            CountReplies(t.dropped, n) == 0 && n in t.unlinked)
      && Next(s, RecordUnlink).executor.status == (if n in s.unlinked then 0 else -104)
  {
    hide TallyInv, EndpointsInv, SourcedInv, UnlinkInv, WireSafe, CountReplies;
    var n, m := s.executor.cmd.target, Next(s, RecordUnlink);
    InitHolds();
    RunKeeps(Init(), before, s);
    StepKeeps(s, RecordUnlink);
    OutcomeRun(m, after, t, n);
    RunKeeps(m, after, t);
    OnlyOnce(t, n);
    OnlyOnce(s, n);
  }

  lemma OnlyOnce(s: State, n: u32)
    requires TallyInv(s)
    ensures Settled(s, n) + Unsettled(s, n) <= 1
  {
    assert Tally(s, n) <= 1;
  }

  // -------------------------------------------------------------------- conservation

  /** Every command read is somewhere, once: waiting, in a thread's hand, with the
      device, cancelled, or answered; so no reply is written twice, and none is both
      written and held back. */
  lemma EveryCommandOnce(steps: seq<Step>, t: State, n: u32)
    requires Run(Init(), steps, t)
    ensures Tally(t, n) == if n in t.accepted then 1 else 0
    ensures CountReplies(t.wire, n) + CountReplies(t.dropped, n) <= 1
  {
    InitHolds();
    RunKeeps(Init(), steps, t);
  }

  /** Nobody but the host can make a step: every thread is blocked, and the device has
      nothing left to complete. */
  ghost predicate Quiescent(s: State)
    requires |s.eps| == EP_COUNT
  {
    forall step :: Enabled(s, step) ==> step.Receive?
  }

  /** Some completion a device may report for any read or write. */
  ghost function Blank(c: Command): Iso.Transfer
    requires c.CmdSubmit? && c.WellFormed()
  {
    var count := if c.IsIso() then c.packets as nat else 0;
    Iso.Transfer(Zeros(c.bufferLength), 0,
                 seq(count, i => Iso.Packet(if count == 0 then 0 else c.bufferLength / count, 0, true)))
  }

  lemma DeviceCanComplete(c: Command)
    requires c.CmdSubmit? && c.WellFormed() && (c.IsIn() || c.IsOut())
    ensures Completes(c, Blank(c)) && Blank(c).Valid()
  {
    var x := Blank(c);
    assert forall p :: p in x.packets ==> |x.packets| > 0;
    CompletedIsValid(c, x);
  }

  /** Whatever the executor holds, one of its branches applies. */
  lemma ExecutorNeverStuck(s: State)
    requires Inv(s) && Quiescent(s)
    ensures s.executor == Idle && s.queue == []
  {
    hide Completes, EndpointInv, Tally, UnlinkInv, WireSafe, Sourced;
    var usb := Usb(false, [], [], map[], [], [], map[], Failed(-1));
    assert !Enabled(s, Control(usb)) && !Enabled(s, StartRead) && !Enabled(s, StartWrite);
    assert !Enabled(s, RecordUnlink) && !Enabled(s, PushRead) && !Enabled(s, ReplyUnlink) && !Enabled(s, Pull);
  }

  lemma WriteCanComplete(s: State, n: u32)
    requires |s.eps| == EP_COUNT && AcceptedInv(s.accepted) && WritesInv(s.accepted, s.writes) && n in s.writes
    ensures Enabled(s, CompleteWrite(s.accepted[n], Blank(s.accepted[n])))
  {
    hide Completes, Blank;
    DeviceCanComplete(s.accepted[n]);
  }

  lemma ReadCanComplete(s: State, ep: nat, c: Command)
    requires EndpointsInv(s) && AcceptedInv(s.accepted) && ep < EP_COUNT && c in s.eps[ep].flying
    ensures c.CmdSubmit? && c.WellFormed() && Enabled(s, CompleteRead(c, Blank(c)))
  {
    hide Completes, Blank, EndpointInv;
    FlyingIsRead(s.accepted, IssuingOn(s.executor, ep), s.eps[ep], ep, c);
    DeviceCanComplete(c);
  }

  lemma DeviceDone(s: State)
    requires EndpointsInv(s) && AcceptedInv(s.accepted) && WritesInv(s.accepted, s.writes) && Quiescent(s)
    ensures s.writes == multiset{}
    ensures forall ep :: 0 <= ep < EP_COUNT ==> s.eps[ep].flying == multiset{}
  {
    hide Enabled, Blank, EndpointInv, AcceptedInv;
    forall n: u32 ensures n !in s.writes {
      if n in s.writes { WriteCanComplete(s, n); }
    }
    forall ep, c | 0 <= ep < EP_COUNT ensures c !in s.eps[ep].flying {
      if c in s.eps[ep].flying { ReadCanComplete(s, ep, c); }
    }
  }

  lemma FlyingIsRead(accepted: map<u32, Command>, issuing: seq<Command>, e: Endpoint, ep: nat, c: Command)
    requires EndpointInv(accepted, issuing, e, ep) && c in e.flying
    ensures MapsTo(accepted, c) && IsRead(c) && c.ep == ep
  {
    hide Zipped;
    assert c in multiset(e.started);
    var i :| 0 <= i < |e.started| && e.started[i] == c;
  }

  /** With nothing in flight, commands lack data exactly by as much as was cancelled. */
  lemma DataForAll(accepted: map<u32, Command>, e: Endpoint, ep: nat)
    requires EndpointInv(accepted, [], e, ep) && e.flying == multiset{}
    ensures |e.Pending()| == |e.data| + |e.lost| && Zipped(e)
  {
    hide Completes, PairedReply, DataForHost;
    assert |multiset(e.started)| == |multiset(CompletedCommands(e.done))| + |e.lost|;
    assert e.started == e.issued;
  }

  /** A pairing thread at rest waits for just the reads that were cancelled. */
  lemma EndpointAtRest(s: State, ep: nat)
    requires Inv(s) && Quiescent(s) && ep < EP_COUNT
    ensures |s.eps[ep].Pending()| == |s.eps[ep].lost|
  {
    hide TallyInv, UnlinkInv, WireSafe, SourcedInv, PairedReply, DataForHost, EndpointInv, Zipped;
    var e := s.eps[ep];
    ExecutorNeverStuck(s);
    DeviceDone(s);
    DataForAll(s.accepted, e, ep);
    assert !Enabled(s, PairPull(ep)) && !Enabled(s, PairReply(ep));
    if e.hand.Some? && e.data != [] {
      AnsweredEndpoint(e);
    }
  }

  lemma WriterDone(t: State)
    requires |t.eps| == EP_COUNT && Quiescent(t)
    ensures t.replies == [] && t.writer == Waiting
  {
    assert !Enabled(t, WriterPull) && !Enabled(t, WriterCheck) && !Enabled(t, WriterWrite);
  }

  /** At rest a command is answered or held back, cancelled, or waiting for data. */
  lemma RestTally(t: State, n: u32)
    requires Inv(t) && Quiescent(t)
    ensures Settled(t, n) + t.cancelled[n] + CountPending(t.eps, n) == if n in t.accepted then 1 else 0
  {
    hide Count, CountPending, CountReplies, EndpointInv, UnlinkInv, WireSafe, SourcedInv, Quiescent, QueueInv;
    ExecutorNeverStuck(t);
    DeviceDone(t);
    WriterDone(t);
    NothingQueued(n);
    assert Tally(t, n) == if n in t.accepted then 1 else 0;
  }

  lemma NothingQueued(n: u32)
    ensures Count([], n) == 0 && CountReplies([], n) == 0
  {
  }

  lemma {:induction false} PendingCounts(eps: seq<Endpoint>, ep: nat)
    requires ep < |eps| && eps[ep].Pending() != []
    ensures CountPending(eps, eps[ep].Pending()[0].seqnum) > 0
  {
    if ep > 0 { PendingCounts(eps[1..], ep - 1); }
  }

  ghost predicate NothingCancelled(t: State) {
    t.cancelled == multiset{} && forall ep :: 0 <= ep < |t.eps| ==> t.eps[ep].lost == multiset{}
  }

  /** Nothing is lost, but by cancelling: when the system has come to rest, every
      command read was answered exactly once or held back exactly once if and only if
      no transfer was cancelled. */
  lemma AllAnsweredIff(steps: seq<Step>, t: State)
    requires Run(Init(), steps, t) && |t.eps| == EP_COUNT && Quiescent(t)
    ensures (forall n :: n in t.accepted ==> CountReplies(t.wire, n) + CountReplies(t.dropped, n) == 1)
       <==> NothingCancelled(t)
  {
    hide Tally, Inv, Quiescent, CountPending, CountReplies;
    InitHolds();
    RunKeeps(Init(), steps, t);
    if NothingCancelled(t) {
      forall n | n in t.accepted ensures CountReplies(t.wire, n) + CountReplies(t.dropped, n) == 1 {
        forall i | 0 <= i < |t.eps| ensures t.eps[i].Pending() == [] { EndpointAtRest(t, i); }
        NothingPending(t.eps, n);
        RestTally(t, n);
      }
    } else if t.cancelled != multiset{} {
      var n :| n in t.cancelled;
      RestTally(t, n);
    } else {
      var ep :| 0 <= ep < |t.eps| && t.eps[ep].lost != multiset{};
      EndpointAtRest(t, ep);
      PendingCounts(t.eps, ep);
      RestTally(t, t.eps[ep].Pending()[0].seqnum);
    }
  }
}
