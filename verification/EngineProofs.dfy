/** Every step of the engine keeps the invariants. */
module EngineProofs {
  import opened Prelude
  import opened Vhci
  import opened Proxy
  import opened Engine
  import opened EngineInvariants
  import opened Replies
  import Iso

  // ------------------------------------------------------------------------ frames

  ghost predicate Grows(a: map<u32, Command>, b: map<u32, Command>) {
    forall n :: n in a ==> n in b && b[n] == a[n]
  }

  /** One endpoint changes; the executor is issuing on no other. */
  lemma EndpointsUpdate(s: State, t: State, ep: nat)
    requires EndpointsInv(s) && ep < EP_COUNT && |t.eps| == EP_COUNT
    requires t.eps == s.eps[ep := t.eps[ep]] && t.accepted == s.accepted
    requires forall i :: 0 <= i < EP_COUNT && i != ep ==> IssuingOn(t.executor, i) == IssuingOn(s.executor, i)
    requires EndpointInv(t.accepted, IssuingOn(t.executor, ep), t.eps[ep], ep)
    ensures EndpointsInv(t)
  {
    hide Zipped, Accounted;
    forall i | 0 <= i < EP_COUNT ensures EndpointInv(t.accepted, IssuingOn(t.executor, i), t.eps[i], i) {
      if i != ep { assert t.eps[i] == s.eps[i]; }
    }
  }

  lemma EndpointsFrame(s: State, t: State)
    requires EndpointsInv(s) && t.eps == s.eps && Grows(s.accepted, t.accepted)
    requires t.executor == s.executor || (!s.executor.Issuing? && !t.executor.Issuing?)
    ensures EndpointsInv(t)
  {
    hide Zipped, Accounted;
    forall i | 0 <= i < EP_COUNT ensures EndpointInv(t.accepted, IssuingOn(t.executor, i), t.eps[i], i) {
      assert IssuingOn(t.executor, i) == IssuingOn(s.executor, i);
    }
  }

  ghost predicate AnswersGrow(a: seq<Endpoint>, b: seq<Endpoint>) {
    |a| == |b| && forall i :: 0 <= i < |a| ==> a[i].answers <= b[i].answers
  }

  lemma SourcedGrows(s: State, t: State, r: Reply)
    requires Grows(s.accepted, t.accepted) && s.reset <= t.reset && AnswersGrow(s.eps, t.eps)
    requires Sourced(s.accepted, s.reset, s.eps, r)
    ensures Sourced(t.accepted, t.reset, t.eps, r)
  {
    hide Genuine;
  }

  /** The reply queue gains at most the one reply r. */
  lemma SourcedStep(s: State, t: State)
    requires SourcedInv(s) && Grows(s.accepted, t.accepted) && s.reset <= t.reset && AnswersGrow(s.eps, t.eps)
    requires t.writer == s.writer && t.wire == s.wire && t.dropped == s.dropped
    requires s.replies <= t.replies
    requires forall i :: |s.replies| <= i < |t.replies| ==> Sourced(t.accepted, t.reset, t.eps, t.replies[i])
    ensures SourcedInv(t)
  {
    hide Sourced;
    forall r | Sourced(s.accepted, s.reset, s.eps, r) ensures Sourced(t.accepted, t.reset, t.eps, r) {
      SourcedGrows(s, t, r);
    }
  }

  // -------------------------------------------------------------- the reading thread

  ghost predicate SeqnumsIn(a: map<u32, Command>, rs: seq<Reply>) {
    forall i :: 0 <= i < |rs| ==> rs[i].seqnum in a
  }

  lemma UnlinkInvGrows(s: State, b: map<u32, Command>)
    requires UnlinkInv(s.accepted, s.reset, s.unlinked, s.writer, s.wire, s.dropped)
    requires Grows(s.accepted, b) && SeqnumsIn(s.accepted, s.wire)
    requires !s.writer.Waiting? ==> s.writer.reply.seqnum in s.accepted
    ensures UnlinkInv(b, s.reset, s.unlinked, s.writer, s.wire, s.dropped)
  {
    hide Decided;
    assert forall i, n {:trigger Unlinks(b, s.wire[i], n)} ::
      0 <= i < |s.wire| && Unlinks(b, s.wire[i], n) ==> Unlinks(s.accepted, s.wire[i], n);
    assert !s.writer.Waiting? ==> forall n :: Unlinks(b, s.writer.reply, n) ==> Unlinks(s.accepted, s.writer.reply, n);
  }

  lemma ReceiveKeepsTally(s: State, c: Command)
    requires |s.eps| == EP_COUNT && Enabled(s, Receive(c)) && TallyInv(s)
    ensures TallyInv(Next(s, Receive(c)))
  {
    var t := Next(s, Receive(c));
    forall n: u32 ensures Tally(t, n) == if n in t.accepted then 1 else 0 { CountAppend(s.queue, c, n); }
  }

  lemma ReceivedCommand(s: State, c: Command)
    requires |s.eps| == EP_COUNT && Enabled(s, Receive(c)) && SeqnumsIn(s.accepted, s.wire)
    requires AcceptedInv(s.accepted) && QueueInv(s.accepted, s.queue) && ExecutorInv(s.accepted, s.reset, s.executor)
    requires WritesInv(s.accepted, s.writes) && WireSafe(s.accepted, s.wire)
    ensures var t := Next(s, Receive(c));
      && AcceptedInv(t.accepted) && QueueInv(t.accepted, t.queue) && ExecutorInv(t.accepted, t.reset, t.executor)
      && WritesInv(t.accepted, t.writes) && WireSafe(t.accepted, t.wire) && Grows(s.accepted, t.accepted)
  {
  }

  lemma SourcedSeqnums(s: State)
    requires SourcedInv(s)
    ensures SeqnumsIn(s.accepted, s.wire) && (!s.writer.Waiting? ==> s.writer.reply.seqnum in s.accepted)
  {
    hide Genuine;
  }

  lemma ReceiveKeeps(s: State, c: Command)
    requires Inv(s) && Enabled(s, Receive(c))
    ensures Inv(Next(s, Receive(c)))
  {
    hide EndpointInv, Tally, UnlinkInv, WireSafe, Sourced, AcceptedInv, QueueInv, ExecutorInv, WritesInv;
    var t := Next(s, Receive(c));
    SourcedSeqnums(s);
    ReceivedCommand(s, c);
    ReceiveKeepsTally(s, c);
    EndpointsFrame(s, t);
    SourcedStep(s, t);
    UnlinkInvGrows(s, t.accepted);
  }

  // -------------------------------------------------------------------- the executor

  lemma PullKeeps(s: State)
    requires Inv(s) && Enabled(s, Pull)
    ensures Inv(Next(s, Pull))
  {
    hide Zipped, Accounted, Completes, EndpointInv, Decided, UnlinkInv, WireSafe, Sourced;
    EndpointsFrame(s, Next(s, Pull));
  }

  /** The executor answers a command itself: a control request or an unlink. */
  lemma AnswerKeeps(s: State, t: State, r: Reply)
    requires Inv(s) && !s.executor.Idle? && !s.executor.Issuing?
    requires t == s.(executor := Idle, replies := s.replies + [r])
    requires r.seqnum == s.executor.cmd.seqnum && Sourced(s.accepted, s.reset, s.eps, r)
    ensures Inv(t)
  {
    hide Zipped, Accounted, Completes, EndpointInv, Decided, UnlinkInv, WireSafe, Sourced;
    forall n: u32 ensures Tally(t, n) == Tally(s, n) { CountRepliesAppend(s.replies, r, n); }
    EndpointsFrame(s, t);
    SourcedStep(s, t);
  }

  lemma ControlKeeps(s: State, usb: Usb)
    requires Inv(s) && Enabled(s, Control(usb))
    ensures Inv(Next(s, Control(usb)))
  {
    hide Zipped, Accounted, Completes, EndpointInv, Decided, UnlinkInv, WireSafe, TallyInv, ControlRequest, Answers;
    ControlReplyIsFramed(s.executor.cmd, usb);
    ControlReplyAnswers(s.executor.cmd, usb);
    AnswerKeeps(s, Next(s, Control(usb)), ControlReply(s.executor.cmd, usb));
  }

  lemma ReplyUnlinkKeeps(s: State)
    requires Inv(s) && Enabled(s, ReplyUnlink)
    ensures Inv(Next(s, ReplyUnlink))
  {
    hide Zipped, Accounted, Completes, EndpointInv, Decided, UnlinkInv, WireSafe, TallyInv;
    AnswerKeeps(s, Next(s, ReplyUnlink), UnlinkReply(s.executor.cmd, s.executor.status));
  }

  lemma StartReadKeeps(s: State)
    requires Inv(s) && Enabled(s, StartRead)
    ensures Inv(Next(s, StartRead))
  {
    hide Completes, Decided, UnlinkInv, WireSafe, Sourced, EndpointInv, Tally;
    var c, t := s.executor.cmd, Next(s, StartRead);
    var e := Started(s.eps[c.ep], c);
    forall n: u32 ensures Tally(t, n) == Tally(s, n) { TallyOfEndpoint(s, t.executor, c.ep, e, n); }
    StartedEndpoint(s.accepted, s.eps[c.ep], c);
    EndpointsUpdate(s, t, c.ep);
    SourcedStep(s, t);
  }

  lemma StartedEndpoint(accepted: map<u32, Command>, e: Endpoint, c: Command)
    requires EndpointInv(accepted, [], e, c.ep) && MapsTo(accepted, c) && IsRead(c)
    ensures EndpointInv(accepted, [c], Started(e, c), c.ep)
  {
    hide Zipped, Accounted;
    SameZip(e, Started(e, c));
    assert Accounted(Started(e, c)) by { StartedAccounts(e, c); }
  }

  /** Zipped speaks of the two queues and of what has passed through them. */
  lemma SameZip(e: Endpoint, e': Endpoint)
    requires Zipped(e) && e'.issued == e.issued && e'.done == e.done && e'.data == e.data && e'.answers == e.answers
    requires e'.Pending() == e.Pending()
    ensures Zipped(e')
  {
    hide PairedReply, DataForHost, Completes, Endpoint.Pending;
  }

  lemma StartedAccounts(e: Endpoint, c: Command)
    requires Accounted(e)
    ensures Accounted(Started(e, c))
  {
    hide CompletedCommands;
  }

  lemma PushReadKeeps(s: State)
    requires Inv(s) && Enabled(s, PushRead)
    ensures Inv(Next(s, PushRead))
  {
    hide Completes, Decided, UnlinkInv, WireSafe, Sourced, EndpointInv, Tally;
    var c, t := s.executor.cmd, Next(s, PushRead);
    forall n: u32 ensures Tally(t, n) == Tally(s, n) { TallyOfPush(s, n); }
    IssuedEndpoint(s.accepted, s.eps[c.ep], c);
    EndpointsUpdate(s, t, c.ep);
    SourcedStep(s, t);
  }

  lemma IssuedEndpoint(accepted: map<u32, Command>, e: Endpoint, c: Command)
    requires EndpointInv(accepted, [c], e, c.ep) && IsRead(c)
    ensures EndpointInv(accepted, [], Issued(e, c), c.ep)
  {
    hide PairedReply, DataForHost, Completes;
    var (n, e') := (|e.answers|, Issued(e, c));
    assert e'.issued[n..] == e.issued[n..] + [c] == e'.Pending();
  }

  lemma StartWriteKeeps(s: State)
    requires Inv(s) && Enabled(s, StartWrite)
    ensures Inv(Next(s, StartWrite))
  {
    hide Zipped, Accounted, Completes, EndpointInv, Decided, UnlinkInv, WireSafe, Sourced;
    hide Count, CountPending, CountReplies;
    var t := Next(s, StartWrite);
    EndpointsFrame(s, t);
    SourcedStep(s, t);
  }

  lemma UnlinkInvRecords(s: State, n: u32)
    requires UnlinkInv(s.accepted, s.reset, s.unlinked, s.writer, s.wire, s.dropped)
    requires n in s.accepted && s.accepted[n].CmdSubmit?
    ensures UnlinkInv(s.accepted, s.reset + {n}, s.unlinked + {n}, s.writer, s.wire, s.dropped)
  {
  }

  lemma RecordUnlinkKeeps(s: State)
    requires Inv(s) && Enabled(s, RecordUnlink)
    ensures Inv(Next(s, RecordUnlink))
  {
    hide EndpointInv, WireSafe, Sourced, UnlinkInv, Count, CountPending, CountReplies;
    var c, t := s.executor.cmd, Next(s, RecordUnlink);
    EndpointsFrame(s, t);
    SourcedStep(s, t);
    UnlinkInvRecords(s, c.target);
    forall n: u32 ensures Tally(t, n) == Tally(s, n) {}
  }

  // --------------------------------------------------------------- the pairing threads

  lemma PulledEndpoint(accepted: map<u32, Command>, issuing: seq<Command>, e: Endpoint, ep: nat)
    requires EndpointInv(accepted, issuing, e, ep) && e.hand == None && e.commands != []
    ensures HandFilled(e).Pending() == e.Pending()
    ensures EndpointInv(accepted, issuing, HandFilled(e), ep)
  {
    hide Zipped;
    assert HandFilled(e).Pending() == e.Pending();
    SameZip(e, HandFilled(e));
  }

  lemma PairPullKeeps(s: State, ep: nat)
    requires Inv(s) && Enabled(s, PairPull(ep))
    ensures Inv(Next(s, PairPull(ep)))
  {
    hide Completes, Decided, UnlinkInv, WireSafe, Sourced, Tally, EndpointInv;
    var e, t := s.eps[ep], Next(s, PairPull(ep));
    PulledEndpoint(s.accepted, IssuingOn(s.executor, ep), e, ep);
    forall n: u32 ensures Tally(t, n) == Tally(s, n) { TallyOfEndpoint(s, s.executor, ep, HandFilled(e), n); }
    EndpointsUpdate(s, t, ep);
    SourcedStep(s, t);
  }

  /** The pairing thread holds the next unanswered command and takes the next data. */
  lemma AnsweredEndpoint(e: Endpoint)
    requires Zipped(e) && e.hand.Some? && e.data != []
    ensures e.hand.value.CmdSubmit? && e.hand.value.IsIn() && e.data[0].Valid()
    ensures Zipped(Answered(e))
    ensures e.hand.value == e.issued[|e.answers|]
  {
    hide PairedReply, DataForHost, Completes;
    var n := |e.answers|;
    HeadOfPending(e);
    assert e.issued[n] == e.hand.value && e.data[0] == DataForHost(e.done[n].transfer);
    var e' := Answered(e);
    assert e'.issued[n + 1..] == e'.Pending();
    forall i | 0 <= i < |e'.data| ensures e'.data[i] == DataForHost(e'.done[n + 1 + i].transfer) {
      assert e'.data[i] == e.data[i + 1];
    }
    forall i | 0 <= i < n + 1 ensures e'.answers[i] == PairedReply(e'.issued[i], DataForHost(e'.done[i].transfer)) {
      if i < n { assert e'.answers[i] == e.answers[i]; }
    }
  }

  lemma HeadOfPending(e: Endpoint)
    requires Zipped(e) && e.hand.Some?
    ensures |e.answers| < |e.issued| && e.issued[|e.answers|] == e.hand.value
    ensures e.issued[|e.answers| + 1..] == e.commands
  {
    hide PairedReply, DataForHost, Completes;
    var n := |e.answers|;
    assert e.issued[n..][0] == e.hand.value && e.issued[n..][1..] == e.commands;
  }

  lemma AnsweredKeeps(accepted: map<u32, Command>, issuing: seq<Command>, e: Endpoint, ep: nat)
    requires EndpointInv(accepted, issuing, e, ep) && e.hand.Some? && e.data != []
    ensures e.hand.value.CmdSubmit? && e.hand.value.IsIn() && e.data[0].Valid()
    ensures EndpointInv(accepted, issuing, Answered(e), ep)
  {
    hide PairedReply, DataForHost, Completes, Zipped;
    AnsweredEndpoint(e);
  }

  lemma PairReplyKeeps(s: State, ep: nat)
    requires Inv(s) && Enabled(s, PairReply(ep))
    ensures Inv(Next(s, PairReply(ep)))
  {
    hide Completes, Decided, UnlinkInv, WireSafe, PairedReply, DataForHost, EndpointInv, Sourced, Tally;
    var e, t := s.eps[ep], Next(s, PairReply(ep));
    forall n: u32 ensures Tally(t, n) == Tally(s, n) { TallyOfPair(s, ep, n); }
    AnsweredKeeps(s.accepted, IssuingOn(s.executor, ep), e, ep);
    EndpointsUpdate(s, t, ep);
    PairedReplySourced(s, ep);
    SourcedStep(s, t);
  }

  lemma PairedReplySourced(s: State, ep: nat)
    requires Inv(s) && Enabled(s, PairReply(ep))
    ensures var t := Next(s, PairReply(ep)); Sourced(t.accepted, t.reset, t.eps, t.replies[|s.replies|])
  {
    hide DataForHost, Completes, UnlinkInv, WireSafe, Tally;
    var e := s.eps[ep];
    AnsweredEndpoint(e);
    assert MapsTo(s.accepted, e.started[|e.answers|]);
  }

  // ------------------------------------------------------------- the completion thread

  lemma CompletedEndpoint(accepted: map<u32, Command>, issuing: seq<Command>, e: Endpoint, ep: nat,
                          c: Command, x: Iso.Transfer)
    requires EndpointInv(accepted, issuing, e, ep) && c in e.flying && Completes(c, x) && x.Valid()
    ensures EndpointInv(accepted, issuing, Completed(e, c, x), ep)
  {
    hide PairedReply, DataForHost, Completes, Zipped, Accounted;
    CompletedZips(e, c, x);
    CompletedAccounts(e, c, x);
  }

  lemma CompletedZips(e: Endpoint, c: Command, x: Iso.Transfer)
    requires Zipped(e) && Completes(c, x) && x.Valid()
    ensures Zipped(Completed(e, c, x))
  {
    hide PairedReply, DataForHost, Completes;
    assert Completed(e, c, x).Pending() == e.Pending();
  }

  lemma CompletedAccounts(e: Endpoint, c: Command, x: Iso.Transfer)
    requires Accounted(e) && c in e.flying && x.Valid()
    ensures Accounted(Completed(e, c, x))
  {
    hide DataForHost;
    assert CompletedCommands(e.done + [Completion(c, x)]) == CompletedCommands(e.done) + [c];
  }

  lemma CancelledEndpoint(accepted: map<u32, Command>, issuing: seq<Command>, e: Endpoint, ep: nat, c: Command)
    requires EndpointInv(accepted, issuing, e, ep) && c in e.flying
    ensures EndpointInv(accepted, issuing, Cancelled(e, c), ep)
  {
    hide Zipped, Accounted;
    SameZip(e, Cancelled(e, c));
    assert Accounted(Cancelled(e, c)) by { CancelledAccounts(e, c); }
  }

  lemma CancelledAccounts(e: Endpoint, c: Command)
    requires Accounted(e) && c in e.flying
    ensures Accounted(Cancelled(e, c))
  {
    hide CompletedCommands;
  }

  lemma DeviceReadKeeps(s: State, t: State, ep: nat)
    requires Inv(s) && ep < EP_COUNT == |t.eps| && t == s.(eps := s.eps[ep := t.eps[ep]])
    requires t.eps[ep].Pending() == s.eps[ep].Pending() && t.eps[ep].answers == s.eps[ep].answers
    requires EndpointInv(s.accepted, IssuingOn(s.executor, ep), t.eps[ep], ep)
    ensures Inv(t)
  {
    hide Decided, UnlinkInv, WireSafe, Sourced, EndpointInv;
    forall n: u32 ensures Tally(t, n) == Tally(s, n) { TallyOfEndpoint(s, s.executor, ep, t.eps[ep], n); }
    EndpointsUpdate(s, t, ep);
    SourcedStep(s, t);
  }

  lemma CompleteReadKeeps(s: State, c: Command, x: Iso.Transfer)
    requires Inv(s) && Enabled(s, CompleteRead(c, x))
    ensures Inv(Next(s, CompleteRead(c, x)))
  {
    hide Decided, UnlinkInv, WireSafe, SourcedInv, EndpointInv, Completes, DataForHost, TallyInv;
    CompletedEndpoint(s.accepted, IssuingOn(s.executor, c.ep), s.eps[c.ep], c.ep, c, x);
    DeviceReadKeeps(s, Next(s, CompleteRead(c, x)), c.ep);
  }

  lemma CancelReadKeeps(s: State, c: Command)
    requires Inv(s) && Enabled(s, CancelRead(c))
    ensures Inv(Next(s, CancelRead(c)))
  {
    hide Decided, UnlinkInv, WireSafe, SourcedInv, EndpointInv, TallyInv;
    CancelledEndpoint(s.accepted, IssuingOn(s.executor, c.ep), s.eps[c.ep], c.ep, c);
    DeviceReadKeeps(s, Next(s, CancelRead(c)), c.ep);
  }

  lemma WriteReplySourced(s: State, c: Command, x: Iso.Transfer)
    requires |s.eps| == EP_COUNT && WritesInv(s.accepted, s.writes) && Enabled(s, CompleteWrite(c, x))
    ensures Sourced(s.accepted, s.reset, s.eps, WriteReply(c, x))
  {
    hide Reports;
    OwnDataIsFramed(c, x);
    WriteReplyReports(c, x);
  }

  lemma CompleteWriteKeepsTally(s: State, c: Command, x: Iso.Transfer)
    requires |s.eps| == EP_COUNT && TallyInv(s) && Enabled(s, CompleteWrite(c, x))
    ensures TallyInv(Next(s, CompleteWrite(c, x)))
  {
    hide Completes;
    var t := Next(s, CompleteWrite(c, x));
    forall n: u32 ensures Tally(t, n) == Tally(s, n) { CountRepliesAppend(s.replies, WriteReply(c, x), n); }
  }

  lemma CompleteWriteKeeps(s: State, c: Command, x: Iso.Transfer)
    requires Inv(s) && Enabled(s, CompleteWrite(c, x))
    ensures Inv(Next(s, CompleteWrite(c, x)))
  {
    hide Completes, Decided, UnlinkInv, WireSafe, EndpointInv, WriteReply, Sourced, Tally;
    var t := Next(s, CompleteWrite(c, x));
    CompleteWriteKeepsTally(s, c, x);
    EndpointsFrame(s, t);
    WriteReplySourced(s, c, x);
    SourcedStep(s, t);
  }

  lemma CancelWriteTally(s: State, c: Command)
    requires |s.eps| == EP_COUNT && TallyInv(s) && Enabled(s, CancelWrite(c))
    ensures TallyInv(Next(s, CancelWrite(c)))
  {
    hide Count, CountPending, CountReplies;
    var t := Next(s, CancelWrite(c));
    forall n: u32 ensures Tally(t, n) == Tally(s, n) {}
  }

  lemma CancelWriteKeeps(s: State, c: Command)
    requires Inv(s) && Enabled(s, CancelWrite(c))
    ensures Inv(Next(s, CancelWrite(c)))
  {
    hide Completes, Decided, UnlinkInv, WireSafe, EndpointInv, Sourced, Tally;
    var t := Next(s, CancelWrite(c));
    CancelWriteTally(s, c);
    EndpointsFrame(s, t);
    SourcedStep(s, t);
  }

  // -------------------------------------------------------------------- the writer

  /** The reply the writer holds is neither written nor suppressed yet. */
  lemma HeldIsUnsettled(s: State)
    requires TallyInv(s) && !s.writer.Waiting?
    ensures Settled(s, s.writer.reply.seqnum) == 0
  {
    assert Tally(s, s.writer.reply.seqnum) <= 1;
  }

  lemma WriterTally(s: State, step: Step)
    requires |s.eps| == EP_COUNT && Enabled(s, step) && TallyInv(s)
    requires step.WriterPull? || step.WriterCheck? || step.WriterWrite?
    ensures TallyInv(Next(s, step))
  {
    hide Count, CountPending;
    var t := Next(s, step);
    forall n: u32 ensures Tally(t, n) == Tally(s, n) {
      CountRepliesAppend(s.dropped, if s.writer.Waiting? then s.replies[0] else s.writer.reply, n);
      CountRepliesAppend(s.wire, if s.writer.Waiting? then s.replies[0] else s.writer.reply, n);
    }
  }

  lemma WriterPullKeeps(s: State)
    requires Inv(s) && Enabled(s, WriterPull)
    ensures Inv(Next(s, WriterPull))
  {
    hide Completes, EndpointInv, Zipped, Accounted, Tally;
    WriterTally(s, WriterPull);
    EndpointsFrame(s, Next(s, WriterPull));
  }

  /** Suppressed: the target leaves the set, and is settled. */
  lemma UnlinkInvDrops(s: State, r: Reply)
    requires UnlinkInv(s.accepted, s.reset, s.unlinked, s.writer, s.wire, s.dropped)
    requires s.writer == Checking(r) && r.seqnum in s.unlinked
    ensures UnlinkInv(s.accepted, s.reset, s.unlinked - {r.seqnum}, Waiting, s.wire, s.dropped + [r])
  {
    forall n ensures CountReplies(s.dropped + [r], n) == CountReplies(s.dropped, n) + One(r.seqnum, n) {
      CountRepliesAppend(s.dropped, r, n);
    }
  }

  /** Let through: nobody has seen an answer to an unlink of it. */
  lemma UnlinkInvPasses(s: State, r: Reply)
    requires UnlinkInv(s.accepted, s.reset, s.unlinked, s.writer, s.wire, s.dropped)
    requires s.writer == Checking(r) && r.seqnum !in s.unlinked && Settled(s, r.seqnum) == 0
    ensures UnlinkInv(s.accepted, s.reset, s.unlinked, Writing(r), s.wire, s.dropped)
  {
  }

  lemma WriterCheckKeeps(s: State)
    requires Inv(s) && Enabled(s, WriterCheck)
    ensures Inv(Next(s, WriterCheck))
  {
    hide Completes, EndpointInv, Zipped, Accounted, Tally, UnlinkInv, WireSafe, Sourced;
    var (r, t) := (s.writer.reply, Next(s, WriterCheck));
    WriterTally(s, WriterCheck);
    EndpointsFrame(s, t);
    HeldIsUnsettled(s);
    if r.seqnum in s.unlinked { UnlinkInvDrops(s, r); } else { UnlinkInvPasses(s, r); }
  }

  /** Written: nothing answers its unlink yet, and it answers none of an undecided target. */
  lemma UnlinkInvWrites(s: State, r: Reply)
    requires UnlinkInv(s.accepted, s.reset, s.unlinked, s.writer, s.wire, s.dropped) && WireSafe(s.accepted, s.wire)
    requires s.writer == Writing(r)
    ensures UnlinkInv(s.accepted, s.reset, s.unlinked, Waiting, s.wire + [r], s.dropped)
    ensures WireSafe(s.accepted, s.wire + [r])
  {
    forall n ensures CountReplies(s.wire + [r], n) == CountReplies(s.wire, n) + One(r.seqnum, n) {
      CountRepliesAppend(s.wire, r, n);
    }
  }

  lemma WriterWriteKeeps(s: State)
    requires Inv(s) && Enabled(s, WriterWrite)
    ensures Inv(Next(s, WriterWrite))
  {
    hide EndpointInv, Tally, UnlinkInv, WireSafe, Sourced;
    WriterTally(s, WriterWrite);
    EndpointsFrame(s, Next(s, WriterWrite));
    UnlinkInvWrites(s, s.writer.reply);
  }

  // ------------------------------------------------------------------ every step, every run

  lemma StepKeeps(s: State, step: Step)
    requires Inv(s) && Enabled(s, step)
    ensures Inv(Next(s, step)) && |Next(s, step).eps| == EP_COUNT
  {
    hide Next, Enabled;
    match step
    case Receive(c) => ReceiveKeeps(s, c);
    case Pull => PullKeeps(s);
    case Control(usb) => ControlKeeps(s, usb);
    case StartRead => StartReadKeeps(s);
    case PushRead => PushReadKeeps(s);
    case StartWrite => StartWriteKeeps(s);
    case RecordUnlink => RecordUnlinkKeeps(s);
    case ReplyUnlink => ReplyUnlinkKeeps(s);
    case PairPull(ep) => PairPullKeeps(s, ep);
    case PairReply(ep) => PairReplyKeeps(s, ep);
    case CompleteRead(c, x) => CompleteReadKeeps(s, c, x);
    case CompleteWrite(c, x) => CompleteWriteKeeps(s, c, x);
    case CancelRead(c) => CancelReadKeeps(s, c);
    case CancelWrite(c) => CancelWriteKeeps(s, c);
    case WriterPull => WriterPullKeeps(s);
    case WriterCheck => WriterCheckKeeps(s);
    case WriterWrite => WriterWriteKeeps(s);
  }

  lemma InitHolds()
    ensures Inv(Init())
  {
    TallyInit();
  }

  lemma {:induction false} RunKeeps(s: State, steps: seq<Step>, t: State)
    requires |s.eps| == EP_COUNT && Inv(s) && Run(s, steps, t)
    ensures |t.eps| == EP_COUNT && Inv(t)
    decreases |steps|
  {
    hide Inv, Next, Enabled;
    if steps != [] {
      StepKeeps(s, steps[0]);
      RunKeeps(Next(s, steps[0]), steps[1..], t);
    }
  }
}
