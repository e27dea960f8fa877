/** The invariants every step of the engine keeps. */
module EngineInvariants {
  import opened Prelude
  import opened Vhci
  import opened Proxy
  import opened Engine
  import opened Replies
  import Iso

  // -------------------------------------------------------------------- invariants

  /** What was read from the host is what the host may send. */
  ghost predicate AcceptedInv(accepted: map<u32, Command>) {
    forall n :: n in accepted ==> var c := accepted[n];
      && c.seqnum == n && c.WellFormed() && (c.IsIn() || c.IsOut()) && c.ep < EP_COUNT
      && (c.CmdSubmit? && c.ep == 0 ==> !c.IsIso())
      && (c.CmdUnlink? ==> c.target in accepted && accepted[c.target].CmdSubmit?)
  }

  ghost predicate QueueInv(accepted: map<u32, Command>, queue: seq<Command>) {
    forall i :: 0 <= i < |queue| ==> MapsTo(accepted, queue[i])
  }

  ghost predicate ExecutorInv(accepted: map<u32, Command>, reset: set<u32>, x: Executor) {
    && (!x.Idle? ==> MapsTo(accepted, x.cmd))
    && (x.Issuing? ==> IsRead(x.cmd))
    && (x.Resetting? ==> x.cmd.CmdUnlink? && x.cmd.target in reset && x.status in {0, -104})
  }

  ghost predicate WritesInv(accepted: map<u32, Command>, writes: multiset<u32>) {
    forall n :: n in writes ==> n in accepted && IsWrite(accepted[n])
  }

  /** Pairing: the answers are the first commands zipped with the first data; what is
      left of both waits in the queues. */
  ghost predicate Zipped(e: Endpoint) {
    var n := |e.answers|;
    && n <= |e.issued| && e.issued[n..] == e.Pending()
    && n <= |e.done| && |e.data| == |e.done| - n
    && (forall i :: 0 <= i < |e.issued| ==> IsRead(e.issued[i]))
    && (forall i :: 0 <= i < |e.done| ==> Completes(e.done[i].cmd, e.done[i].transfer) && e.done[i].transfer.Valid())
    && (forall i :: 0 <= i < |e.data| ==> e.data[i] == DataForHost(e.done[n + i].transfer))
    && (forall i :: 0 <= i < n ==> e.answers[i] == PairedReply(e.issued[i], DataForHost(e.done[i].transfer)))
  }

  function CompletedCommands(done: seq<Completion>): (cs: seq<Command>)
    ensures |cs| == |done|
  {
    seq(|done|, i requires 0 <= i < |done| => done[i].cmd)
  }

  /** Every transfer started is with the device, or delivered its data, or cancelled. */
  ghost predicate Accounted(e: Endpoint) {
    multiset(e.started) == multiset(CompletedCommands(e.done)) + e.flying + e.lost
  }

  /** The command whose transfer is started on ep and that is not queued there yet. */
  function IssuingOn(x: Executor, ep: nat): seq<Command> {
    if x.Issuing? && x.cmd.ep == ep then [x.cmd] else []
  }

  ghost predicate EndpointInv(accepted: map<u32, Command>, issuing: seq<Command>, e: Endpoint, ep: nat) {
    && Zipped(e)
    && Accounted(e)
    && e.started == e.issued + issuing
    && (forall i :: 0 <= i < |e.started| ==>
          MapsTo(accepted, e.started[i]) && IsRead(e.started[i]) && e.started[i].ep == ep)
  }

  ghost predicate EndpointsInv(s: State) {
    && |s.eps| == EP_COUNT
    && forall ep :: 0 <= ep < EP_COUNT ==> EndpointInv(s.accepted, IssuingOn(s.executor, ep), s.eps[ep], ep)
  }

  /** Conservation: every command read is in exactly one place, exactly once. */
  ghost predicate TallyInv(s: State) {
    forall n: u32 :: Tally(s, n) == if n in s.accepted then 1 else 0
  }

  /** r says what the device did for a command that is not a read. */
  ghost predicate Genuine(c: Command, r: Reply) {
    && (c.CmdUnlink? ==> r.RetUnlink? && r.devid == c.devid && r.status in {0, -104})
    && (IsControl(c) ==> exists usb: Usb :: usb.Valid() && Answers(c, usb, r))
    && (IsWrite(c) ==> exists x: Iso.Transfer :: Completes(c, x) && x.Valid() && Reports(c, x, r))
  }

  /** Where a reply comes from. Its payload is the one its header announces, unless it
      answers a read: then it is one of the answers of its endpoint. */
  ghost predicate Sourced(accepted: map<u32, Command>, reset: set<u32>, eps: seq<Endpoint>, r: Reply) {
    && |eps| == EP_COUNT
    && r.seqnum in accepted
    && var c := accepted[r.seqnum];
    && (r.RetUnlink? <==> c.CmdUnlink?)
    && r.ep == c.ep && r.direction == c.direction
    && (c.CmdUnlink? ==> c.target in reset)
    && (if IsRead(c) then r in eps[c.ep].answers else r.Framed() && Genuine(c, r))
  }

  ghost predicate AllSourced(accepted: map<u32, Command>, reset: set<u32>, eps: seq<Endpoint>, rs: seq<Reply>) {
    forall i :: 0 <= i < |rs| ==> Sourced(accepted, reset, eps, rs[i])
  }

  ghost predicate SourcedInv(s: State) {
    && AllSourced(s.accepted, s.reset, s.eps, s.replies)
    && (!s.writer.Waiting? ==> Sourced(s.accepted, s.reset, s.eps, s.writer.reply))
    && AllSourced(s.accepted, s.reset, s.eps, s.wire)
    && AllSourced(s.accepted, s.reset, s.eps, s.dropped)
  }

  /** u is the answer to an unlink of n. */
  predicate Unlinks(accepted: map<u32, Command>, u: Reply, n: u32) {
    u.seqnum in accepted && accepted[u.seqnum].CmdUnlink? && accepted[u.seqnum].target == n
  }

  /** n is still to be suppressed, or the writer has settled it. */
  ghost predicate Decided(unlinked: set<u32>, wire: seq<Reply>, dropped: seq<Reply>, n: u32) {
    n in unlinked || CountReplies(wire, n) + CountReplies(dropped, n) > 0
  }

  /** Nothing on the wire answers a submit after its unlink has been answered. */
  ghost predicate WireSafe(accepted: map<u32, Command>, wire: seq<Reply>) {
    forall i, j :: 0 <= i < j < |wire| ==> !Unlinks(accepted, wire[i], wire[j].seqnum)
  }

  /** Every target of an unlink is decided, but for the one the writer has let through
      and not written; and nothing the writer has, or has written, answers an unlink
      of an undecided target. */
  ghost predicate UnlinkInv(accepted: map<u32, Command>, reset: set<u32>, unlinked: set<u32>, writer: Writer,
                            wire: seq<Reply>, dropped: seq<Reply>) {
    && unlinked <= reset
    && (forall n :: n in reset ==>
          && n in accepted && accepted[n].CmdSubmit?
          && (Decided(unlinked, wire, dropped, n) || (writer.Writing? && writer.reply.seqnum == n)))
    && (forall i, n {:trigger Unlinks(accepted, wire[i], n)} ::
          0 <= i < |wire| && Unlinks(accepted, wire[i], n) ==> Decided(unlinked, wire, dropped, n))
    && (!writer.Waiting? ==>
          forall n :: Unlinks(accepted, writer.reply, n) ==> Decided(unlinked, wire, dropped, n))
    && (writer.Writing? ==> forall i :: 0 <= i < |wire| ==> !Unlinks(accepted, wire[i], writer.reply.seqnum))
    && (forall i :: 0 <= i < |dropped| ==> dropped[i].seqnum in reset)
  }

  ghost predicate Inv(s: State) {
    && AcceptedInv(s.accepted)
    && QueueInv(s.accepted, s.queue)
    && ExecutorInv(s.accepted, s.reset, s.executor)
    && WritesInv(s.accepted, s.writes)
    && EndpointsInv(s)
    && TallyInv(s)
    && SourcedInv(s)
    && UnlinkInv(s.accepted, s.reset, s.unlinked, s.writer, s.wire, s.dropped)
    && WireSafe(s.accepted, s.wire)
  }

  // ----------------------------------------------------------------- conservation

  lemma {:induction false} CountAppend(cs: seq<Command>, c: Command, n: u32)
    ensures Count(cs + [c], n) == Count(cs, n) + One(c.seqnum, n)
  {
    if cs == [] {
      assert cs + [c] == [c];
    } else {
      assert (cs + [c])[0] == cs[0] && (cs + [c])[1..] == cs[1..] + [c];
      CountAppend(cs[1..], c, n);
    }
  }

  lemma {:induction false} CountRepliesAppend(rs: seq<Reply>, r: Reply, n: u32)
    ensures CountReplies(rs + [r], n) == CountReplies(rs, n) + One(r.seqnum, n)
  {
    if rs == [] {
      assert rs + [r] == [r];
    } else {
      assert (rs + [r])[0] == rs[0] && (rs + [r])[1..] == rs[1..] + [r];
      CountRepliesAppend(rs[1..], r, n);
    }
  }

  lemma {:induction false} CountPendingUpdate(eps: seq<Endpoint>, ep: nat, e: Endpoint, n: u32)
    requires ep < |eps|
    ensures CountPending(eps[ep := e], n) == CountPending(eps, n) - Count(eps[ep].Pending(), n) + Count(e.Pending(), n)
  {
    var next := eps[ep := e];
    if ep == 0 {
      assert next[1..] == eps[1..];
    } else {
      assert next[0] == eps[0] && next[1..] == eps[1..][ep - 1 := e];
      CountPendingUpdate(eps[1..], ep - 1, e, n);
    }
  }

  lemma {:induction false} NothingPending(eps: seq<Endpoint>, n: u32)
    requires forall i :: 0 <= i < |eps| ==> eps[i].Pending() == []
    ensures CountPending(eps, n) == 0
  {
    if eps != [] { NothingPending(eps[1..], n); }
  }

  lemma TallyInit()
    ensures TallyInv(Init())
  {
    forall n: u32 ensures Tally(Init(), n) == 0 { NothingPending(Init().eps, n); }
  }

  /** Something changes on an endpoint, but not what is pending there. */
  lemma TallyOfEndpoint(s: State, x: Executor, ep: nat, e: Endpoint, n: u32)
    requires ep < |s.eps| && e.Pending() == s.eps[ep].Pending()
    requires CountExecutor(x, n) == CountExecutor(s.executor, n)
    ensures Tally(s.(executor := x, eps := s.eps[ep := e]), n) == Tally(s, n)
  {
    hide Count, CountPending, CountReplies;
    CountPendingUpdate(s.eps, ep, e, n);
  }

  lemma TallyOfPush(s: State, n: u32)
    requires |s.eps| == EP_COUNT && Enabled(s, PushRead)
    ensures Tally(Next(s, PushRead), n) == Tally(s, n)
  {
    hide Count, CountPending, CountReplies;
    var c := s.executor.cmd;
    var e := Issued(s.eps[c.ep], c);
    CountPendingUpdate(s.eps, c.ep, e, n);
    assert e.Pending() == s.eps[c.ep].Pending() + [c];
    CountAppend(s.eps[c.ep].Pending(), c, n);
  }

  lemma CountHand(e: Endpoint, n: u32)
    requires e.hand.Some?
    ensures Count(e.Pending(), n) == One(e.hand.value.seqnum, n) + Count(e.(hand := None).Pending(), n)
  {
    assert e.Pending()[0] == e.hand.value && e.Pending()[1..] == e.(hand := None).Pending();
  }

  lemma TallyOfPair(s: State, ep: nat, n: u32)
    requires |s.eps| == EP_COUNT && Enabled(s, PairReply(ep))
    ensures Tally(Next(s, PairReply(ep)), n) == Tally(s, n)
  {
    hide CountPending, CountReplies, Count, PairedReply;
    var e := s.eps[ep];
    var e' := Answered(e);
    CountRepliesAppend(s.replies, PairedReply(e.hand.value, e.data[0]), n);
    CountPendingUpdate(s.eps, ep, e', n);
    CountHand(e, n);
  }
}
