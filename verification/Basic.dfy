/** Class `basic` (usb_basic.cppm, usb_basic_impl.cpp) with the queues, the set and
    the socket as fields its threads update. Each method is one step of one thread,
    and does to the abstract state exactly what the engine's step does. */
module Basic {
  import opened Prelude
  import opened Vhci
  import opened Proxy
  import opened Engine
  import opened EngineInvariants
  import opened EngineProofs
  import opened Replies
  import Iso

  // What a thread may rely on about what it holds.

  lemma HeldByExecutor(s: State)
    requires Inv(s)
    ensures s.executor.Issuing? ==> IsRead(s.executor.cmd)
    ensures s.executor.Resetting? ==> s.executor.cmd.CmdUnlink?
  {
  }

  lemma HeldControl(s: State)
    requires Inv(s) && s.executor.Holding? && s.executor.cmd.CmdSubmit? && s.executor.cmd.ep == 0
    ensures IsControl(s.executor.cmd)
  {
    hide EndpointsInv, TallyInv, SourcedInv, UnlinkInv, WireSafe;
  }

  lemma HeldByPairing(s: State, ep: nat)
    requires Inv(s) && ep < EP_COUNT && s.eps[ep].hand.Some? && s.eps[ep].data != []
    ensures Enabled(s, PairReply(ep))
  {
    hide TallyInv, SourcedInv, UnlinkInv, WireSafe, Zipped;
    assert EndpointInv(s.accepted, IssuingOn(s.executor, ep), s.eps[ep], ep);
    AnsweredEndpoint(s.eps[ep]);
  }

  /** The data next in the queue is that of the completion in this slot. */
  lemma DataInHand(s: State, ep: nat)
    requires Inv(s) && ep < EP_COUNT && s.eps[ep].hand.Some? && s.eps[ep].data != []
    ensures var e := s.eps[ep]; var n := |e.answers|;
      n < |e.done| && e.done[n].transfer.Valid() && e.data[0] == DataForHost(e.done[n].transfer)
  {
    hide TallyInv, SourcedInv, UnlinkInv, WireSafe, PairedReply, DataForHost, Completes;
    assert EndpointInv(s.accepted, IssuingOn(s.executor, ep), s.eps[ep], ep);
  }

  lemma HeldWrite(s: State)
    requires Inv(s) && s.executor.Holding? && IsWrite(s.executor.cmd)
    ensures s.executor.cmd.WellFormed() && s.executor.cmd.IsOut()
  {
    hide EndpointsInv, TallyInv, SourcedInv, UnlinkInv, WireSafe;
  }

  lemma WriteIsOut(s: State, c: Command)
    requires Inv(s) && c.seqnum in s.writes && MapsTo(s.accepted, c)
    ensures c.CmdSubmit? && c.IsOut()
  {
  }

  class Device {
    var commandsQueue: seq<Command>
    var inCommands: seq<seq<Command>>
    var inData: seq<seq<TransferData>>
    var repliesQueue: seq<Reply>
    var unlinkedSeqnums: set<u32>
    var socket: seq<Reply>

    // Locals of the threads that outlive one step.
    var executor: Executor
    var hands: seq<Option<Command>>
    var writer: Writer

    // The device underneath, and the history of the run.
    ghost var eps: seq<Endpoint>
    ghost var writes: multiset<u32>
    ghost var accepted: map<u32, Command>
    ghost var dropped: seq<Reply>
    ghost var reset: set<u32>
    ghost var cancelled: multiset<u32>

    ghost function View(): State
      reads this
    {
      State(accepted, commandsQueue, executor, eps, writes, repliesQueue, writer, unlinkedSeqnums, socket,
            dropped, reset, cancelled)
    }

    /** The endpoint queues are the ones the history speaks of. */
    ghost predicate Tied()
      reads this
    {
      && |eps| == |inCommands| == |inData| == |hands| == EP_COUNT
      && forall i :: 0 <= i < EP_COUNT ==>
           eps[i].commands == inCommands[i] && eps[i].data == inData[i] && eps[i].hand == hands[i]
    }

    ghost predicate Valid()
      reads this
    {
      Tied() && Inv(View())
    }

    constructor ()
      ensures Valid() && View() == Init()
    {
      commandsQueue, repliesQueue, unlinkedSeqnums, socket := [], [], {}, [];
      inCommands, inData, hands := seq(EP_COUNT, i => []), seq(EP_COUNT, i => []), seq(EP_COUNT, i => None);
      executor, writer := Idle, Waiting;
      eps, writes, accepted, dropped := Init().eps, multiset{}, map[], [];
      reset, cancelled := {}, multiset{};
      InitHolds();
    }

    /** The whole state is the one the engine's step leads to, and stays valid. */
    twostate predicate Takes(step: Step)
      reads this
    {
      && |old(eps)| == EP_COUNT && Enabled(old(View()), step)
      && View() == Next(old(View()), step)
      && Valid()
    }

    twostate lemma Stepped(step: Step)
      requires old(Valid()) && Enabled(old(View()), step)
      requires Tied() && View() == Next(old(View()), step)
      ensures Takes(step)
    {
      hide Inv, Next, Enabled, View;
      StepKeeps(old(View()), step);
    }

    // ------------------------------------------------------------- the reading thread

    method PushCommand(cmd: Command)
      requires Valid() && Admissible(View(), cmd)
      modifies this
      ensures Takes(Receive(cmd))
    {
      hide Inv;
      commandsQueue := commandsQueue + [cmd];
      accepted := accepted[cmd.seqnum := cmd];
      Stepped(Receive(cmd));
    }

    // -------------------------------------------------------------------- the executor

    method PullCommand()
      requires Valid() && executor == Idle && commandsQueue != []
      modifies this
      ensures Takes(Pull)
    {
      hide Inv;
      executor, commandsQueue := Holding(commandsQueue[0]), commandsQueue[1..];
      Stepped(Pull);
    }

    /** `queue_reply_to_host`: build the message, push it. */
    method QueueReplyToHost(req: ReplyRequest)
      requires req.Readable()
      modifies this`repliesQueue
      ensures repliesQueue == old(repliesQueue) + [ReplyFor(req)]
    {
      var reply: Reply;
      match req.cmd
      case CmdSubmit(seqnum, devid, direction, ep, _, _, startFrame, packets, _, _, _) =>
        var payloadSize := if direction == DIR_OUT then 0 else req.size;
        if IsoCount(packets) { payloadSize := payloadSize + req.isoDescriptorSize; }
        var payload := [];
        if req.data.Some? { payload := req.data.value[..payloadSize]; }
        reply := RetSubmit(seqnum, devid, direction, ep, req.status, Int32(req.size), startFrame, packets,
                           Int32(req.errorCount), payload);
        repliesQueue := repliesQueue + [reply];
      case CmdUnlink(seqnum, devid, direction, ep, _) =>
        reply := RetUnlink(seqnum, devid, direction, ep, req.status);
        repliesQueue := repliesQueue + [reply];
    }

    method ExecuteControlCommand(usb: Usb)
      requires Valid() && executor.Holding? && executor.cmd.CmdSubmit? && executor.cmd.ep == 0 && usb.Valid()
      modifies this
      ensures |old(executor.cmd).setup| == 8
      ensures exists r :: repliesQueue == old(repliesQueue) + [r] && Answers(old(executor.cmd), usb, r)
      ensures Takes(Control(usb))
    {
      hide Inv, Answers;
      HeldControl(View());
      ControlReplyAnswers(executor.cmd, usb);
      QueueReplyToHost(ControlRequest(executor.cmd, usb));
      executor := Idle;
      Stepped(Control(usb));
    }

    /** `execute_ep_command` for an IN endpoint, up to the push. */
    method ReadDataFromDevice()
      requires Valid() && executor.Holding? && IsRead(executor.cmd)
      modifies this
      ensures Takes(StartRead)
    {
      hide Inv;
      var cmd := executor.cmd;
      eps := eps[cmd.ep := Started(eps[cmd.ep], cmd)];
      executor := Issuing(cmd);
      Stepped(StartRead);
    }

    method PushInCommand()
      requires Valid() && executor.Issuing?
      modifies this
      ensures Takes(PushRead)
    {
      hide Inv;
      HeldByExecutor(View());
      var cmd := executor.cmd;
      inCommands := inCommands[cmd.ep := inCommands[cmd.ep] + [cmd]];
      eps := eps[cmd.ep := Issued(eps[cmd.ep], cmd)];
      executor := Idle;
      Stepped(PushRead);
    }

    /** The device is given the host's bytes, without the descriptors behind them. */
    method SendDataToDevice() returns (buffer: seq<byte>)
      requires Valid() && executor.Holding? && IsWrite(executor.cmd)
      modifies this
      ensures old(executor.cmd).CmdSubmit?
      ensures |buffer| == old(executor.cmd).bufferLength && buffer <= old(executor.cmd).payload
      ensures Takes(StartWrite)
    {
      hide Inv;
      HeldWrite(View());
      buffer := PrepareTransferBuffer(executor.cmd);
      PreparedBuffers(executor.cmd);
      writes := writes + multiset{executor.cmd.seqnum};
      executor := Idle;
      Stepped(StartWrite);
    }

    /** `unlink_command`, the part under the lock. */
    method RecordUnlinkedSeqnum()
      requires Valid() && executor.Holding? && executor.cmd.CmdUnlink?
      modifies this
      ensures Takes(RecordUnlink)
    {
      hide Inv;
      var cmd := executor.cmd;
      var status: i32 := 0;
      if cmd.target !in unlinkedSeqnums {
        unlinkedSeqnums := unlinkedSeqnums + {cmd.target};
        status := -ECONNRESET;
      }
      assert unlinkedSeqnums == old(unlinkedSeqnums) + {cmd.target};
      reset := reset + {cmd.target};
      executor := Resetting(cmd, status);
      Stepped(RecordUnlink);
    }

    method ReplyToUnlink()
      requires Valid() && executor.Resetting?
      modifies this
      ensures Takes(ReplyUnlink)
    {
      hide Inv;
      HeldByExecutor(View());
      QueueReplyToHost(ReplyRequest(executor.cmd, None, 0, executor.status, 0, 0));
      executor := Idle;
      Stepped(ReplyUnlink);
    }

    // --------------------------------------------------------------- the pairing threads

    method PullInCommand(ep: nat)
      requires Valid() && ep < EP_COUNT && hands[ep] == None && inCommands[ep] != []
      modifies this
      ensures Takes(PairPull(ep))
    {
      hide Inv;
      hands := hands[ep := Some(inCommands[ep][0])];
      inCommands := inCommands[ep := inCommands[ep][1..]];
      eps := eps[ep := HandFilled(eps[ep])];
      Stepped(PairPull(ep));
    }

    /** The second half of `send_data_to_host`. That the command is a read and the
        data well formed is not asked for: it follows. */
    method SendDataToHost(ep: nat)
      requires Valid() && ep < EP_COUNT && hands[ep].Some? && inData[ep] != []
      modifies this
      ensures var e := old(eps[ep]); var n := |e.answers|;
        && n < |e.done| && e.done[n].transfer.Valid()
        && exists r :: repliesQueue == old(repliesQueue) + [r] && Delivers(old(hands[ep].value), e.done[n].transfer, r)
      ensures Takes(PairReply(ep))
    {
      hide Inv, Delivers, InRequest, DataForHost;
      var (cmd, data) := (hands[ep].value, inData[ep][0]);
      ghost var e := eps[ep];
      HeldByPairing(View(), ep);
      DataInHand(View(), ep);
      ReadReplyDelivers(cmd, e.done[|e.answers|].transfer);
      QueueReplyToHost(InRequest(cmd, data));
      inData := inData[ep := inData[ep][1..]];
      hands := hands[ep := None];
      eps := eps[ep := Answered(e)];
      Stepped(PairReply(ep));
    }

    // ------------------------------------------------------------- the completion thread

    /** The first part of `queue_data_for_host`: gather and describe. */
    method CollectData(transfer: Iso.Transfer) returns (d: TransferData)
      requires transfer.Valid()
      ensures d == DataForHost(transfer)
    {
      if transfer.IsIso() {
        var iso := Iso.DescribePackets(transfer);
        var data := Iso.GatherIsoData(transfer);
        Iso.SizesAgree(transfer);
        data := data + Zeros(iso.dataSize - |data|);
        d := TransferData(data + Iso.DescriptorBytes(iso.list), |transfer.packets| * ISO_DESCRIPTOR_SIZE, iso.errorCount);
      } else {
        d := TransferData(transfer.buffer[..transfer.actualLength], 0, 0);
      }
    }

    /** The rest of it: push. */
    method QueueDataForHost(ghost cmd: Command, ep: nat, transfer: Iso.Transfer)
      requires Valid() && ep == cmd.ep < EP_COUNT && cmd in eps[ep].flying && Completes(cmd, transfer)
      modifies this
      ensures transfer.Valid()
      ensures Takes(CompleteRead(cmd, transfer))
    {
      hide Inv, DataForHost;
      CompletedIsValid(cmd, transfer);
      var d := CollectData(transfer);
      inData := inData[ep := inData[ep] + [d]];
      eps := eps[ep := Completed(eps[ep], cmd, transfer)];
      Stepped(CompleteRead(cmd, transfer));
    }

    method OnOutTransferComplete(cmd: Command, transfer: Iso.Transfer)
      requires Valid() && cmd.seqnum in writes && MapsTo(accepted, cmd) && Completes(cmd, transfer)
      modifies this
      ensures transfer.Valid()
      ensures exists r :: repliesQueue == old(repliesQueue) + [r] && Reports(cmd, transfer, r)
      ensures Takes(CompleteWrite(cmd, transfer))
    {
      hide Inv, Reports;
      CompletedIsValid(cmd, transfer);
      WriteIsOut(View(), cmd);
      WriteReplyReports(cmd, transfer);
      QueueReplyToHost(OutRequest(cmd, transfer));
      writes := writes - multiset{cmd.seqnum};
      Stepped(CompleteWrite(cmd, transfer));
    }

    // --------------------------------------------------------------------- the writer

    method PullReply()
      requires Valid() && writer == Waiting && repliesQueue != []
      modifies this
      ensures Takes(WriterPull)
    {
      hide Inv;
      writer, repliesQueue := Checking(repliesQueue[0]), repliesQueue[1..];
      Stepped(WriterPull);
    }

    /** Under the lock: suppress the reply and forget its number, or let it pass. */
    method CheckUnlinked()
      requires Valid() && writer.Checking?
      modifies this
      ensures Takes(WriterCheck)
    {
      hide Inv;
      var reply := writer.reply;
      if reply.seqnum in unlinkedSeqnums {
        unlinkedSeqnums := unlinkedSeqnums - {reply.seqnum};
        dropped := dropped + [reply];
        writer := Waiting;
      } else {
        writer := Writing(reply);
      }
      Stepped(WriterCheck);
    }

    method WriteReply()
      requires Valid() && writer.Writing?
      modifies this
      ensures Takes(WriterWrite)
    {
      hide Inv;
      socket := socket + [writer.reply];
      writer := Waiting;
      Stepped(WriterWrite);
    }
  }
}
