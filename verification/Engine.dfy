/** The USB/IP engine as a concurrent system: every thread of class `basic`
    (usb_basic_impl.cpp) cut into the steps other threads can observe. A run is any
    interleaving of the steps. */
module Engine {
  import opened Prelude
  import opened Vhci
  import opened Proxy
  import Iso

  // ------------------------------------------------------------------------ state

  /** The executor between two observable actions. */
  datatype Executor =
    | Idle
    | Holding(cmd: Command)                    // pulled, not acted on yet
    | Issuing(cmd: Command)                    // IN transfer started, command not queued yet
    | Resetting(cmd: Command, status: i32)     // target recorded, RET_UNLINK not queued yet

  /** The reply writer: it looks at the unlinked set under the lock and writes after
      it has let go of the lock. */
  datatype Writer = Waiting | Checking(reply: Reply) | Writing(reply: Reply)

  /** A transfer that ran to completion, and the command it was started for. */
  datatype Completion = Completion(cmd: Command, transfer: Iso.Transfer)

  /** One IN endpoint: its two queues and its pairing thread, then what has happened
      on it so far. The history is never read by a step. */
  datatype Endpoint = Endpoint(
    commands: seq<Command>,           // in_commands_[ep]
    data: seq<TransferData>,          // in_data_[ep]
    hand: Option<Command>,            // pulled by the pairing thread, waiting for data
    flying: multiset<Command>,        // transfers the device works on
    started: seq<Command>,            // history: transfers started
    issued: seq<Command>,             // history: commands pushed
    done: seq<Completion>,            // history: data pushed
    lost: multiset<Command>,          // history: transfers cancelled
    answers: seq<Reply>)              // history: replies pushed
  {
    function Pending(): seq<Command> { (if hand.Some? then [hand.value] else []) + commands }
  }

  datatype State = State(
    accepted: map<u32, Command>,      // history: every command read, by sequence number
    queue: seq<Command>,              // commands_queue_
    executor: Executor,
    eps: seq<Endpoint>,
    writes: multiset<u32>,            // OUT transfers the device works on
    replies: seq<Reply>,              // replies_queue_
    writer: Writer,
    unlinked: set<u32>,               // unlinked_seqnums_
    wire: seq<Reply>,                 // written to the socket
    dropped: seq<Reply>,              // history: suppressed by an unlink
    reset: set<u32>,                  // history: targets of unlinks executed
    cancelled: multiset<u32>)         // history: OUT transfers cancelled

  const EMPTY := Endpoint([], [], None, multiset{}, [], [], [], multiset{}, [])

  function Init(): State {
    State(map[], [], Idle, seq(EP_COUNT, i => EMPTY), multiset{}, [], Waiting, {}, [], [], {}, multiset{})
  }

  // ------------------------------------------------------------------------ steps

  /** What a host may send: fresh sequence numbers, a valid direction and endpoint,
      packets only off the control endpoint, unlinks only of submits. */
  predicate Admissible(s: State, c: Command) {
    && c.WellFormed()
    && c.seqnum !in s.accepted
    && (c.IsIn() || c.IsOut())
    && c.ep < EP_COUNT
    && (c.CmdSubmit? && c.ep == 0 ==> !c.IsIso())
    && (c.CmdUnlink? ==> c.target in s.accepted && s.accepted[c.target].CmdSubmit?)
  }

  datatype Step =
    | Receive(cmd: Command)                         // read_command, push
    | Pull                                          // execute_command: wait_pull
    | Control(usb: Usb)                             // execute_control_command
    | StartRead                                     // read_data_from_device
    | PushRead                                      // in_commands_[ep].push
    | StartWrite                                    // send_data_to_device
    | RecordUnlink                                  // unlink_command, under the lock
    | ReplyUnlink                                   // unlink_command, after the lock
    | PairPull(ep: nat)                             // send_data_to_host: first pull
    | PairReply(ep: nat)                            // send_data_to_host: second pull, push
    | CompleteRead(cmd: Command, transfer: Iso.Transfer)
    | CompleteWrite(cmd: Command, transfer: Iso.Transfer)
    | CancelRead(cmd: Command)
    | CancelWrite(cmd: Command)
    | WriterPull
    | WriterCheck
    | WriterWrite

  ghost predicate Enabled(s: State, step: Step)
    requires |s.eps| == EP_COUNT
  {
    match step
    case Receive(c) => Admissible(s, c)
    case Pull => s.executor == Idle && s.queue != []
    case Control(usb) => s.executor.Holding? && IsControl(s.executor.cmd) && usb.Valid()
    case StartRead => s.executor.Holding? && IsRead(s.executor.cmd)
    case PushRead => s.executor.Issuing? && s.executor.cmd.ep < EP_COUNT
    case StartWrite => s.executor.Holding? && IsWrite(s.executor.cmd)
    case RecordUnlink => s.executor.Holding? && s.executor.cmd.CmdUnlink?
    case ReplyUnlink => s.executor.Resetting? && s.executor.cmd.CmdUnlink?
    case PairPull(ep) => ep < EP_COUNT && s.eps[ep].hand == None && s.eps[ep].commands != []
    case PairReply(ep) =>
      && ep < EP_COUNT && s.eps[ep].hand.Some? && s.eps[ep].data != []
      && s.eps[ep].hand.value.CmdSubmit? && s.eps[ep].hand.value.IsIn() && s.eps[ep].data[0].Valid()
    case CompleteRead(c, t) => c.ep < EP_COUNT && c in s.eps[c.ep].flying && Completes(c, t) && t.Valid()
    case CompleteWrite(c, t) =>
      c.seqnum in s.writes && MapsTo(s.accepted, c) && c.IsOut() && Completes(c, t) && t.Valid()
    case CancelRead(c) => c.ep < EP_COUNT && c in s.eps[c.ep].flying
    case CancelWrite(c) => c.seqnum in s.writes && MapsTo(s.accepted, c)
    case WriterPull => s.writer == Waiting && s.replies != []
    case WriterCheck => s.writer.Checking?
    case WriterWrite => s.writer.Writing?
  }

  // How `execute_command` and `execute_ep_command` sort what they pulled.

  predicate IsControl(c: Command) { ControlCommand(c) && c.ep == 0 }
  predicate IsRead(c: Command) { c.CmdSubmit? && c.IsIn() && 0 < c.ep < EP_COUNT }
  predicate IsWrite(c: Command) { c.CmdSubmit? && c.IsOut() && c.ep != 0 }

  predicate MapsTo(m: map<u32, Command>, c: Command) { c.seqnum in m && m[c.seqnum] == c }

  function PairedReply(c: Command, d: TransferData): (r: Reply)
    requires c.CmdSubmit? && c.IsIn() && d.Valid()
    ensures r.RetSubmit? && r.seqnum == c.seqnum
  {
    ReplyFor(InRequest(c, d))
  }

  function ControlReply(c: Command, usb: Usb): (r: Reply)
    requires ControlCommand(c) && usb.Valid()
    ensures r.RetSubmit? && r.seqnum == c.seqnum
  {
    ControlReplyIsFramed(c, usb);
    ReplyFor(ControlRequest(c, usb))
  }

  function WriteReply(c: Command, t: Iso.Transfer): (r: Reply)
    requires c.CmdSubmit? && c.IsOut() && t.Valid()
    ensures r.RetSubmit? && r.seqnum == c.seqnum
  {
    ReplyFor(OutRequest(c, t))
  }

  function UnlinkReply(c: Command, status: i32): (r: Reply)
    requires c.CmdUnlink?
    ensures r.RetUnlink? && r.seqnum == c.seqnum && r.status == status
  {
    ReplyFor(ReplyRequest(c, None, 0, status, 0, 0))
  }

  const ECONNRESET := 104

  /** What `unlink_command` finds under the lock. */
  function UnlinkStatus(c: Command, unlinked: set<u32>): i32
    requires c.CmdUnlink?
  {
    if c.target in unlinked then 0 else -ECONNRESET
  }

  // What an endpoint looks like after a step on it.

  function Started(e: Endpoint, c: Command): Endpoint {
    e.(flying := e.flying + multiset{c}, started := e.started + [c])
  }

  function Issued(e: Endpoint, c: Command): Endpoint {
    e.(commands := e.commands + [c], issued := e.issued + [c])
  }

  function HandFilled(e: Endpoint): Endpoint
    requires e.commands != []
  {
    e.(hand := Some(e.commands[0]), commands := e.commands[1..])
  }

  function Answered(e: Endpoint): Endpoint
    requires e.hand.Some? && e.data != []
    requires e.hand.value.CmdSubmit? && e.hand.value.IsIn() && e.data[0].Valid()
  {
    e.(hand := None, data := e.data[1..], answers := e.answers + [PairedReply(e.hand.value, e.data[0])])
  }

  function Completed(e: Endpoint, c: Command, t: Iso.Transfer): Endpoint
    requires t.Valid()
  {
    e.(flying := e.flying - multiset{c}, data := e.data + [DataForHost(t)], done := e.done + [Completion(c, t)])
  }

  function Cancelled(e: Endpoint, c: Command): Endpoint {
    e.(flying := e.flying - multiset{c}, lost := e.lost + multiset{c})
  }

  ghost function Next(s: State, step: Step): State
    requires |s.eps| == EP_COUNT && Enabled(s, step)
  {
    match step
    case Receive(c) => s.(queue := s.queue + [c], accepted := s.accepted[c.seqnum := c])
    case Pull => s.(executor := Holding(s.queue[0]), queue := s.queue[1..])
    case Control(usb) => s.(executor := Idle, replies := s.replies + [ControlReply(s.executor.cmd, usb)])
    case StartRead =>
      var c := s.executor.cmd;
      s.(executor := Issuing(c), eps := s.eps[c.ep := Started(s.eps[c.ep], c)])
    case PushRead =>
      var c := s.executor.cmd;
      s.(executor := Idle, eps := s.eps[c.ep := Issued(s.eps[c.ep], c)])
    case StartWrite => s.(executor := Idle, writes := s.writes + multiset{s.executor.cmd.seqnum})
    case RecordUnlink =>
      var c := s.executor.cmd;
      s.(executor := Resetting(c, UnlinkStatus(c, s.unlinked)),
         unlinked := s.unlinked + {c.target}, reset := s.reset + {c.target})
    case ReplyUnlink =>
      s.(executor := Idle, replies := s.replies + [UnlinkReply(s.executor.cmd, s.executor.status)])
    case PairPull(ep) => s.(eps := s.eps[ep := HandFilled(s.eps[ep])])
    case PairReply(ep) =>
      var e := s.eps[ep];
      s.(eps := s.eps[ep := Answered(e)], replies := s.replies + [PairedReply(e.hand.value, e.data[0])])
    case CompleteRead(c, t) => s.(eps := s.eps[c.ep := Completed(s.eps[c.ep], c, t)])
    case CompleteWrite(c, t) =>
      s.(writes := s.writes - multiset{c.seqnum}, replies := s.replies + [WriteReply(c, t)])
    case CancelRead(c) => s.(eps := s.eps[c.ep := Cancelled(s.eps[c.ep], c)])
    case CancelWrite(c) =>
      s.(writes := s.writes - multiset{c.seqnum}, cancelled := s.cancelled + multiset{c.seqnum})
    case WriterPull => s.(writer := Checking(s.replies[0]), replies := s.replies[1..])
    case WriterCheck =>
      var r := s.writer.reply;
      if r.seqnum in s.unlinked then
        s.(writer := Waiting, unlinked := s.unlinked - {r.seqnum}, dropped := s.dropped + [r])
      else s.(writer := Writing(r))
    case WriterWrite => s.(writer := Waiting, wire := s.wire + [s.writer.reply])
  }

  /** t follows from s by the given steps. */
  ghost predicate Run(s: State, steps: seq<Step>, t: State)
    requires |s.eps| == EP_COUNT
    decreases |steps|
  {
    if steps == [] then s == t else Enabled(s, steps[0]) && Run(Next(s, steps[0]), steps[1..], t)
  }

  // ------------------------------------------------------------- where a command is

  function One(c: u32, n: u32): nat { if c == n then 1 else 0 }

  /** How often sequence number n occurs. */
  function Count(cs: seq<Command>, n: u32): nat {
    if cs == [] then 0 else One(cs[0].seqnum, n) + Count(cs[1..], n)
  }

  function CountReplies(rs: seq<Reply>, n: u32): nat {
    if rs == [] then 0 else One(rs[0].seqnum, n) + CountReplies(rs[1..], n)
  }

  function CountPending(eps: seq<Endpoint>, n: u32): nat {
    if eps == [] then 0 else Count(eps[0].Pending(), n) + CountPending(eps[1..], n)
  }

  function CountExecutor(x: Executor, n: u32): nat { if x.Idle? then 0 else One(x.cmd.seqnum, n) }

  function CountWriter(w: Writer, n: u32): nat { if w.Waiting? then 0 else One(w.reply.seqnum, n) }

  /** Replies not decided on, or decided on and not written yet. */
  function Unsettled(s: State, n: u32): nat { CountReplies(s.replies, n) + CountWriter(s.writer, n) }

  /** Replies written or suppressed. */
  function Settled(s: State, n: u32): nat { CountReplies(s.wire, n) + CountReplies(s.dropped, n) }

  /** In how many places a command, or the reply to it, is. */
  function Tally(s: State, n: u32): nat {
    Count(s.queue, n) + CountExecutor(s.executor, n) + CountPending(s.eps, n)
    + s.writes[n] + s.cancelled[n] + Unsettled(s, n) + Settled(s, n)
  }
}
