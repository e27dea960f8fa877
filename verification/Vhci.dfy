/** USB/IP messages (vhci.cppm, vhci_impl.cpp) and the two directions of the
    byte stream: commands read by `read_command`, replies written by the reply
    thread and read back by a host that sees headers only. */
module Vhci {
  import opened Prelude

  const CMD_SUBMIT: u32 := 1
  const CMD_UNLINK: u32 := 2
  const RET_SUBMIT: u32 := 3
  const RET_UNLINK: u32 := 4

  const DIR_OUT: u32 := 0
  const DIR_IN: u32 := 1

  const HEADER_SIZE := 48
  const ISO_DESCRIPTOR_SIZE := 16
  const EP_COUNT := 16

  predicate IsoCount(packets: i32) { packets != 0 && packets != -1 }

  datatype Command =
    | CmdSubmit(seqnum: u32, devid: u32, direction: u32, ep: u32,
                flags: u32, bufferLength: i32, startFrame: i32, packets: i32, interval: i32,
                setup: seq<byte>, payload: seq<byte>)
    | CmdUnlink(seqnum: u32, devid: u32, direction: u32, ep: u32, target: u32)
  {
    predicate IsIn() { direction == DIR_IN }
    predicate IsOut() { direction == DIR_OUT }

    predicate IsIso()
      requires CmdSubmit?
    {
      IsoCount(packets)
    }

    /** `payload_size`: 64-bit sums narrowed to a signed 32-bit int. */
    function PayloadSize(): i32 {
      if CmdUnlink? then 0
      else Int32((if IsOut() then bufferLength else 0) + (if IsIso() then packets * ISO_DESCRIPTOR_SIZE else 0))
    }

    /** What a host that follows the protocol sends. */
    predicate WellFormed() {
      CmdSubmit? ==>
        && |setup| == 8
        && bufferLength >= 0
        && packets >= -1
        && |payload| == (if IsOut() then bufferLength else 0) + (if IsIso() then packets * ISO_DESCRIPTOR_SIZE else 0)
        && |payload| < TWO_31
    }
  }

  datatype Reply =
    | RetSubmit(seqnum: u32, devid: u32, direction: u32, ep: u32,
                status: i32, actualLength: i32, startFrame: i32, packets: i32, errorCount: i32,
                payload: seq<byte>)
    | RetUnlink(seqnum: u32, devid: u32, direction: u32, ep: u32, status: i32)
  {
    /** The header announces exactly the bytes that follow it. */
    predicate Framed() {
      RetSubmit? ==> |payload| == ReplyPayloadLength(direction, actualLength, packets)
    }
  }

  /** Payload length as a host computes it from a RET_SUBMIT header. */
  function ReplyPayloadLength(direction: u32, actualLength: i32, packets: i32): int {
    (if direction == DIR_IN then actualLength else 0)
    + (if IsoCount(packets) then packets * ISO_DESCRIPTOR_SIZE else 0)
  }

  // ---------------------------------------------------------------- words

  function Words(ws: seq<u32>): (bs: seq<byte>)
    ensures |bs| == 4 * |ws|
  {
    if ws == [] then [] else BigEndian(ws[0]) + Words(ws[1..])
  }

  function WordAt(bs: seq<byte>, i: nat): u32
    requires 4 * i + 4 <= |bs|
  {
    FromBigEndian(bs[4 * i..4 * i + 4])
  }

  lemma {:induction false} WordAtWords(ws: seq<u32>, rest: seq<byte>, i: nat)
    requires i < |ws|
    ensures WordAt(Words(ws) + rest, i) == ws[i]
  {
    var bs := Words(ws) + rest;
    assert bs == BigEndian(ws[0]) + (Words(ws[1..]) + rest);
    if i == 0 {
      assert bs[..4] == BigEndian(ws[0]);
      BigEndianRoundTrip(ws[0]);
    } else {
      WordAtWords(ws[1..], rest, i - 1);
      assert bs[4 * i..4 * i + 4] == (Words(ws[1..]) + rest)[4 * (i - 1)..4 * (i - 1) + 4];
    }
  }

  lemma WordsDecode(ws: seq<u32>, rest: seq<byte>)
    ensures |Words(ws) + rest| == 4 * |ws| + |rest|
    ensures forall i {:trigger ws[i]} :: 0 <= i < |ws| ==> WordAt(Words(ws) + rest, i) == ws[i]
    ensures (Words(ws) + rest)[4 * |ws|..] == rest
  {
    forall i | 0 <= i < |ws| ensures WordAt(Words(ws) + rest, i) == ws[i] { WordAtWords(ws, rest, i); }
  }

  // ------------------------------------------------- commands, host to device

  datatype ReadResult = Got(cmd: Command, rest: seq<byte>) | EndOfStream | Invalid

  /** `command::from_big_endian` on a whole header; the payload is read later. */
  function FromBigEndianHeader(h: seq<byte>): Option<Command>
    requires |h| == HEADER_SIZE
  {
    var (seqnum, devid, direction, ep) := (WordAt(h, 1), WordAt(h, 2), WordAt(h, 3), WordAt(h, 4));
    if WordAt(h, 0) == CMD_SUBMIT then
      Some(CmdSubmit(seqnum, devid, direction, ep, WordAt(h, 5), Int32(WordAt(h, 6)), Int32(WordAt(h, 7)),
                     Int32(WordAt(h, 8)), Int32(WordAt(h, 9)), h[40..48], []))
    else if WordAt(h, 0) == CMD_UNLINK then
      Some(CmdUnlink(seqnum, devid, direction, ep, WordAt(h, 5)))
    else None
  }

  /** One `read_command`: header, then as many bytes as the header asks for. A
      negative size is read as the 64-bit value it converts to. */
  function ParseCommand(input: seq<byte>): ReadResult {
    if |input| < HEADER_SIZE then EndOfStream
    else
      match FromBigEndianHeader(input[..HEADER_SIZE])
      case None => Invalid
      case Some(cmd) =>
        var size: nat := cmd.PayloadSize() % TWO_64;
        var rest := input[HEADER_SIZE..];
        if |rest| < size then EndOfStream
        else if size == 0 then Got(cmd, rest)
        else Got(if cmd.CmdSubmit? then cmd.(payload := rest[..size]) else cmd, rest[size..])
  }

  /** Every command the producer thread pushes before the stream ends, and whether
      it ended at a bad request. */
  function ReadAll(input: seq<byte>): (seq<Command>, bool)
    decreases |input|
  {
    match ParseCommand(input)
    case EndOfStream => ([], false)
    case Invalid => ([], true)
    case Got(cmd, rest) => var (cmds, bad) := ReadAll(rest); ([cmd] + cmds, bad)
  }

  lemma ReadAllStep(input: seq<byte>, before: seq<Command>)
    ensures match ParseCommand(input)
            case Got(cmd, rest) =>
              before + ReadAll(input).0 == before + [cmd] + ReadAll(rest).0 && ReadAll(input).1 == ReadAll(rest).1
            case end => before + ReadAll(input).0 == before && ReadAll(input).1 == end.Invalid?
  {
  }

  /** A message as the host lays it out; an unlink fills up the header union with
      24 bytes nobody reads. */
  datatype Message = Message(cmd: Command, padding: seq<byte>) {
    predicate WellFormed() { cmd.WellFormed() && |padding| == 24 }

    function Encode(): seq<byte> {
      Words(HeaderWords(cmd)) + if cmd.CmdSubmit? then cmd.setup + cmd.payload else padding
    }
  }

  function HeaderWords(c: Command): (ws: seq<u32>)
    ensures |ws| == if c.CmdSubmit? then 10 else 6
  {
    match c
    case CmdSubmit(seqnum, devid, direction, ep, flags, len, start, packets, interval, _, _) =>
      [CMD_SUBMIT, seqnum, devid, direction, ep, flags, Word(len), Word(start), Word(packets), Word(interval)]
    case CmdUnlink(seqnum, devid, direction, ep, target) =>
      [CMD_UNLINK, seqnum, devid, direction, ep, target]
  }

  function EncodeMessages(ms: seq<Message>): seq<byte> {
    if ms == [] then [] else ms[0].Encode() + EncodeMessages(ms[1..])
  }

  function Commands(ms: seq<Message>): (cs: seq<Command>)
    ensures |cs| == |ms| && forall i :: 0 <= i < |cs| ==> cs[i] == ms[i].cmd
  {
    seq(|ms|, i requires 0 <= i < |ms| => ms[i].cmd)
  }

  lemma WellFormedPayloadSize(c: Command)
    requires c.WellFormed()
    ensures c.PayloadSize() == if c.CmdSubmit? then |c.payload| else 0
  {
    if c.CmdSubmit? { Int32Word(|c.payload|); }
  }

  lemma SubmitHeaderDecodes(c: Command)
    requires c.CmdSubmit? && |c.setup| == 8
    ensures FromBigEndianHeader(Words(HeaderWords(c)) + c.setup) == Some(c.(payload := []))
  {
    var ws := HeaderWords(c);
    WordsDecode(ws, c.setup);
    assert ws[0] == CMD_SUBMIT && ws[1] == c.seqnum && ws[2] == c.devid && ws[3] == c.direction && ws[4] == c.ep;
    assert ws[5] == c.flags && ws[6] == Word(c.bufferLength) && ws[7] == Word(c.startFrame)
        && ws[8] == Word(c.packets) && ws[9] == Word(c.interval);
    Int32Word(c.bufferLength); Int32Word(c.startFrame); Int32Word(c.packets); Int32Word(c.interval);
    assert (Words(ws) + c.setup)[40..48] == c.setup;
  }

  lemma UnlinkHeaderDecodes(c: Command, padding: seq<byte>)
    requires c.CmdUnlink? && |padding| == 24
    ensures FromBigEndianHeader(Words(HeaderWords(c)) + padding) == Some(c)
  {
    var ws := HeaderWords(c);
    WordsDecode(ws, padding);
    assert ws[0] == CMD_UNLINK && ws[1] == c.seqnum && ws[2] == c.devid && ws[3] == c.direction && ws[4] == c.ep
        && ws[5] == c.target;
  }

  lemma HeaderDecodes(m: Message, rest: seq<byte>)
    requires m.WellFormed()
    ensures |m.Encode()| >= HEADER_SIZE
    ensures FromBigEndianHeader((m.Encode() + rest)[..HEADER_SIZE])
         == Some(if m.cmd.CmdSubmit? then m.cmd.(payload := []) else m.cmd)
    ensures (m.Encode() + rest)[HEADER_SIZE..] == (if m.cmd.CmdSubmit? then m.cmd.payload else []) + rest
  {
    var front := Words(HeaderWords(m.cmd)) + if m.cmd.CmdSubmit? then m.cmd.setup else m.padding;
    assert (m.Encode() + rest)[..HEADER_SIZE] == front;
    if m.cmd.CmdSubmit? { SubmitHeaderDecodes(m.cmd); } else { UnlinkHeaderDecodes(m.cmd, m.padding); }
  }

  lemma ReadEncodedCommand(m: Message, rest: seq<byte>)
    requires m.WellFormed()
    ensures ParseCommand(m.Encode() + rest) == Got(m.cmd, rest)
  {
    hide FromBigEndianHeader, HeaderWords, Words, Message.Encode;
    HeaderDecodes(m, rest);
    WellFormedPayloadSize(m.cmd);
    if m.cmd.CmdSubmit? {
      assert (m.cmd.payload + rest)[..|m.cmd.payload|] == m.cmd.payload;
      assert (m.cmd.payload + rest)[|m.cmd.payload|..] == rest;
    }
  }

  /** Inbound framing: whatever well-formed messages the host concatenates, the
      producer thread recovers exactly those commands. */
  lemma {:induction false} InboundRoundTrip(ms: seq<Message>)
    requires forall m :: m in ms ==> m.WellFormed()
    ensures ReadAll(EncodeMessages(ms)) == (Commands(ms), false)
  {
    if ms != [] {
      ReadEncodedCommand(ms[0], EncodeMessages(ms[1..]));
      InboundRoundTrip(ms[1..]);
      assert Commands(ms) == [ms[0].cmd] + Commands(ms[1..]);
    }
  }

  // -------------------------------------------------- replies, device to host

  function Zeros(n: nat): (bs: seq<byte>)
    ensures |bs| == n
  {
    seq(n, i => 0)
  }

  /** The bytes the reply thread writes: a full header, then the payload. */
  function EncodeReply(r: Reply): seq<byte> {
    match r
    case RetSubmit(seqnum, devid, direction, ep, status, actual, start, packets, errors, payload) =>
      Words([RET_SUBMIT, seqnum, devid, direction, ep, Word(status), Word(actual), Word(start), Word(packets), Word(errors)])
      + (Zeros(8) + payload)
    case RetUnlink(seqnum, devid, direction, ep, status) =>
      Words([RET_UNLINK, seqnum, devid, direction, ep, Word(status)]) + Zeros(24)
  }

  function EncodeReplies(rs: seq<Reply>): seq<byte> {
    if rs == [] then [] else EncodeReply(rs[0]) + EncodeReplies(rs[1..])
  }

  /** A host that decodes one reply from the front, trusting only the header. */
  function HostReadReply(input: seq<byte>): Option<(Reply, seq<byte>)> {
    if |input| < HEADER_SIZE then None
    else
      var (h, rest) := (input[..HEADER_SIZE], input[HEADER_SIZE..]);
      var (seqnum, devid, direction, ep) := (WordAt(h, 1), WordAt(h, 2), WordAt(h, 3), WordAt(h, 4));
      if WordAt(h, 0) == RET_SUBMIT then
        var (actual, packets) := (Int32(WordAt(h, 6)), Int32(WordAt(h, 8)));
        var n := ReplyPayloadLength(direction, actual, packets);
        if 0 <= n <= |rest| then
          Some((RetSubmit(seqnum, devid, direction, ep, Int32(WordAt(h, 5)), actual, Int32(WordAt(h, 7)),
                          packets, Int32(WordAt(h, 9)), rest[..n]),
                rest[n..]))
        else None
      else if WordAt(h, 0) == RET_UNLINK then
        Some((RetUnlink(seqnum, devid, direction, ep, Int32(WordAt(h, 5))), rest))
      else None
  }

  function HostReadAll(input: seq<byte>): Option<seq<Reply>>
    decreases |input|
  {
    if input == [] then Some([])
    else
      match HostReadReply(input)
      case None => None
      case Some((r, rest)) =>
        match HostReadAll(rest)
        case None => None
        case Some(rs) => Some([r] + rs)
  }

  lemma FrontWords(ws: seq<u32>, fill: seq<byte>, rest: seq<byte>)
    requires 4 * |ws| + |fill| == HEADER_SIZE
    ensures var bs := Words(ws) + fill + rest;
      && |bs| >= HEADER_SIZE && bs[HEADER_SIZE..] == rest
      && forall i {:trigger ws[i]} :: 0 <= i < |ws| ==> WordAt(bs[..HEADER_SIZE], i) == ws[i]
  {
    hide Words, WordAt;
    WordsDecode(ws, fill);
    assert (Words(ws) + fill + rest)[..HEADER_SIZE] == Words(ws) + fill;
  }

  lemma HostReadsSubmit(r: Reply, rest: seq<byte>)
    requires r.RetSubmit?
    ensures |EncodeReply(r)| >= HEADER_SIZE
    ensures var n := ReplyPayloadLength(r.direction, r.actualLength, r.packets);
      var tail := r.payload + rest;
      HostReadReply(EncodeReply(r) + rest)
        == if 0 <= n <= |tail| then Some((r.(payload := tail[..n]), tail[n..])) else None
  {
    hide Words, WordAt, ReplyPayloadLength, Int32, Word;
    var ws := [RET_SUBMIT, r.seqnum, r.devid, r.direction, r.ep, Word(r.status), Word(r.actualLength), Word(r.startFrame),
               Word(r.packets), Word(r.errorCount)];
    FrontWords(ws, Zeros(8), r.payload + rest);
    assert EncodeReply(r) + rest == Words(ws) + Zeros(8) + (r.payload + rest);
    assert ws[0] == RET_SUBMIT && ws[1] == r.seqnum && ws[2] == r.devid && ws[3] == r.direction && ws[4] == r.ep;
    assert ws[5] == Word(r.status) && ws[6] == Word(r.actualLength) && ws[7] == Word(r.startFrame)
        && ws[8] == Word(r.packets) && ws[9] == Word(r.errorCount);
    Int32Word(r.status); Int32Word(r.actualLength); Int32Word(r.startFrame); Int32Word(r.packets); Int32Word(r.errorCount);
  }

  lemma HostReadsUnlink(r: Reply, rest: seq<byte>)
    requires r.RetUnlink?
    ensures |EncodeReply(r)| >= HEADER_SIZE
    ensures HostReadReply(EncodeReply(r) + rest) == Some((r, rest))
  {
    hide Words, WordAt, Int32, Word;
    var ws := [RET_UNLINK, r.seqnum, r.devid, r.direction, r.ep, Word(r.status)];
    FrontWords(ws, Zeros(24), rest);
    assert ws[0] == RET_UNLINK && ws[1] == r.seqnum && ws[2] == r.devid && ws[3] == r.direction && ws[4] == r.ep
        && ws[5] == Word(r.status);
    Int32Word(r.status);
  }

  /** What the host makes of a reply's bytes: its header, and the announced number
      of payload bytes if they are there. */
  lemma HostReadsHeader(r: Reply, rest: seq<byte>)
    ensures |EncodeReply(r)| >= HEADER_SIZE
    ensures r.RetUnlink? ==> HostReadReply(EncodeReply(r) + rest) == Some((r, rest))
    ensures r.RetSubmit? ==>
      var n := ReplyPayloadLength(r.direction, r.actualLength, r.packets);
      var tail := r.payload + rest;
      HostReadReply(EncodeReply(r) + rest)
        == if 0 <= n <= |tail| then Some((r.(payload := tail[..n]), tail[n..])) else None
  {
    hide EncodeReply, HostReadReply;
    if r.RetSubmit? { HostReadsSubmit(r, rest); } else { HostReadsUnlink(r, rest); }
  }

  /** Outbound framing: a reader that uses only the headers recovers the replies
      exactly when every one of them carries the payload its header announces. */
  lemma {:induction false} OutboundRoundTrip(rs: seq<Reply>)
    ensures HostReadAll(EncodeReplies(rs)) == Some(rs) <==> forall r :: r in rs ==> r.Framed()
  {
    if rs != [] {
      var (r, rest) := (rs[0], EncodeReplies(rs[1..]));
      HostReadsHeader(r, rest);
      OutboundRoundTrip(rs[1..]);
      assert rs == [r] + rs[1..];
      if r.Framed() {
        if r.RetSubmit? {
          assert (r.payload + rest)[..|r.payload|] == r.payload;
          assert (r.payload + rest)[|r.payload|..] == rest;
        }
        assert HostReadReply(EncodeReplies(rs)) == Some((r, rest));
        if HostReadAll(EncodeReplies(rs)) == Some(rs) {
          assert HostReadAll(rest).Some? && rs[1..] == HostReadAll(rest).value;
        }
      } else {
        match HostReadReply(EncodeReplies(rs))
        case None =>
        case Some((r', rest')) =>
          assert |r'.payload| != |r.payload|;
          assert HostReadAll(EncodeReplies(rs)).Some? ==> HostReadAll(EncodeReplies(rs)).value[0] == r';
      }
    }
  }

  // ------------------------------------------------------------- bytes by offset

  /** The 48 bytes of a command's header, and what is behind them. */
  lemma CommandBytes(m: Message)
    requires m.WellFormed()
    ensures var (bs, c) := (m.Encode(), m.cmd);
      && |bs| == 48 + (if c.CmdSubmit? then |c.payload| else 0)
      && bs[..4] == [0, 0, 0, if c.CmdSubmit? then 1 else 2]
      && WordAt(bs, 1) == c.seqnum && WordAt(bs, 2) == c.devid && WordAt(bs, 3) == c.direction && WordAt(bs, 4) == c.ep
      && (c.CmdSubmit? ==>
            && WordAt(bs, 5) == c.flags && WordAt(bs, 6) == Word(c.bufferLength) && WordAt(bs, 7) == Word(c.startFrame)
            && WordAt(bs, 8) == Word(c.packets) && WordAt(bs, 9) == Word(c.interval)
            && bs[40..48] == c.setup && bs[48..] == c.payload)
      && (c.CmdUnlink? ==> WordAt(bs, 5) == c.target)
  {
    hide Words, WordAt, Word, HeaderWords;
    var (c, ws) := (m.cmd, HeaderWords(m.cmd));
    var rest := if c.CmdSubmit? then c.setup + c.payload else m.padding;
    WordsDecode(ws, rest);
    HeaderWordsAre(c);
    TypeBytes(ws, rest);
    assert c.CmdSubmit? ==> rest == m.Encode()[40..];
  }

  lemma HeaderWordsAre(c: Command)
    ensures var ws := HeaderWords(c);
      && ws[0] == (if c.CmdSubmit? then 1 else 2)
      && ws[1] == c.seqnum && ws[2] == c.devid && ws[3] == c.direction && ws[4] == c.ep
      && (c.CmdSubmit? ==>
            && ws[5] == c.flags && ws[6] == Word(c.bufferLength) && ws[7] == Word(c.startFrame)
            && ws[8] == Word(c.packets) && ws[9] == Word(c.interval))
      && (c.CmdUnlink? ==> ws[5] == c.target)
  {
  }

  /** The message type comes first, its low byte last. */
  lemma TypeBytes(ws: seq<u32>, rest: seq<byte>)
    requires ws != [] && ws[0] < 256
    ensures (Words(ws) + rest)[..4] == [0, 0, 0, ws[0]]
  {
    SmallWord(ws[0]);
    hide BigEndian;
    assert Words(ws) == BigEndian(ws[0]) + Words(ws[1..]);
  }

  lemma SmallWord(w: u32)
    requires w < 256
    ensures BigEndian(w) == [0, 0, 0, w]
  {
  }

  /** And of a reply's: eight unused bytes at the end of one to a submit, twenty-four of
      one to an unlink, all zero. */
  lemma ReplyBytes(r: Reply)
    ensures var bs := EncodeReply(r);
      && |bs| == 48 + (if r.RetSubmit? then |r.payload| else 0)
      && bs[..4] == [0, 0, 0, if r.RetSubmit? then 3 else 4]
      && WordAt(bs, 1) == r.seqnum && WordAt(bs, 2) == r.devid && WordAt(bs, 3) == r.direction && WordAt(bs, 4) == r.ep
      && WordAt(bs, 5) == Word(r.status)
      && (r.RetSubmit? ==>
            && WordAt(bs, 6) == Word(r.actualLength) && WordAt(bs, 7) == Word(r.startFrame)
            && WordAt(bs, 8) == Word(r.packets) && WordAt(bs, 9) == Word(r.errorCount) && bs[48..] == r.payload)
      && forall i :: (if r.RetSubmit? then 40 else 24) <= i < 48 ==> bs[i] == 0
  {
    hide Words, WordAt, Word;
    var kind: u32 := if r.RetSubmit? then 3 else 4;
    var ws := [kind, r.seqnum, r.devid, r.direction, r.ep, Word(r.status)]
      + if r.RetSubmit? then [Word(r.actualLength), Word(r.startFrame), Word(r.packets), Word(r.errorCount)] else [];
    var rest := if r.RetSubmit? then Zeros(8) + r.payload else Zeros(24);
    assert r.RetSubmit? ==> ws == [RET_SUBMIT, r.seqnum, r.devid, r.direction, r.ep, Word(r.status), Word(r.actualLength),
                                   Word(r.startFrame), Word(r.packets), Word(r.errorCount)];
    assert r.RetUnlink? ==> ws == [RET_UNLINK, r.seqnum, r.devid, r.direction, r.ep, Word(r.status)];
    assert EncodeReply(r) == Words(ws) + rest;
    WordsDecode(ws, rest);
    TypeBytes(ws, rest);
    assert ws[1] == r.seqnum && ws[2] == r.devid && ws[3] == r.direction && ws[4] == r.ep && ws[5] == Word(r.status);
    assert r.RetSubmit? ==> ws[6] == Word(r.actualLength) && ws[7] == Word(r.startFrame);
    assert r.RetSubmit? ==> ws[8] == Word(r.packets) && ws[9] == Word(r.errorCount);
    assert r.RetSubmit? ==> rest == EncodeReply(r)[40..] && rest[8..] == r.payload;
    forall i | (if r.RetSubmit? then 40 else 24) <= i < 48 ensures EncodeReply(r)[i] == 0 {
      assert EncodeReply(r)[i] == rest[i - 4 * |ws|];
    }
  }

  // -------------------------------------------------------- the reading thread

  /** The socket, as the bytes not read yet. */
  class Connection {
    var input: seq<byte>

    constructor (bytes: seq<byte>)
      ensures input == bytes
    {
      input := bytes;
    }

    /** A blocking read of exactly n bytes; it fails once the peer has closed. */
    method Read(n: nat) returns (r: Option<seq<byte>>)
      modifies this
      ensures |old(input)| < n ==> r == None && unchanged(this)
      ensures |old(input)| >= n ==> r == Some(old(input)[..n]) && input == old(input)[n..]
    {
      if |input| < n { return None; }
      r := Some(input[..n]);
      input := input[n..];
    }

    method ReadCommand() returns (r: ReadResult)
      modifies this
      ensures r == ParseCommand(old(input))
      ensures r.Got? ==> input == r.rest && |input| < |old(input)|
    {
      var header := Read(HEADER_SIZE);
      if header == None { return EndOfStream; }
      var decoded := FromBigEndianHeader(header.value);
      if decoded == None { return Invalid; }
      var cmd := decoded.value;
      var size: nat := cmd.PayloadSize() % TWO_64;
      if size != 0 {
        var payload := Read(size);
        if payload == None { return EndOfStream; }
        if cmd.CmdSubmit? { cmd := cmd.(payload := payload.value); }
      }
      r := Got(cmd, input);
    }

    /** `command_produce_thread`: push commands until the stream ends. */
    method ProduceCommands() returns (queue: seq<Command>, bad: bool)
      modifies this
      ensures queue == ReadAll(old(input)).0 && bad == ReadAll(old(input)).1
    {
      queue := [];
      while true
        invariant ReadAll(old(input)).0 == queue + ReadAll(input).0
        invariant ReadAll(old(input)).1 == ReadAll(input).1
        decreases |input|
      {
        ReadAllStep(input, queue);
        var r := ReadCommand();
        if !r.Got? { return queue, r.Invalid?; }
        queue := queue + [r.cmd];
      }
    }
  }
}
