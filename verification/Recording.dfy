/** Recorded transfers: what `transfer_recorder` appends to its files
    (recording_proxy.cpp) and what `load_transfers` makes of them (playback_device.cpp). */
module Recording {
  import opened Prelude
  import opened Text
  import opened RecordLog

  /** libusb_iso_packet_descriptor: three 32-bit words. */
  datatype Packet = Packet(length: u32, actualLength: u32, status: u32)

  const PACKET_SIZE: nat := 12
  const NANOSECONDS: nat := 1_000_000

  /** `timestamp` counts nanoseconds. */
  datatype Recorded = Recorded(endpoint: u8, size: u32, data: seq<byte>, packets: seq<Packet>, timestamp: nat)

  /** What a player has of a record. */
  datatype Loaded = Loaded(endpoint: u8, size: u32, data: seq<byte>, packets: seq<Packet>, timestampMs: nat)

  // ----------------------------------------------------------------------- writing

  function PacketBytes(p: Packet): seq<byte> {
    LittleEndian(4, p.length) + LittleEndian(4, p.actualLength) + LittleEndian(4, p.status)
  }

  function PacketsBytes(ps: seq<Packet>): seq<byte> {
    if ps == [] then [] else PacketBytes(ps[0]) + PacketsBytes(ps[1..])
  }

  function OrNA(v: Option<nat>): string { if v == None then "\"NA\"" else Decimal(v.value) }

  /** The line of a record: where its bytes and its packets are. */
  function TransferLine(ms: nat, endpoint: u8, size: nat, data: nat, count: Option<nat>, offset: Option<nat>): string {
    "{" + Member("\"timestamp_ms\"", Decimal(ms),
    "," + Member("\"endpoint\"", "\"0x", HexByte(endpoint) + ("\"" + (
    "," + Member("\"size\"", Decimal(size),
    "," + Member("\"data\"", Decimal(data),
    "," + Member("\"iso_packet_descriptor_count\"", OrNA(count),
    "," + Member("\"iso_packet_descriptor_offset\"", OrNA(offset), "}"))))))))
  }

  function LineOf(r: Recorded, at: nat): string {
    var some := r.packets != [];
    TransferLine(r.timestamp / NANOSECONDS, r.endpoint, r.size, at,
                 if some then Some(|r.packets|) else None, if some then Some(at + |r.data|) else None)
  }

  /** One turn of the writer: payload first, then the line that points at it. */
  function Append(log: Log, r: Recorded): Log {
    Log(log.text + LineOf(r, |log.payload|) + "\n", log.payload + r.data + PacketsBytes(r.packets))
  }

  function AppendAll(log: Log, rs: seq<Recorded>): Log
    decreases |rs|
  {
    if rs == [] then log else AppendAll(Append(log, rs[0]), rs[1..])
  }

  // ----------------------------------------------------------------------- reading

  datatype Entry = Entry(ms: nat, endpoint: nat, size: nat, data: nat, count: Option<nat>, offset: Option<nat>)

  /** The expression, from its first brace on. */
  function MatchTransfer(line: string): Result<Entry> {
    if !("{" <= line) then Err(Malformed)
    else
      var t1 :- Key(line[1..], "\"timestamp_ms\"");
      var (ms, t2) :- Number(t1);
      var t3 :- Expect(t2, ",");
      var t4 :- Key(t3, "\"endpoint\"");
      var t5 :- Expect(t4, "\"0x");
      var (endpoint, t6) :- Hex(t5);
      var t7 :- Expect(t6, ",");
      var t8 :- Key(t7, "\"size\"");
      var (size, t9) :- Number(t8);
      var t10 :- Expect(t9, ",");
      var t11 :- Key(t10, "\"data\"");
      var (data, t12) :- Number(t11);
      var t13 :- Expect(t12, ",");
      var t14 :- Key(t13, "\"iso_packet_descriptor_count\"");
      var (count, t15) :- NumberOrNA(t14);
      var t16 :- Expect(t15, ",");
      var t17 :- Key(t16, "\"iso_packet_descriptor_offset\"");
      var (offset, t18) :- NumberOrNA(t17);
      var _ :- Expect(t18, "}");
      Ok(Entry(ms, endpoint, size, data, count, offset))
  }

  /** `regex_search`: the first place where the expression matches. */
  function SearchTransfer(line: string): Result<Entry> {
    if MatchTransfer(line).Ok? then MatchTransfer(line)
    else if line == "" then Err(Malformed)
    else SearchTransfer(line[1..])
  }

  /** `parse_jsonl_record`: numbers of up to 64 bits; the size is cut to 32, the endpoint
      to 8, and without a count there is no offset. */
  function ParseTransfer(line: string): Option<Entry> {
    match SearchTransfer(line)
    case Err(_) => None
    case Ok(e) =>
      if e.ms >= TWO_64 || e.endpoint >= TWO_64 || e.size >= TWO_64 || e.data >= TWO_64 then None
      else if e.count.Some? && (e.count.value >= TWO_64 || (e.offset.Some? && e.offset.value >= TWO_64)) then None
      else Some(e.(endpoint := e.endpoint % 256, size := e.size % TWO_32,
                   count := Some(if e.count == None then 0 else e.count.value),
                   offset := Some(if e.count == None || e.offset == None then 0 else e.offset.value)))
  }

  function UnpackPackets(bs: seq<byte>): seq<Packet> {
    if |bs| < PACKET_SIZE then []
    else [Packet(Word(FromLittleEndian(bs[..4])), Word(FromLittleEndian(bs[4..8])), Word(FromLittleEndian(bs[8..12])))]
         + UnpackPackets(bs[12..])
  }

  /** What one line adds to the records. */
  function LoadLine(line: string, payload: seq<byte>): seq<Loaded> {
    if line == "" then []
    else
      match ParseTransfer(line)
      case None => []
      case Some(e) =>
        var data := ReadAt(payload, e.data, e.size);
        if |data| != e.size then []
        else [Loaded(e.endpoint % 256, e.size % TWO_32, data,
                     UnpackPackets(ReadAt(payload, e.offset.value, e.count.value * PACKET_SIZE)), e.ms)]
  }

  function LoadLines(lines: seq<string>, payload: seq<byte>): seq<Loaded> {
    if lines == [] then [] else LoadLine(lines[0], payload) + LoadLines(lines[1..], payload)
  }

  function Load(log: Log): seq<Loaded> { LoadLines(Lines(log.text), log.payload) }

  // ----------------------------------------------------------- packets, there and back

  lemma WordBytes(w: u32)
    ensures FromLittleEndian(LittleEndian(4, w)) == w
  {
    WordPower();
    LittleEndianRoundTrip(4, w);
  }

  lemma {:induction false} UnpackPacked(ps: seq<Packet>)
    ensures |PacketsBytes(ps)| == |ps| * 12 && UnpackPackets(PacketsBytes(ps)) == ps
  {
    hide LittleEndian, FromLittleEndian;
    if ps != [] {
      var p, bs := ps[0], PacketsBytes(ps);
      UnpackPacked(ps[1..]);
      WordBytes(p.length); WordBytes(p.actualLength); WordBytes(p.status);
      assert bs[..4] == LittleEndian(4, p.length) && bs[4..8] == LittleEndian(4, p.actualLength);
      assert bs[8..12] == LittleEndian(4, p.status) && bs[12..] == PacketsBytes(ps[1..]);
    }
  }

  // ------------------------------------------------------------- lines, there and back

  lemma LineIsRead(ms: nat, endpoint: u8, size: nat, data: nat, count: Option<nat>, offset: Option<nat>)
    ensures MatchTransfer(TransferLine(ms, endpoint, size, data, count, offset))
         == Ok(Entry(ms, endpoint, size, data, count, offset))
  {
    hide Key, Number, Expect, Hex, NumberOrNA, Member, Decimal, HexByte;
    var l17 := "," + Member("\"iso_packet_descriptor_offset\"", OrNA(offset), "}");
    var l14 := "," + Member("\"iso_packet_descriptor_count\"", OrNA(count), l17);
    var l11 := "," + Member("\"data\"", Decimal(data), l14);
    var l8 := "," + Member("\"size\"", Decimal(size), l11);
    var l4 := "," + Member("\"endpoint\"", "\"0x", HexByte(endpoint) + ("\"" + l8));
    var l1 := Member("\"timestamp_ms\"", Decimal(ms), l4);
    var line := TransferLine(ms, endpoint, size, data, count, offset);
    assert line == "{" + l1 && line[1..] == l1;
    KeyIs("\"timestamp_ms\"", Decimal(ms), l4);
    NumberIs(ms, l4);
    ExpectIs(",", Member("\"endpoint\"", "\"0x", HexByte(endpoint) + ("\"" + l8)));
    KeyIs("\"endpoint\"", "\"0x", HexByte(endpoint) + ("\"" + l8));
    ExpectIs("\"0x", HexByte(endpoint) + ("\"" + l8));
    HexIs(endpoint, l8);
    ExpectIs(",", Member("\"size\"", Decimal(size), l11));
    KeyIs("\"size\"", Decimal(size), l11);
    NumberIs(size, l11);
    ExpectIs(",", Member("\"data\"", Decimal(data), l14));
    KeyIs("\"data\"", Decimal(data), l14);
    NumberIs(data, l14);
    ExpectIs(",", Member("\"iso_packet_descriptor_count\"", OrNA(count), l17));
    KeyIs("\"iso_packet_descriptor_count\"", OrNA(count), l17);
    NumberOrNAIs(count, l17);
    ExpectIs(",", Member("\"iso_packet_descriptor_offset\"", OrNA(offset), "}"));
    KeyIs("\"iso_packet_descriptor_offset\"", OrNA(offset), "}");
    NumberOrNAIs(offset, "}");
    ExpectIs("}", "");
    assert "}" + "" == "}";
  }

  lemma LineIsOneLine(r: Recorded, at: nat)
    ensures OneLine(LineOf(r, at)) && LineOf(r, at) != ""
  {
    hide Decimal, Member, OneLine;
    DecimalIsOneLine(r.timestamp / NANOSECONDS);
    DecimalIsOneLine(r.size);
    DecimalIsOneLine(at);
    DecimalIsOneLine(|r.packets|);
    DecimalIsOneLine(at + |r.data|);
    OnLines(r.timestamp / NANOSECONDS, r.endpoint, r.size, at,
            if r.packets != [] then Some(|r.packets|) else None, if r.packets != [] then Some(at + |r.data|) else None);
  }

  lemma Literals()
    ensures OneLine(",") && OneLine("{") && OneLine("}") && OneLine("\"") && OneLine("\"0x") && OneLine("\"NA\"")
    ensures OneLine("\"timestamp_ms\"") && OneLine("\"endpoint\"") && OneLine("\"size\"") && OneLine("\"data\"")
    ensures OneLine("\"iso_packet_descriptor_count\"") && OneLine("\"iso_packet_descriptor_offset\"")
  {
  }

  lemma Joined(a: string, b: string)
    requires OneLine(a) && OneLine(b)
    ensures OneLine(a + b)
  {
  }

  lemma OnLines(ms: nat, endpoint: u8, size: nat, data: nat, count: Option<nat>, offset: Option<nat>)
    requires OneLine(Decimal(ms)) && OneLine(Decimal(size)) && OneLine(Decimal(data))
    requires (count.Some? ==> OneLine(Decimal(count.value))) && (offset.Some? ==> OneLine(Decimal(offset.value)))
    ensures OneLine(TransferLine(ms, endpoint, size, data, count, offset))
    ensures TransferLine(ms, endpoint, size, data, count, offset) != ""
  {
    hide Decimal, Member, OneLine;
    Literals();
    MemberIsOneLine("\"iso_packet_descriptor_offset\"", OrNA(offset), "}");
    var l17 := "," + Member("\"iso_packet_descriptor_offset\"", OrNA(offset), "}");
    Joined(",", Member("\"iso_packet_descriptor_offset\"", OrNA(offset), "}"));
    MemberIsOneLine("\"iso_packet_descriptor_count\"", OrNA(count), l17);
    var l14 := "," + Member("\"iso_packet_descriptor_count\"", OrNA(count), l17);
    Joined(",", Member("\"iso_packet_descriptor_count\"", OrNA(count), l17));
    MemberIsOneLine("\"data\"", Decimal(data), l14);
    var l11 := "," + Member("\"data\"", Decimal(data), l14);
    Joined(",", Member("\"data\"", Decimal(data), l14));
    MemberIsOneLine("\"size\"", Decimal(size), l11);
    var l8 := "," + Member("\"size\"", Decimal(size), l11);
    Joined(",", Member("\"size\"", Decimal(size), l11));
    HexIsOneLine(endpoint);
    Joined("\"", l8);
    Joined(HexByte(endpoint), "\"" + l8);
    MemberIsOneLine("\"endpoint\"", "\"0x", HexByte(endpoint) + ("\"" + l8));
    var l4 := "," + Member("\"endpoint\"", "\"0x", HexByte(endpoint) + ("\"" + l8));
    Joined(",", Member("\"endpoint\"", "\"0x", HexByte(endpoint) + ("\"" + l8)));
    MemberIsOneLine("\"timestamp_ms\"", Decimal(ms), l4);
    Joined("{", Member("\"timestamp_ms\"", Decimal(ms), l4));
  }

  lemma HexIsOneLine(b: byte)
    ensures OneLine(HexByte(b))
  {
  }

  // -------------------------------------------------------------- the log round trip

  function Playable(r: Recorded): Loaded {
    Loaded(r.endpoint, r.size, r.data, r.packets, r.timestamp / NANOSECONDS)
  }

  function PlayableAll(rs: seq<Recorded>): seq<Loaded> {
    if rs == [] then [] else [Playable(rs[0])] + PlayableAll(rs[1..])
  }

  /** The recorder is given the size of the data, and times that fit in 64 bits. */
  predicate Recordable(r: Recorded) {
    r.size == |r.data| && r.timestamp / NANOSECONDS < TWO_64
  }

  /** The bytes a line points at are in the payload. */
  predicate InBounds(line: string, payload: seq<byte>) {
    match ParseTransfer(line)
    case None => true
    case Some(e) =>
      (e.size == 0 || e.data + e.size <= |payload|)
      && (e.count.value == 0 || e.offset.value + e.count.value * PACKET_SIZE <= |payload|)
  }

  /** A log between two turns of the writer. */
  ghost predicate Whole(log: Log) {
    Complete(log.text) && forall l :: l in Lines(log.text) ==> InBounds(l, log.payload)
  }

  lemma LineParses(r: Recorded, at: nat)
    requires Recordable(r) && at + |r.data| < TWO_64 && |r.packets| < TWO_64
    ensures ParseTransfer(LineOf(r, at)) == Some(Entry(r.timestamp / NANOSECONDS, r.endpoint, r.size, at,
      Some(|r.packets|), Some(if r.packets == [] then 0 else at + |r.data|)))
  {
    hide TransferLine, MatchTransfer;
    var some := r.packets != [];
    LineIsRead(r.timestamp / NANOSECONDS, r.endpoint, r.size, at,
               if some then Some(|r.packets|) else None, if some then Some(at + |r.data|) else None);
  }

  lemma LineLoads(r: Recorded, before: seq<byte>)
    requires Recordable(r)
    requires |before + r.data + PacketsBytes(r.packets)| < TWO_64
    ensures LoadLine(LineOf(r, |before|), before + r.data + PacketsBytes(r.packets)) == [Playable(r)]
    ensures InBounds(LineOf(r, |before|), before + r.data + PacketsBytes(r.packets))
  {
    hide LineOf, ParseTransfer, PacketsBytes, UnpackPackets, ReadAt, Recordable;
    var bytes, packets := before + r.data, PacketsBytes(r.packets);
    LineIsOneLine(r, |before|);
    PacketsAreRead(r.packets, bytes);
    RecordedSize(r);
    LineParses(r, |before|);
    ReadAtWritten(before, r.data, packets);
  }

  lemma RecordedSize(r: Recorded)
    requires Recordable(r)
    ensures r.size == |r.data|
  {
  }

  lemma PacketsAreRead(ps: seq<Packet>, before: seq<byte>)
    ensures |PacketsBytes(ps)| == |ps| * PACKET_SIZE
    ensures UnpackPackets(ReadAt(before + PacketsBytes(ps), if ps == [] then 0 else |before|, |ps| * PACKET_SIZE)) == ps
  {
    hide PacketsBytes, UnpackPackets;
    UnpackPacked(ps);
    ReadAtWritten(before, PacketsBytes(ps), []);
    assert before + PacketsBytes(ps) + [] == before + PacketsBytes(ps);
    if ps == [] { assert PacketsBytes(ps) == []; }
  }

  lemma LineKeepsLoading(line: string, payload: seq<byte>, more: seq<byte>)
    requires InBounds(line, payload)
    ensures LoadLine(line, payload + more) == LoadLine(line, payload) && InBounds(line, payload + more)
  {
    hide SearchTransfer, UnpackPackets;
    if ParseTransfer(line).Some? {
      var e := ParseTransfer(line).value;
      ReadAtGrows(payload, more, e.data, e.size);
      ReadAtGrows(payload, more, e.offset.value, e.count.value * PACKET_SIZE);
    }
  }

  lemma {:induction false} LinesKeepLoading(lines: seq<string>, payload: seq<byte>, more: seq<byte>)
    requires forall l :: l in lines ==> InBounds(l, payload)
    ensures LoadLines(lines, payload + more) == LoadLines(lines, payload)
    ensures forall l :: l in lines ==> InBounds(l, payload + more)
  {
    hide InBounds, LoadLine;
    if lines != [] {
      LineKeepsLoading(lines[0], payload, more);
      LinesKeepLoading(lines[1..], payload, more);
    }
  }

  lemma {:induction false} LoadLinesAppend(lines: seq<string>, line: string, payload: seq<byte>)
    ensures LoadLines(lines + [line], payload) == LoadLines(lines, payload) + LoadLine(line, payload)
  {
    hide LoadLine;
    if lines == [] {
      assert lines + [line] == [line] && [line][1..] == [];
      assert LoadLine(line, payload) + [] == LoadLine(line, payload);
    } else {
      assert (lines + [line])[1..] == lines[1..] + [line] && (lines + [line])[0] == lines[0];
      LoadLinesAppend(lines[1..], line, payload);
    }
  }

  /** A record appended to a log is loaded behind all that were in it, and those are
      still what they were. */
  lemma AppendThenLoad(log: Log, r: Recorded)
    requires Whole(log) && Recordable(r) && |Append(log, r).payload| < TWO_64
    ensures Whole(Append(log, r)) && Load(Append(log, r)) == Load(log) + [Playable(r)]
  {
    hide InBounds, LoadLine, LoadLines, Lines, LineOf, PacketsBytes, Complete, Recordable;
    var line := LineOf(r, |log.payload|);
    var more := r.data + PacketsBytes(r.packets);
    var log1 := Append(log, r);
    assert log1.payload == log.payload + more;
    LineIsOneLine(r, |log.payload|);
    LinesAppend(log.text, line);
    LinesKeepLoading(Lines(log.text), log.payload, more);
    LineLoads(r, log.payload);
    LoadLinesAppend(Lines(log.text), line, log1.payload);
  }

  lemma {:induction false} PayloadGrows(log: Log, rs: seq<Recorded>)
    ensures |AppendAll(log, rs).payload| >= |log.payload|
    decreases |rs|
  {
    if rs != [] { PayloadGrows(Append(log, rs[0]), rs[1..]); }
  }

  lemma {:induction false} AppendAllThenLoad(log: Log, rs: seq<Recorded>)
    requires Whole(log) && (forall i :: 0 <= i < |rs| ==> Recordable(rs[i])) && |AppendAll(log, rs).payload| < TWO_64
    ensures Whole(AppendAll(log, rs)) && Load(AppendAll(log, rs)) == Load(log) + PlayableAll(rs)
    decreases |rs|
  {
    hide Append, Load, Whole, Recordable, Playable;
    if rs == [] {
      assert Load(log) + [] == Load(log);
    } else {
      PayloadGrows(Append(log, rs[0]), rs[1..]);
      AppendThenLoad(log, rs[0]);
      AppendAllThenLoad(Append(log, rs[0]), rs[1..]);
      assert Load(log) + [Playable(rs[0])] + PlayableAll(rs[1..]) == Load(log) + ([Playable(rs[0])] + PlayableAll(rs[1..]));
    }
  }

  // ------------------------------------------------------------------ many sessions

  function Sessions(log: Log, sessions: seq<seq<Recorded>>): Log
    decreases |sessions|
  {
    if sessions == [] then log else Sessions(AppendAll(log, sessions[0]), sessions[1..])
  }

  lemma {:induction false} AppendAllAppends(log: Log, a: seq<Recorded>, b: seq<Recorded>)
    ensures AppendAll(AppendAll(log, a), b) == AppendAll(log, a + b)
    decreases |a|
  {
    hide Append;
    if a == [] {
      assert a + b == b;
    } else {
      assert (a + b)[0] == a[0] && (a + b)[1..] == a[1..] + b;
      AppendAllAppends(Append(log, a[0]), a[1..], b);
    }
  }

  lemma {:induction false} SessionsAreOne(log: Log, sessions: seq<seq<Recorded>>)
    ensures Sessions(log, sessions) == AppendAll(log, Flatten(sessions))
    decreases |sessions|
  {
    hide AppendAll;
    if sessions != [] {
      SessionsAreOne(AppendAll(log, sessions[0]), sessions[1..]);
      AppendAllAppends(log, sessions[0], Flatten(sessions[1..]));
    } else {
      NothingAppended(log);
    }
  }

  lemma NothingAppended(log: Log)
    ensures AppendAll(log, []) == log
  {
  }

  /** Over any number of sessions on the same files, what is loaded is exactly what was
      recorded, in that order. */
  lemma RecordThenLoad(sessions: seq<seq<Recorded>>)
    requires forall i :: 0 <= i < |Flatten(sessions)| ==>
      var r := Flatten(sessions)[i]; r.size == |r.data| && r.timestamp / 1_000_000 < 0x1_0000_0000_0000_0000
    requires |Sessions(Log("", []), sessions).payload| < TWO_64
    ensures Load(Sessions(Log("", []), sessions)) == PlayableAll(Flatten(sessions))
    ensures var (rs, ls) := (Flatten(sessions), Load(Sessions(Log("", []), sessions)));
      |ls| == |rs| && forall i :: 0 <= i < |rs| ==> PlaysBack(rs[i], ls[i])
  {
    hide Flatten, AppendAll, Sessions, Playable, PlaysBack;
    SessionsAreOne(Log("", []), sessions);
    AppendAllThenLoad(Log("", []), Flatten(sessions));
    PlayableIs(Flatten(sessions));
  }

  /** l is the record r: the same bytes and packets for the same endpoint, at its time in
      whole milliseconds. */
  predicate PlaysBack(r: Recorded, l: Loaded) {
    && l.endpoint == r.endpoint && l.size == r.size && l.data == r.data && l.packets == r.packets
    && l.timestampMs * 1_000_000 <= r.timestamp < (l.timestampMs + 1) * 1_000_000
  }

  lemma {:induction false} PlayableIs(rs: seq<Recorded>)
    ensures |PlayableAll(rs)| == |rs| && forall i :: 0 <= i < |rs| ==> PlaysBack(rs[i], PlayableAll(rs)[i])
  {
    if rs != [] { PlayableIs(rs[1..]); }
  }

  // ------------------------------------------------------------- lines that add nothing

  lemma {:induction false} NoBraceNoMatch(line: string)
    requires forall i :: 0 <= i < |line| ==> line[i] != '{'
    ensures SearchTransfer(line) == Err(Malformed)
  {
    if line != "" {
      NoBrace(line);
      hide MatchTransfer;
      NoBraceNoMatch(line[1..]);
    }
  }

  lemma NoBrace(line: string)
    requires line != "" && line[0] != '{'
    ensures MatchTransfer(line) == Err(Malformed)
  {
  }

  /** A record is found wherever in its line it begins. */
  lemma {:induction false} FoundBehind(before: string, line: string)
    requires (forall i :: 0 <= i < |before| ==> before[i] != '{') && MatchTransfer(line).Ok?
    ensures SearchTransfer(before + line) == MatchTransfer(line)
  {
    if before == "" {
      assert before + line == line;
    } else {
      NoBrace(before + line);
      hide MatchTransfer;
      assert (before + line)[1..] == before[1..] + line;
      FoundBehind(before[1..], line);
    }
  }

  /** What is made of the numbers in a line, whatever they are: 64 bits are read, the size
      is cut to 32, and without a count there is no offset. */
  lemma AnyLineParses(ms: nat, endpoint: u8, size: nat, data: nat, count: Option<nat>, offset: Option<nat>)
    ensures ParseTransfer(TransferLine(ms, endpoint, size, data, count, offset)) ==
      if ms >= 0x1_0000_0000_0000_0000 || size >= 0x1_0000_0000_0000_0000 || data >= 0x1_0000_0000_0000_0000
         || (count.Some? && count.value >= 0x1_0000_0000_0000_0000)
         || (count.Some? && offset.Some? && offset.value >= 0x1_0000_0000_0000_0000) then None
      else Some(Entry(ms, endpoint, size % 0x1_0000_0000, data, Some(if count.Some? then count.value else 0),
                      Some(if count.Some? && offset.Some? then offset.value else 0)))
  {
    hide TransferLine, MatchTransfer;
    LineIsRead(ms, endpoint, size, data, count, offset);
  }

  /** A line that has no record in it is passed over, and so is one whose bytes are not all
      in the payload. */
  lemma BadLinesAddNothing(line: string, ms: nat, endpoint: u8, size: u32, at: nat, count: Option<nat>, offset: Option<nat>,
                           payload: seq<byte>)
    ensures (forall i :: 0 <= i < |line| ==> line[i] != '{') ==> LoadLine(line, payload) == []
    ensures size > 0 && at + size > |payload| ==>
      LoadLine(TransferLine(ms, endpoint, size, at, count, offset), payload) == []
  {
    hide MatchTransfer, TransferLine, UnpackPackets;
    if forall i :: 0 <= i < |line| ==> line[i] != '{' { NoBraceNoMatch(line); }
    LineIsRead(ms, endpoint, size, at, count, offset);
  }
}
