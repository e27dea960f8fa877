/** Recorded control requests: what `control_setup_recorder` appends
    (recording_proxy.cpp), and the table that `load_control_setups` builds from it
    (playback_device.cpp). */
module ControlRecording {
  import opened Prelude
  import opened Text
  import opened RecordLog

  type u64 = x: int | 0 <= x < TWO_64

  /** The setup packet is its eight bytes as one number. */
  datatype Control = Control(setup: u64, dataSize: u32, data: seq<byte>)

  function ControlLine(setup: nat, size: nat, data: nat): string {
    "{" + Member("\"setup\"", Decimal(setup),
    "," + Member("\"data_size\"", Decimal(size),
    "," + Member("\"data\"", Decimal(data), "}")))
  }

  function Append(log: Log, c: Control): Log {
    Log(log.text + ControlLine(c.setup, c.dataSize, |log.payload|) + "\n", log.payload + c.data)
  }

  function AppendAll(log: Log, cs: seq<Control>): Log
    decreases |cs|
  {
    if cs == [] then log else AppendAll(Append(log, cs[0]), cs[1..])
  }

  // ----------------------------------------------------------------------- reading

  datatype Entry = Entry(setup: nat, size: nat, data: nat)

  function MatchControl(line: string): Result<Entry> {
    if !("{" <= line) then Err(Malformed)
    else
      var t1 :- Key(line[1..], "\"setup\"");
      var (setup, t2) :- Number(t1);
      var t3 :- Expect(t2, ",");
      var t4 :- Key(t3, "\"data_size\"");
      var (size, t5) :- Number(t4);
      var t6 :- Expect(t5, ",");
      var t7 :- Key(t6, "\"data\"");
      var (data, t8) :- Number(t7);
      var _ :- Expect(t8, "}");
      Ok(Entry(setup, size, data))
  }

  function SearchControl(line: string): Result<Entry> {
    if MatchControl(line).Ok? then MatchControl(line)
    else if line == "" then Err(Malformed)
    else SearchControl(line[1..])
  }

  function ParseControl(line: string): Option<Entry> {
    match SearchControl(line)
    case Err(_) => None
    case Ok(e) =>
      if e.setup >= TWO_64 || e.size >= TWO_64 || e.data >= TWO_64 then None
      else Some(e.(size := e.size % TWO_32))
  }

  type Setups = map<u64, Control>

  /** What one line does to the table: the record replaces one for the same request. */
  function LoadLine(line: string, payload: seq<byte>, setups: Setups): Setups {
    if line == "" then setups
    else
      match ParseControl(line)
      case None => setups
      case Some(e) =>
        var data := ReadAt(payload, e.data, e.size);
        if |data| != e.size then setups
        else setups[e.setup % TWO_64 := Control(e.setup % TWO_64, e.size % TWO_32, data)]
  }

  function LoadLines(lines: seq<string>, payload: seq<byte>, setups: Setups): Setups
    decreases |lines|
  {
    if lines == [] then setups else LoadLines(lines[1..], payload, LoadLine(lines[0], payload, setups))
  }

  function Load(log: Log): Setups { LoadLines(Lines(log.text), log.payload, map[]) }

  /** The last of the records for a request. */
  function LastFor(cs: seq<Control>, setup: u64): Option<Control> {
    if cs == [] then None
    else if cs[|cs| - 1].setup == setup then Some(cs[|cs| - 1])
    else LastFor(cs[..|cs| - 1], setup)
  }

  function Lookup(setups: Setups, setup: u64): Option<Control> {
    if setup in setups then Some(setups[setup]) else None
  }

  // -------------------------------------------------------------------- round trip

  lemma LineIsRead(setup: nat, size: nat, data: nat)
    ensures MatchControl(ControlLine(setup, size, data)) == Ok(Entry(setup, size, data))
  {
    hide Key, Number, Expect, Member, Decimal;
    var m3 := Member("\"data\"", Decimal(data), "}");
    var m2 := Member("\"data_size\"", Decimal(size), "," + m3);
    var m1 := Member("\"setup\"", Decimal(setup), "," + m2);
    assert ControlLine(setup, size, data) == "{" + m1 && ("{" + m1)[1..] == m1;
    KeyIs("\"setup\"", Decimal(setup), "," + m2);
    NumberIs(setup, "," + m2);
    ExpectIs(",", m2);
    KeyIs("\"data_size\"", Decimal(size), "," + m3);
    NumberIs(size, "," + m3);
    ExpectIs(",", m3);
    KeyIs("\"data\"", Decimal(data), "}");
    NumberIs(data, "}");
    ExpectIs("}", "");
    assert "}" + "" == "}";
  }

  lemma LineIsOneLine(setup: nat, size: nat, data: nat)
    ensures OneLine(ControlLine(setup, size, data)) && ControlLine(setup, size, data) != ""
  {
    hide Decimal, Member;
    DecimalIsOneLine(setup);
    DecimalIsOneLine(size);
    DecimalIsOneLine(data);
    MemberIsOneLine("\"data\"", Decimal(data), "}");
    MemberIsOneLine("\"data_size\"", Decimal(size), "," + Member("\"data\"", Decimal(data), "}"));
    MemberIsOneLine("\"setup\"", Decimal(setup),
                    "," + Member("\"data_size\"", Decimal(size), "," + Member("\"data\"", Decimal(data), "}")));
  }

  predicate InBounds(line: string, payload: seq<byte>) {
    match ParseControl(line)
    case None => true
    case Some(e) => e.size == 0 || e.data + e.size <= |payload|
  }

  ghost predicate Whole(log: Log) {
    Complete(log.text) && forall l :: l in Lines(log.text) ==> InBounds(l, log.payload)
  }

  lemma LineLoads(c: Control, before: seq<byte>, setups: Setups)
    requires c.dataSize == |c.data| && |before + c.data| < TWO_64
    ensures LoadLine(ControlLine(c.setup, c.dataSize, |before|), before + c.data, setups) == setups[c.setup := c]
    ensures InBounds(ControlLine(c.setup, c.dataSize, |before|), before + c.data)
  {
    hide ControlLine, MatchControl;
    LineIsOneLine(c.setup, c.dataSize, |before|);
    LineIsRead(c.setup, c.dataSize, |before|);
    ReadAtWritten(before, c.data, []);
    assert before + c.data + [] == before + c.data;
  }

  lemma {:induction false} NoBraceNoMatch(line: string)
    requires forall i :: 0 <= i < |line| ==> line[i] != '{'
    ensures SearchControl(line) == Err(Malformed)
  {
    if line != "" { NoBraceNoMatch(line[1..]); }
  }

  /** A record is found wherever in its line it begins. */
  lemma {:induction false} FoundBehind(before: string, line: string)
    requires (forall i :: 0 <= i < |before| ==> before[i] != '{') && MatchControl(line).Ok?
    ensures SearchControl(before + line) == MatchControl(line)
  {
    if before == "" {
      assert before + line == line;
    } else {
      hide Key, Number, Expect;
      assert (before + line)[0] == before[0] && (before + line)[1..] == before[1..] + line;
      FoundBehind(before[1..], line);
    }
  }

  lemma AnyLineParses(setup: nat, size: nat, data: nat)
    ensures ParseControl(ControlLine(setup, size, data)) ==
      if setup >= 0x1_0000_0000_0000_0000 || size >= 0x1_0000_0000_0000_0000 || data >= 0x1_0000_0000_0000_0000 then None
      else Some(Entry(setup, size % 0x1_0000_0000, data))
  {
    hide ControlLine, MatchControl;
    LineIsRead(setup, size, data);
  }

  /** A line that has no record in it changes nothing, nor does one whose bytes are not all
      in the payload. */
  lemma BadLinesChangeNothing(line: string, setup: nat, size: u32, at: nat, payload: seq<byte>, setups: Setups)
    ensures (forall i :: 0 <= i < |line| ==> line[i] != '{') ==> LoadLine(line, payload, setups) == setups
    ensures size > 0 && at + size > |payload| ==> LoadLine(ControlLine(setup, size, at), payload, setups) == setups
  {
    hide MatchControl, ControlLine;
    if forall i :: 0 <= i < |line| ==> line[i] != '{' { NoBraceNoMatch(line); }
    LineIsRead(setup, size, at);
  }

  lemma LineKeepsLoading(line: string, payload: seq<byte>, more: seq<byte>, setups: Setups)
    requires InBounds(line, payload)
    ensures LoadLine(line, payload + more, setups) == LoadLine(line, payload, setups) && InBounds(line, payload + more)
  {
    hide SearchControl;
    if ParseControl(line).Some? {
      ReadAtGrows(payload, more, ParseControl(line).value.data, ParseControl(line).value.size);
    }
  }

  lemma {:induction false} LinesKeepLoading(lines: seq<string>, payload: seq<byte>, more: seq<byte>, setups: Setups)
    requires forall l :: l in lines ==> InBounds(l, payload)
    ensures LoadLines(lines, payload + more, setups) == LoadLines(lines, payload, setups)
    ensures forall l :: l in lines ==> InBounds(l, payload + more)
    decreases |lines|
  {
    hide InBounds, LoadLine;
    if lines != [] {
      LineKeepsLoading(lines[0], payload, more, setups);
      LinesKeepLoading(lines[1..], payload, more, LoadLine(lines[0], payload, setups));
    }
  }

  lemma {:induction false} LoadLinesAppend(lines: seq<string>, line: string, payload: seq<byte>, setups: Setups)
    ensures LoadLines(lines + [line], payload, setups) == LoadLine(line, payload, LoadLines(lines, payload, setups))
    decreases |lines|
  {
    hide LoadLine;
    if lines == [] {
      assert lines + [line] == [line] && [line][1..] == [];
    } else {
      assert (lines + [line])[1..] == lines[1..] + [line] && (lines + [line])[0] == lines[0];
      LoadLinesAppend(lines[1..], line, payload, LoadLine(lines[0], payload, setups));
    }
  }

  lemma AppendThenLoad(log: Log, c: Control)
    requires Whole(log) && c.dataSize == |c.data| && |Append(log, c).payload| < TWO_64
    ensures Whole(Append(log, c)) && Load(Append(log, c)) == Load(log)[c.setup := c]
  {
    hide InBounds, LoadLine, LoadLines, Lines, ControlLine, Complete;
    var line := ControlLine(c.setup, c.dataSize, |log.payload|);
    LineIsOneLine(c.setup, c.dataSize, |log.payload|);
    LinesAppend(log.text, line);
    LinesKeepLoading(Lines(log.text), log.payload, c.data, map[]);
    LineLoads(c, log.payload, Load(log));
    LoadLinesAppend(Lines(log.text), line, log.payload + c.data, map[]);
  }

  lemma {:induction false} AppendAllEnds(log: Log, cs: seq<Control>)
    requires cs != []
    ensures AppendAll(log, cs) == Append(AppendAll(log, cs[..|cs| - 1]), cs[|cs| - 1])
    decreases |cs|
  {
    hide Append;
    if |cs| == 1 {
      assert cs[1..] == [] && cs[..0] == [];
      assert AppendAll(Append(log, cs[0]), []) == Append(log, cs[0]) && AppendAll(log, []) == log;
    } else {
      AppendAllEnds(Append(log, cs[0]), cs[1..]);
      assert cs[1..][..|cs| - 2] == cs[..|cs| - 1][1..] && cs[..|cs| - 1][0] == cs[0];
    }
  }

  /** After any recording on top of any log, a request is answered from the last record
      of it, and as before if there is none. */
  lemma {:induction false} LookupIsLast(log: Log, cs: seq<Control>, setup: u64)
    requires Whole(log) && forall i :: 0 <= i < |cs| ==> cs[i].dataSize == |cs[i].data|
    requires |AppendAll(log, cs).payload| < TWO_64
    ensures Whole(AppendAll(log, cs))
    ensures Lookup(Load(AppendAll(log, cs)), setup)
         == if LastFor(cs, setup) == None then Lookup(Load(log), setup) else LastFor(cs, setup)
    decreases |cs|
  {
    hide Append, Load, Whole, AppendAll;
    if cs == [] {
      NoControls(log);
    } else {
      AppendAllEnds(log, cs);
      var before := AppendAll(log, cs[..|cs| - 1]);
      PayloadOf(before, cs[|cs| - 1]);
      LookupIsLast(log, cs[..|cs| - 1], setup);
      AppendThenLoad(before, cs[|cs| - 1]);
    }
  }

  lemma PayloadOf(log: Log, c: Control)
    ensures |Append(log, c).payload| >= |log.payload|
  {
  }

  lemma NoControls(log: Log)
    ensures AppendAll(log, []) == log
  {
  }

  lemma {:induction false} AppendAllThen(log: Log, cs: seq<Control>, c: Control)
    ensures AppendAll(log, cs + [c]) == Append(AppendAll(log, cs), c)
  {
    hide Append, AppendAll;
    AppendAllEnds(log, cs + [c]);
    assert (cs + [c])[..|cs|] == cs && (cs + [c])[|cs|] == c;
  }
}
