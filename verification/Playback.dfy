/** The player of a recording (playback_device.cpp): the loops that load it, and the
    engine that steps through its records round and round. */
module Playback {
  import opened Prelude
  import opened RecordLog
  import opened Recording
  import ControlRecording

  // -------------------------------------------------------------------- the timeline

  const DEFAULT_INTERVAL: nat := 100

  /** How long to wait at record i: until the next one's time, or the default if there is
      no next one or it lies in the past. */
  function IntervalAt(rs: seq<Loaded>, i: nat): nat {
    if |rs| < 2 || i >= |rs| then DEFAULT_INTERVAL
    else
      var next := rs[(i + 1) % |rs|];
      if next.timestampMs < rs[i].timestampMs then DEFAULT_INTERVAL else next.timestampMs - rs[i].timestampMs
  }

  /** The time waited before record number k, counting on when the records repeat. */
  function Elapsed(rs: seq<Loaded>, k: nat): nat
    requires rs != []
  {
    if k == 0 then 0 else Elapsed(rs, k - 1) + IntervalAt(rs, (k - 1) % |rs|)
  }

  predicate InOrder(rs: seq<Loaded>) {
    forall i, j :: 0 <= i < j < |rs| ==> rs[i].timestampMs <= rs[j].timestampMs
  }

  /** From the first record to the first record again. */
  function Cycle(rs: seq<Loaded>): nat
    requires rs != [] && InOrder(rs)
  {
    var span := rs[|rs| - 1].timestampMs - rs[0].timestampMs;
    if |rs| < 2 then DEFAULT_INTERVAL else if span == 0 then 0 else span + DEFAULT_INTERVAL
  }

  function Times(q: nat, c: nat): nat { q * c }

  lemma {:induction false} ElapsedInRounds(rs: seq<Loaded>, k: nat)
    requires rs != [] && InOrder(rs)
    ensures Elapsed(rs, k) == Times(k / |rs|, Cycle(rs)) + rs[k % |rs|].timestampMs - rs[0].timestampMs
  {
    hide Cycle, InOrder, Times, IntervalAt;
    var c, n := Cycle(rs), |rs|;
    if k == 0 {
      Divides(0, n, 0, 0);
      NoRounds(c);
    } else {
      ElapsedInRounds(rs, k - 1);
      NextIndex(k - 1, n);
      IntervalIs(rs, (k - 1) % n);
      OneMoreRound((k - 1) / n, c);
    }
  }

  lemma NoRounds(c: nat)
    ensures Times(0, c) == 0
  {
  }

  lemma OneMoreRound(q: nat, c: nat)
    ensures Times(q + 1, c) == Times(q, c) + c
  {
  }

  /** Every record is played at its recorded distance from the first, in every round, and
      a round takes the same time as any other. */
  lemma PlaysOnTime(rs: seq<Loaded>, k: nat)
    requires rs != [] && InOrder(rs)
    ensures var span := rs[|rs| - 1].timestampMs - rs[0].timestampMs;
      Elapsed(rs, k) == k / |rs| * (if |rs| == 1 then 100 else if span == 0 then 0 else span + 100)
                        + rs[k % |rs|].timestampMs - rs[0].timestampMs
  {
    hide InOrder, Elapsed;
    ElapsedInRounds(rs, k);
  }

  lemma IntervalIs(rs: seq<Loaded>, i: nat)
    requires InOrder(rs) && i < |rs|
    ensures i < |rs| - 1 ==> IntervalAt(rs, i) == rs[i + 1].timestampMs - rs[i].timestampMs
    ensures i == |rs| - 1 ==> IntervalAt(rs, i) == Cycle(rs) - (rs[i].timestampMs - rs[0].timestampMs)
  {
    if i < |rs| - 1 { Divides(i + 1, |rs|, 0, i + 1); } else { Divides(i + 1, |rs|, 1, 0); }
  }

  lemma NextIndex(k: nat, n: nat)
    requires n > 0
    ensures k % n < n - 1 ==> (k + 1) % n == k % n + 1 && (k + 1) / n == k / n
    ensures k % n == n - 1 ==> (k + 1) % n == 0 && (k + 1) / n == k / n + 1
    ensures (k + 1) % n == (k % n + 1) % n
  {
    var q, m := k / n, k % n;
    assert k == q * n + m;
    if m < n - 1 {
      Divides(k + 1, n, q, m + 1);
      Divides(m + 1, n, 0, m + 1);
    } else {
      assert k + 1 == (q + 1) * n;
      Divides(k + 1, n, q + 1, 0);
      Divides(m + 1, n, 1, 0);
    }
  }

  lemma AtLeast(d: int, n: int)
    requires n > 0
    ensures d >= 1 ==> d * n >= n
    ensures d <= -1 ==> d * n <= -n
  {
  }

  lemma Divides(k: int, n: int, q: int, m: int)
    requires 0 <= k && 0 <= m < n && k == q * n + m
    ensures k / n == q && k % n == m
  {
    var d: int := k / n - q;
    assert k == k / n * n + k % n;
    assert d * n == m - k % n;
    AtLeast(d, n);
  }

  /** Before the records repeat, the waits add up to the recorded time. */
  lemma IntervalsTelescope(rs: seq<Loaded>, k: nat)
    requires InOrder(rs) && k < |rs|
    ensures Elapsed(rs, k) == rs[k].timestampMs - rs[0].timestampMs
  {
    hide Elapsed, Cycle, InOrder, Times;
    Divides(k, |rs|, 0, k);
    NoRounds(Cycle(rs));
    ElapsedInRounds(rs, k);
  }

  // ---------------------------------------------------------------------- the engine

  class Engine {
    var records: seq<Loaded>
    var current: nat
    ghost var advances: nat

    ghost predicate Valid()
      reads this
    {
      if records == [] then current == 0 else current == advances % |records|
    }

    constructor (text: string, payload: seq<byte>)
      ensures Valid() && advances == 0 && records == Load(Log(text, payload))
    {
      hide Load;
      var loaded := LoadTransfers(text, payload);
      records, current, advances := loaded, 0, 0;
    }

    /** `load_transfers`: a line at a time. */
    static method LoadTransfers(text: string, payload: seq<byte>) returns (rs: seq<Loaded>)
      ensures rs == Load(Log(text, payload))
    {
      hide LoadLine, LoadLines, Lines;
      rs := [];
      var left := text;
      ghost var all := LoadLines(Lines(text), payload);
      assert [] + all == all;
      while left != ""
        invariant rs + LoadLines(Lines(left), payload) == all
        decreases |left|
      {
        var n := LineEnd(left);
        var line := left[..n];
        ghost var more := if n == |left| then [] else Lines(left[n + 1..]);
        FirstLine(left);
        LoadFirst(line, more, payload);
        assert rs + LoadLines(Lines(left), payload) == rs + LoadLine(line, payload) + LoadLines(more, payload);
        rs := rs + LoadLine(line, payload);
        left := if n == |left| then "" else left[n + 1..];
        NoLines();
      }
      NoLines();
      LoadNone(payload);
      assert rs + [] == rs;
    }

    static lemma FirstLine(text: string)
      requires text != ""
      ensures Lines(text) == [text[..LineEnd(text)]]
        + if LineEnd(text) == |text| then [] else Lines(text[LineEnd(text) + 1..])
    {
      hide LineEnd;
    }

    static lemma LoadFirst(line: string, more: seq<string>, payload: seq<byte>)
      ensures LoadLines([line] + more, payload) == LoadLine(line, payload) + LoadLines(more, payload)
    {
      hide LoadLine;
      assert ([line] + more)[1..] == more;
    }

    static lemma LoadNone(payload: seq<byte>)
      ensures LoadLines([], payload) == []
    {
    }

    /** After k advances this is record k modulo their number. */
    method GetNextRecord() returns (r: Option<Loaded>)
      modifies this
      ensures advances == old(advances) && records == old(records)
      ensures old(Valid()) ==> Valid() && r == if records == [] then None else Some(records[advances % |records|])
    {
      if records == [] { return None; }
      if current >= |records| { current := 0; }
      r := Some(records[current]);
    }

    method Advance()
      requires Valid()
      modifies this
      ensures Valid() && advances == old(advances) + 1 && records == old(records)
    {
      if records != [] {
        NextIndex(advances, |records|);
        current := (current + 1) % |records|;
      }
      advances := advances + 1;
    }

    method GetIntervalMs() returns (ms: nat)
      requires Valid() && records != []
      ensures Elapsed(records, advances) + ms == Elapsed(records, advances + 1)
    {
      if |records| < 2 || current >= |records| { return DEFAULT_INTERVAL; }
      var now := records[current];
      var next := records[(current + 1) % |records|];
      if next.timestampMs < now.timestampMs { return DEFAULT_INTERVAL; }
      ms := next.timestampMs - now.timestampMs;
    }
  }

  /** `load_control_setups`. */
  method LoadControlSetups(text: string, payload: seq<byte>) returns (setups: ControlRecording.Setups)
    ensures setups == ControlRecording.Load(Log(text, payload))
  {
    hide ControlRecording.LoadLine, Lines;
    setups := map[];
    var left := text;
    while left != ""
      invariant ControlRecording.LoadLines(Lines(left), payload, setups) == ControlRecording.Load(Log(text, payload))
      decreases |left|
    {
      var n := LineEnd(left);
      var line := left[..n];
      ghost var more := if n == |left| then [] else Lines(left[n + 1..]);
      assert Lines(left) == [line] + more && ([line] + more)[1..] == more by { Engine.FirstLine(left); }
      setups := ControlRecording.LoadLine(line, payload, setups);
      left := if n == |left| then "" else left[n + 1..];
      NoLines();
    }
    NoLines();
  }
}
