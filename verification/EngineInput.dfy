/** From the socket into the engine: what a host that keeps to the protocol may send. */
module EngineInput {
  import opened Prelude
  import opened Vhci
  import opened Engine
  import opened EngineRuns

  /** A message of the protocol: sizes that are not negative, a payload that is what the
      header says, up to the end of a header of 48 bytes. */
  predicate WellSized(m: Message) {
    var c := m.cmd;
    && |m.padding| == 24
    && (c.CmdSubmit? ==>
          && |c.setup| == 8 && c.bufferLength >= 0 && c.packets >= -1 && |c.payload| < 0x8000_0000
          && |c.payload| == (if c.direction == 0 then c.bufferLength else 0) + (if c.packets > 0 then 16 * c.packets else 0))
  }

  /** The i-th message keeps to the protocol: a direction, one of sixteen endpoints, packets
      only off the control endpoint, a number of its own, and an unlink of an earlier
      submit. */
  predicate Keeps(ms: seq<Message>, i: nat)
    requires i < |ms|
  {
    var c := ms[i].cmd;
    && WellSized(ms[i]) && c.direction in {0, 1} && c.ep < 16
    && (c.CmdSubmit? && c.ep == 0 ==> c.packets in {0, -1})
    && (forall j :: 0 <= j < i ==> ms[j].cmd.seqnum != c.seqnum)
    && (c.CmdUnlink? ==> exists j :: 0 <= j < i && ms[j].cmd.CmdSubmit? && ms[j].cmd.seqnum == c.target)
  }

  /** The commands sent so far are those accepted, and they wait in their order. */
  ghost predicate Holds(s: State, ms: seq<Message>, n: nat)
    requires n <= |ms|
  {
    && |s.eps| == EP_COUNT && s.queue == Commands(ms[..n])
    && (forall i :: 0 <= i < n ==> MapsTo(s.accepted, ms[i].cmd))
    && (forall m :: m in s.accepted ==> exists i :: 0 <= i < n && ms[i].cmd.seqnum == m)
  }

  lemma OneMore(s: State, ms: seq<Message>, n: nat)
    requires n < |ms| && Holds(s, ms, n) && Keeps(ms, n)
    ensures Enabled(s, Receive(ms[n].cmd)) && Holds(Next(s, Receive(ms[n].cmd)), ms, n + 1)
  {
    var c := ms[n].cmd;
    if c.CmdUnlink? {
      var j :| 0 <= j < n && ms[j].cmd.CmdSubmit? && ms[j].cmd.seqnum == c.target;
      assert MapsTo(s.accepted, ms[j].cmd);
    }
    assert Enabled(s, Receive(c));
    var t := Next(s, Receive(c));
    assert ms[..n + 1] == ms[..n] + [ms[n]];
    assert Commands(ms[..n + 1]) == Commands(ms[..n]) + [c];
    forall m | m in t.accepted ensures exists i :: 0 <= i < n + 1 && ms[i].cmd.seqnum == m {
      if m == c.seqnum { assert ms[n].cmd.seqnum == m; }
    }
  }

  lemma {:induction false} ReceiveMany(ms: seq<Message>, n: nat) returns (steps: seq<Step>, t: State)
    requires n <= |ms| && forall i :: 0 <= i < n ==> Keeps(ms, i)
    ensures Run(Init(), steps, t) && Holds(t, ms, n)
  {
    if n == 0 {
      steps, t := [], Init();
    } else {
      hide Next, Enabled, Keeps, Run;
      var s;
      steps, s := ReceiveMany(ms, n - 1);
      OneMore(s, ms, n - 1);
      RunSnoc(Init(), steps, s, Receive(ms[n - 1].cmd));
      steps, t := steps + [Receive(ms[n - 1].cmd)], Next(s, Receive(ms[n - 1].cmd));
    }
  }

  /** Whatever such a host sends, the engine can take it all: a run leads to a state in
      which exactly the commands sent wait to be executed, in their order, and they are
      what the reading loop makes of the bytes. */
  lemma HostStreamIsQueued(ms: seq<Message>)
    requires forall i :: 0 <= i < |ms| ==> Keeps(ms, i)
    ensures ReadAll(EncodeMessages(ms)) == (Commands(ms), false)
    ensures exists steps, t :: Run(Init(), steps, t) && t.queue == Commands(ms)
  {
    hide Run;
    forall m | m in ms ensures m.WellFormed() { var i :| 0 <= i < |ms| && ms[i] == m; assert Keeps(ms, i); }
    InboundRoundTrip(ms);
    var steps, t := ReceiveMany(ms, |ms|);
    assert ms[..|ms|] == ms;
  }
}
