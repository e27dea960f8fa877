/** The writer of a recording (recording_proxy.cpp): records are pushed to a queue, a
    thread takes them off and appends them to the files, and the destructor waits for it.
    The queue is shared under a lock; the record taken and the files are the writer's
    alone. So each method is one turn of a thread, pushing, taking or writing, and every
    interleaving is some order of these calls. */
module Recorder {
  import opened Prelude
  import opened RecordLog
  import opened Recording
  import ControlRecording

  class TransferRecorder {
    var text: string
    var payload: seq<byte>
    var queue: seq<Recorded>
    var hand: Option<Recorded>        // taken by the writer, not written yet

    // The files as they were found, and what has been written to them since.
    ghost const found: Log
    ghost var written: seq<Recorded>

    ghost predicate Valid()
      reads this
    {
      Files() == AppendAll(found, written)
    }

    ghost function Files(): Log
      reads this
    {
      Log(text, payload)
    }

    /** All that was ever recorded, in order. */
    ghost function History(): seq<Recorded>
      reads this
    {
      written + (if hand == None then [] else [hand.value]) + queue
    }

    constructor (text: string, payload: seq<byte>)
      ensures Valid() && History() == [] && found == Log(text, payload) && Files() == found
    {
      this.text, this.payload, queue, hand := text, payload, [], None;
      found, written := Log(text, payload), [];
    }

    method RecordTransfer(r: Recorded)
      requires Valid()
      modifies this
      ensures Valid() && History() == old(History()) + [r] && Files() == old(Files()) && hand == old(hand)
    {
      hide AppendAll;
      queue := queue + [r];
      assert History() == old(History()) + [r];
    }

    /** `on_transfer_complete`: of a transfer to the host, the whole buffer is recorded,
        however much of it was received, if there is a buffer. */
    method OnTransferComplete(isIn: bool, endpoint: u8, buffer: seq<byte>, received: nat, packets: seq<Packet>, now: nat)
      requires Valid() && received <= |buffer| < TWO_31
      modifies this
      ensures Valid() && Files() == old(Files())
      ensures History() == old(History()) +
        (if isIn && buffer != [] then [Recorded(endpoint, |buffer|, buffer, packets, now)] else [])
    {
      hide AppendAll;
      assert buffer[..|buffer|] == buffer && History() + [] == History();
      if isIn {
        var size := |buffer|;
        if size > 0 {
          RecordTransfer(Recorded(endpoint, size, buffer[..size], packets, now));
        }
      }
    }

    /** The writer, under the lock, having found the queue not empty. */
    method Take()
      requires Valid() && hand == None && queue != []
      modifies this
      ensures Valid() && History() == old(History()) && Files() == old(Files())
      ensures hand == Some(old(queue)[0]) && queue == old(queue)[1..]
    {
      hand, queue := Some(queue[0]), queue[1..];
    }

    /** The writer, the lock released. */
    method WriteTaken()
      requires Valid() && hand.Some?
      modifies this
      ensures Valid() && History() == old(History()) && hand == None && queue == old(queue)
      ensures Files() == Append(old(Files()), old(hand).value)
    {
      hide AppendAll, LineOf, PacketsBytes, WriteLine;
      var r := hand.value;
      ghost var before := Files();
      var payloadOffset := |payload|;
      if r.data != [] { payload := payload + r.data; }
      var isoOffset := |payload|;
      if r.packets != [] { payload := payload + PacketsBytes(r.packets); }
      text := text + WriteLine(r, payloadOffset, isoOffset) + "\n";
      NoPackets();
      WriteLineIs(r, payloadOffset);
      assert before.payload + r.data == before.payload + r.data + [];
      assert Files() == Append(before, r);
      AppendAllAppends(found, written, [r]);
      AppendOne(before, r);
      written, hand := written + [r], None;
    }

    static lemma NoPackets()
      ensures PacketsBytes([]) == []
    {
    }

    static lemma WriteLineIs(r: Recorded, at: nat)
      ensures WriteLine(r, at, at + |r.data|) == LineOf(r, at)
    {
      hide TransferLine;
    }

    static lemma AppendOne(log: Log, r: Recorded)
      ensures AppendAll(log, [r]) == Append(log, r)
    {
      hide Append;
      assert AppendAll(Append(log, r), [r][1..]) == Append(log, r);
    }

    static function WriteLine(r: Recorded, payloadOffset: nat, isoOffset: nat): string {
      if r.packets != [] then
        TransferLine(r.timestamp / NANOSECONDS, r.endpoint, r.size, payloadOffset, Some(|r.packets|), Some(isoOffset))
      else
        TransferLine(r.timestamp / NANOSECONDS, r.endpoint, r.size, payloadOffset, None, None)
    }

    /** The destructor: the writer ends only with the queue empty. A player then finds
        what the files had held before, and all that was recorded here. */
    method Finish()
      requires Valid()
      modifies this
      ensures Valid() && hand == None && queue == [] && Files() == AppendAll(found, old(History()))
      ensures Whole(found) && |Files().payload| < TWO_64
        && (forall i :: 0 <= i < |old(History())| ==> Recordable(old(History())[i]))
        ==> Load(Files()) == Load(found) + PlayableAll(old(History()))
    {
      hide AppendAll, Load, PlayableAll, Whole, Recordable, Append;
      while hand.Some? || queue != []
        invariant Valid() && History() == old(History())
        decreases |queue|, if hand.Some? then 1 else 0
      {
        if hand == None { Take(); }
        WriteTaken();
      }
      assert written + [] == written;
      ghost var rs := old(History());
      if Whole(found) && |Files().payload| < TWO_64 && forall i :: 0 <= i < |rs| ==> Recordable(rs[i]) {
        AppendAllThenLoad(found, rs);
      }
    }
  }

  /** `control_setup_recorder`, the same for control requests. */
  class ControlRecorder {
    var text: string
    var payload: seq<byte>
    var queue: seq<ControlRecording.Control>
    var hand: Option<ControlRecording.Control>
    ghost const found: Log
    ghost var written: seq<ControlRecording.Control>

    ghost predicate Valid()
      reads this
    {
      Files() == ControlRecording.AppendAll(found, written)
    }

    ghost function Files(): Log
      reads this
    {
      Log(text, payload)
    }

    ghost function History(): seq<ControlRecording.Control>
      reads this
    {
      written + (if hand == None then [] else [hand.value]) + queue
    }

    constructor (text: string, payload: seq<byte>)
      ensures Valid() && History() == [] && found == Log(text, payload) && Files() == found
    {
      this.text, this.payload, queue, hand := text, payload, [], None;
      found, written := Log(text, payload), [];
    }

    /** `on_control_setup`: requests that ask for data, with what was answered. */
    method OnControlSetup(setup: ControlRecording.u64, data: seq<byte>)
      requires Valid() && |data| < TWO_32
      modifies this
      ensures Valid() && Files() == old(Files())
      ensures History() == old(History()) +
        (if setup % 256 >= 0x80 then [ControlRecording.Control(setup, |data|, data)] else [])
    {
      if setup % 256 >= 0x80 { queue := queue + [ControlRecording.Control(setup, |data|, data)]; }
    }

    method Take()
      requires Valid() && hand == None && queue != []
      modifies this
      ensures Valid() && History() == old(History()) && Files() == old(Files())
      ensures hand == Some(old(queue)[0]) && queue == old(queue)[1..]
    {
      hand, queue := Some(queue[0]), queue[1..];
    }

    method WriteTaken()
      requires Valid() && hand.Some?
      modifies this
      ensures Valid() && History() == old(History()) && hand == None && queue == old(queue)
      ensures Files() == ControlRecording.Append(old(Files()), old(hand).value)
    {
      hide ControlRecording.AppendAll, ControlRecording.ControlLine;
      var c := hand.value;
      ghost var before := Files();
      var payloadOffset := |payload|;
      if c.data != [] { payload := payload + c.data; }
      text := text + ControlRecording.ControlLine(c.setup, c.dataSize, payloadOffset) + "\n";
      assert before.payload + c.data == payload;
      assert Files() == ControlRecording.Append(before, c);
      ControlRecording.AppendAllThen(found, written, c);
      written, hand := written + [c], None;
    }

    /** The destructor. A player then answers each request from the last record of it. */
    method Finish()
      requires Valid()
      modifies this
      ensures Valid() && hand == None && queue == [] && Files() == ControlRecording.AppendAll(found, old(History()))
      ensures ControlRecording.Whole(found) && |Files().payload| < TWO_64
        && (forall i :: 0 <= i < |old(History())| ==> old(History())[i].dataSize == |old(History())[i].data|)
        ==> forall setup :: ControlRecording.LastFor(old(History()), setup).Some? ==>
              ControlRecording.Lookup(ControlRecording.Load(Files()), setup)
              == ControlRecording.LastFor(old(History()), setup)
    {
      hide ControlRecording.AppendAll, ControlRecording.Load, ControlRecording.Whole, ControlRecording.Lookup,
        ControlRecording.LastFor, ControlRecording.Append;
      while hand.Some? || queue != []
        invariant Valid() && History() == old(History())
        decreases |queue|, if hand.Some? then 1 else 0
      {
        if hand == None { Take(); }
        WriteTaken();
      }
      assert written + [] == written;
      ghost var cs := old(History());
      if ControlRecording.Whole(found) && |Files().payload| < TWO_64
        && forall i :: 0 <= i < |cs| ==> cs[i].dataSize == |cs[i].data|
      {
        forall setup | ControlRecording.LastFor(cs, setup).Some?
          ensures ControlRecording.Lookup(ControlRecording.Load(Files()), setup) == ControlRecording.LastFor(cs, setup)
        {
          ControlRecording.LookupIsLast(found, cs, setup);
        }
      }
    }
  }
}
