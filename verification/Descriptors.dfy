/** Descriptor trees (descriptor_classes.cppm, types.cppm) and their token form:
    `basic_descriptor::stream_out` and `stream_in` (usb_descriptors_impl.cpp), which
    are one template over the kinds of node. */
module Descriptors {
  import opened Prelude
  import opened Text

  datatype Kind = Endpoint | Interface | UsbInterface | Config | DevCap | Bos

  /** The described fields of the wrapped libusb structure, by width in bytes. */
  function Widths(k: Kind): (ws: seq<nat>)
    ensures forall i :: 0 <= i < |ws| ==> ws[i] in {1, 2}
  {
    match k
    case Endpoint => [1, 1, 1, 1, 2, 1, 1, 1]
    case Interface => [1, 1, 1, 1, 1, 1, 1, 1, 1]
    case UsbInterface => []
    case Config => [1, 1, 2, 1, 1, 1, 1, 1]
    case DevCap => [1, 1, 1]
    case Bos => [1, 1, 2, 1]
  }

  /** What the vector of a node holds: nodes of one kind, plain bytes, or it has none. */
  function ChildKind(k: Kind): Option<Kind> {
    match k
    case Interface => Some(Endpoint)
    case UsbInterface => Some(Interface)
    case Config => Some(UsbInterface)
    case Bos => Some(DevCap)
    case _ => None
  }

  predicate HasBytes(k: Kind) { k == DevCap }
  predicate HasExtra(k: Kind) { k in {Endpoint, Interface, Config} }

  function Level(k: Kind): nat {
    match k
    case Endpoint => 0
    case Interface => 1
    case UsbInterface => 2
    case Config => 3
    case DevCap => 0
    case Bos => 1
  }

  datatype Desc = Desc(kind: Kind, fields: seq<nat>, children: seq<Desc>, bytes: seq<byte>, extra: seq<byte>)

  ghost predicate InRange(ws: seq<nat>, fs: seq<nat>) {
    |fs| == |ws| && forall i :: 0 <= i < |fs| ==> fs[i] < Pow256(ws[i])
  }

  /** A value the C++ node types can hold. */
  ghost predicate WellFormed(d: Desc) {
    && InRange(Widths(d.kind), d.fields)
    && |d.children| < TWO_64 && |d.bytes| < TWO_64 && |d.extra| < TWO_64
    && (ChildKind(d.kind) == None ==> d.children == [])
    && (!HasBytes(d.kind) ==> d.bytes == [])
    && (!HasExtra(d.kind) ==> d.extra == [])
    && forall c :: c in d.children ==> ChildKind(d.kind) == Some(c.kind) && WellFormed(c)
  }

  // ------------------------------------------------------------------- printing

  function OutNumbers(ns: seq<nat>): seq<string> {
    if ns == [] then [] else [Decimal(ns[0])] + OutNumbers(ns[1..])
  }

  /** Bytes behind their number. */
  function OutList(bs: seq<byte>): seq<string> { [Decimal(|bs|)] + OutNumbers(bs) }

  /** Wrapped fields, the vector behind its size, the extra bytes behind theirs. */
  function Out(d: Desc): seq<string> {
    OutNumbers(d.fields)
    + (if ChildKind(d.kind).Some? then [Decimal(|d.children|)] + OutAll(d.children)
       else if HasBytes(d.kind) then OutList(d.bytes)
       else [])
    + (if HasExtra(d.kind) then OutList(d.extra) else [])
  }

  function OutAll(ds: seq<Desc>): seq<string> {
    if ds == [] then [] else Out(ds[0]) + OutAll(ds[1..])
  }

  // -------------------------------------------------------------------- reading

  function InFields(ws: seq<nat>, ts: seq<string>): Result<(seq<nat>, seq<string>)>
    requires forall i :: 0 <= i < |ws| ==> ws[i] in {1, 2}
  {
    if ws == [] then Ok(([], ts))
    else
      var (v, ts1) :- InField(ws[0], ts);
      var (vs, ts2) :- InFields(ws[1..], ts1);
      Ok(([v] + vs, ts2))
  }

  function InBytes(n: nat, ts: seq<string>): Result<(seq<byte>, seq<string>)> {
    if n == 0 then Ok(([], ts))
    else
      var (v, ts1) :- InField(1, ts);
      var (vs, ts2) :- InBytes(n - 1, ts1);
      Ok(([v % 256] + vs, ts2))
  }

  function InList(ts: seq<string>): Result<(seq<byte>, seq<string>)> {
    var (n, ts1) :- InSize(ts);
    InBytes(n, ts1)
  }

  function In(k: Kind, ts: seq<string>): Result<(Desc, seq<string>)>
    decreases Level(k), 0
  {
    var (fields, ts1) :- InFields(Widths(k), ts);
    var (children, ts2) :- InChildren(k, ts1);
    var (bytes, ts3) :- if HasBytes(k) then InList(ts2) else Ok(([], ts2));
    var (extra, ts4) :- if HasExtra(k) then InList(ts3) else Ok(([], ts3));
    Ok((Desc(k, fields, children, bytes, extra), ts4))
  }

  function InChildren(k: Kind, ts: seq<string>): Result<(seq<Desc>, seq<string>)>
    decreases Level(k), 0, 0
  {
    if ChildKind(k) == None then Ok(([], ts))
    else
      var (n, ts1) :- InSize(ts);
      InAll(ChildKind(k).value, n, ts1)
  }

  function InAll(k: Kind, n: nat, ts: seq<string>): Result<(seq<Desc>, seq<string>)>
    decreases Level(k), n + 1
  {
    if n == 0 then Ok(([], ts))
    else
      var (d, ts1) :- In(k, ts);
      var (ds, ts2) :- InAll(k, n - 1, ts1);
      Ok(([d] + ds, ts2))
  }

  // ----------------------------------------------------------------- round trip

  lemma {:induction false} InOutFields(ws: seq<nat>, fs: seq<nat>, rest: seq<string>)
    requires (forall i :: 0 <= i < |ws| ==> ws[i] in {1, 2}) && InRange(ws, fs)
    ensures InFields(ws, OutNumbers(fs) + rest) == Ok((fs, rest))
  {
    hide Decimal, InField;
    if ws == [] {
      assert OutNumbers(fs) + rest == rest;
    } else {
      var tail := OutNumbers(fs[1..]) + rest;
      assert OutNumbers(fs) + rest == [Decimal(fs[0])] + tail;
      InFieldDecimal(ws[0], fs[0], tail);
      assert forall i :: 0 <= i < |fs[1..]| ==> fs[1..][i] == fs[i + 1] && ws[1..][i] == ws[i + 1];
      InOutFields(ws[1..], fs[1..], rest);
      assert [fs[0]] + fs[1..] == fs;
    }
  }

  lemma {:induction false} InOutBytes(bs: seq<byte>, rest: seq<string>)
    ensures InBytes(|bs|, OutNumbers(bs) + rest) == Ok((bs, rest))
  {
    hide Decimal, InField;
    if bs == [] {
      assert OutNumbers(bs) + rest == rest;
    } else {
      var tail := OutNumbers(bs[1..]) + rest;
      assert OutNumbers(bs) + rest == [Decimal(bs[0])] + tail;
      SmallPowers();
      InFieldDecimal(1, bs[0], tail);
      InOutBytes(bs[1..], rest);
      assert [bs[0]] + bs[1..] == bs;
    }
  }

  lemma InOutList(bs: seq<byte>, rest: seq<string>)
    requires |bs| < TWO_64
    ensures InList(OutList(bs) + rest) == Ok((bs, rest))
  {
    hide Decimal, InSize, InBytes, OutNumbers;
    assert OutList(bs) + rest == [Decimal(|bs|)] + (OutNumbers(bs) + rest);
    InSizeDecimal(|bs|, OutNumbers(bs) + rest);
    InOutBytes(bs, rest);
  }

  lemma InOutChildren(d: Desc, rest: seq<string>)
    requires WellFormed(d) && ChildKind(d.kind).Some?
    ensures InChildren(d.kind, [Decimal(|d.children|)] + OutAll(d.children) + rest) == Ok((d.children, rest))
    decreases d, 0
  {
    hide Decimal, InSize, InAll, OutAll;
    assert [Decimal(|d.children|)] + OutAll(d.children) + rest == [Decimal(|d.children|)] + (OutAll(d.children) + rest);
    InSizeDecimal(|d.children|, OutAll(d.children) + rest);
    InOutAll(ChildKind(d.kind).value, d.children, rest);
  }

  /** At each nesting level, reading the printed form with anything behind it returns
      the value and what is behind it. */
  lemma {:induction false} InOut(d: Desc, rest: seq<string>)
    requires WellFormed(d)
    ensures In(d.kind, Out(d) + rest) == Ok((d, rest))
    decreases d
  {
    hide Decimal, InList, OutList, InFields, OutNumbers, OutAll;
    var k := d.kind;
    var last := (if HasExtra(k) then OutList(d.extra) else []) + rest;
    var middle := if ChildKind(k).Some? then [Decimal(|d.children|)] + OutAll(d.children)
                  else if HasBytes(k) then OutList(d.bytes) else [];
    assert Out(d) + rest == OutNumbers(d.fields) + (middle + last);
    InOutFields(Widths(k), d.fields, middle + last);
    if ChildKind(k).Some? {
      InOutChildren(d, last);
    } else {
      assert [] + last == last;
      InOutList(d.bytes, last);
    }
    InOutList(d.extra, rest);
    assert [] + rest == rest;
  }

  lemma {:induction false} InOutAll(k: Kind, ds: seq<Desc>, rest: seq<string>)
    requires forall d :: d in ds ==> d.kind == k && WellFormed(d)
    ensures InAll(k, |ds|, OutAll(ds) + rest) == Ok((ds, rest))
    decreases ds
  {
    hide In, Out, WellFormed;
    if ds == [] {
      assert OutAll(ds) + rest == rest;
    } else {
      assert ds[0] in ds && forall d :: d in ds[1..] ==> d in ds;
      var tail := OutAll(ds[1..]) + rest;
      assert OutAll(ds) + rest == Out(ds[0]) + tail;
      InOut(ds[0], tail);
      InOutAll(k, ds[1..], rest);
      assert [ds[0]] + ds[1..] == ds;
    }
  }

  // ------------------------------------------------------------ nothing but words

  lemma {:induction false} NumbersAreWords(ns: seq<nat>)
    ensures AllWords(OutNumbers(ns))
  {
    if ns != [] {
      DecimalIsWord(ns[0]);
      NumbersAreWords(ns[1..]);
    }
  }

  lemma ListIsWords(bs: seq<byte>)
    ensures AllWords(OutList(bs))
  {
    DecimalIsWord(|bs|);
    NumbersAreWords(bs);
  }

  lemma {:induction false} OutIsWords(d: Desc)
    ensures AllWords(Out(d))
    decreases d
  {
    hide Decimal, IsWord, OutNumbers, OutList;
    NumbersAreWords(d.fields);
    DecimalIsWord(|d.children|);
    OutAllIsWords(d.children);
    ListIsWords(d.bytes);
    ListIsWords(d.extra);
  }

  lemma {:induction false} OutAllIsWords(ds: seq<Desc>)
    ensures AllWords(OutAll(ds))
    decreases ds
  {
    hide Out, IsWord;
    if ds != [] {
      OutIsWords(ds[0]);
      OutAllIsWords(ds[1..]);
    }
  }
}
