/** Packing descriptors into USB wire bytes (usb_descriptors_impl.cpp): the packer of
    the wrapped tree, and the shape of the bytes it produces. */
module Packing {
  import opened Prelude
  import opened Descriptors

  // ------------------------------------------------------------------ fields

  /** `pack` of described fields: each little endian, in order. */
  function PackFields(ws: seq<nat>, fs: seq<nat>): seq<byte>
    requires |ws| == |fs|
  {
    if ws == [] then [] else LittleEndian(ws[0], fs[0]) + PackFields(ws[1..], fs[1..])
  }

  function UnpackFields(ws: seq<nat>, bs: seq<byte>): Option<seq<nat>> {
    if ws == [] then (if bs == [] then Some([]) else None)
    else if |bs| < ws[0] then None
    else
      match UnpackFields(ws[1..], bs[ws[0]..])
      case None => None
      case Some(fs) => Some([FromLittleEndian(bs[..ws[0]])] + fs)
  }

  function Sum(ws: seq<nat>): nat { if ws == [] then 0 else ws[0] + Sum(ws[1..]) }

  lemma {:induction false} PackFieldsSize(ws: seq<nat>, fs: seq<nat>)
    requires |ws| == |fs|
    ensures |PackFields(ws, fs)| == Sum(ws)
  {
    if ws != [] { PackFieldsSize(ws[1..], fs[1..]); }
  }

  lemma {:induction false} UnpackPackFields(ws: seq<nat>, fs: seq<nat>)
    requires InRange(ws, fs)
    ensures UnpackFields(ws, PackFields(ws, fs)) == Some(fs)
  {
    if ws != [] {
      var bs := PackFields(ws, fs);
      assert bs[..ws[0]] == LittleEndian(ws[0], fs[0]) && bs[ws[0]..] == PackFields(ws[1..], fs[1..]);
      LittleEndianRoundTrip(ws[0], fs[0]);
      assert forall i :: 0 <= i < |fs[1..]| ==> fs[1..][i] == fs[i + 1] && ws[1..][i] == ws[i + 1];
      UnpackPackFields(ws[1..], fs[1..]);
      assert [fs[0]] + fs[1..] == fs;
    }
  }

  const AUDIO_ENDPOINT_LENGTH: nat := 9

  /** The fields that go on the wire: an endpoint has eight only if it is an audio
      endpoint, by its length; otherwise the last two are left out. */
  function WireWidths(k: Kind, fs: seq<nat>): (ws: seq<nat>)
    requires |fs| == |Widths(k)|
    ensures |ws| <= |fs| && ws <= Widths(k)
  {
    if k == Endpoint && fs[0] != AUDIO_ENDPOINT_LENGTH then Widths(k)[..6] else Widths(k)
  }

  function Header(k: Kind, fs: seq<nat>): seq<byte>
    requires |fs| == |Widths(k)|
  {
    var ws := WireWidths(k, fs);
    PackFields(ws, fs[..|ws|])
  }

  // ------------------------------------------------- packing the wrapped tree

  ghost predicate Shaped(d: Desc) {
    |d.fields| == |Widths(d.kind)| && forall c :: c in d.children ==> Shaped(c)
  }

  /** `basic_descriptor::pack`: own fields, extra bytes, then the vector. */
  function Pack(d: Desc): seq<byte>
    requires Shaped(d)
  {
    Header(d.kind, d.fields) + d.extra + (d.bytes + PackAll(d.children))
  }

  function PackAll(ds: seq<Desc>): seq<byte>
    requires forall d :: d in ds ==> Shaped(d)
  {
    if ds == [] then [] else Pack(ds[0]) + PackAll(ds[1..])
  }

  // ----------------------------------------------------- a chain of descriptors

  /** Stepping from descriptor to descriptor by the length in the first byte. */
  function Chain(bs: seq<byte>): Option<seq<seq<byte>>>
    decreases |bs|
  {
    if bs == [] then Some([])
    else if !(2 <= bs[0] <= |bs|) then None
    else
      match Chain(bs[bs[0]..])
      case None => None
      case Some(rest) => Some([bs[..bs[0]]] + rest)
  }

  lemma {:induction false} ChainAppend(a: seq<byte>, b: seq<byte>)
    requires Chain(a).Some? && Chain(b).Some?
    ensures Chain(a + b) == Some(Chain(a).value + Chain(b).value)
    decreases |a|
  {
    if a == [] {
      assert a + b == b && Chain(a).value + Chain(b).value == Chain(b).value;
    } else {
      var n := a[0] as nat;
      assert (a + b)[..n] == a[..n] && (a + b)[n..] == a[n..] + b;
      ChainAppend(a[n..], b);
      assert [a[..n]] + (Chain(a[n..]).value + Chain(b).value) == Chain(a).value + Chain(b).value;
    }
  }

  /** Every node states its own length, and extra bytes are descriptors themselves. */
  ghost predicate Honest(d: Desc) {
    && WellFormed(d)
    && (d.kind != UsbInterface ==> d.fields[0] == Sum(WireWidths(d.kind, d.fields)) + |d.bytes|)
    && Chain(d.extra).Some?
    && forall c :: c in d.children ==> Honest(c)
  }

  /** A descriptor per node, its extras behind it, then those of its children. */
  ghost function Chunks(d: Desc): seq<seq<byte>>
    requires Honest(d)
  {
    (if d.kind == UsbInterface then [] else [Header(d.kind, d.fields) + d.bytes])
    + Chain(d.extra).value + ChunksOfAll(d.children)
  }

  ghost function ChunksOfAll(ds: seq<Desc>): seq<seq<byte>>
    requires forall d :: d in ds ==> Honest(d)
  {
    if ds == [] then [] else Chunks(ds[0]) + ChunksOfAll(ds[1..])
  }

  /** The stated lengths, added up over the tree. */
  function Total(d: Desc): nat
    requires Shaped(d)
  {
    (if d.kind == UsbInterface || |d.fields| == 0 then 0 else d.fields[0]) + |d.extra| + TotalOfAll(d.children)
  }

  function TotalOfAll(ds: seq<Desc>): nat
    requires forall d :: d in ds ==> Shaped(d)
  {
    if ds == [] then 0 else Total(ds[0]) + TotalOfAll(ds[1..])
  }

  lemma {:induction false} WellFormedIsShaped(d: Desc)
    requires WellFormed(d)
    ensures Shaped(d)
    decreases d
  {
    forall c | c in d.children ensures Shaped(c) { WellFormedIsShaped(c); }
  }

  lemma HeaderSize(k: Kind, fs: seq<nat>)
    requires |fs| == |Widths(k)|
    ensures |Header(k, fs)| == Sum(WireWidths(k, fs))
  {
    PackFieldsSize(WireWidths(k, fs), fs[..|WireWidths(k, fs)|]);
  }

  lemma {:induction false} SumAtLeast(ws: seq<nat>)
    requires forall i :: 0 <= i < |ws| ==> ws[i] >= 1
    ensures Sum(ws) >= |ws|
  {
    if ws != [] { SumAtLeast(ws[1..]); }
  }

  /** An endpoint takes nine bytes if it states nine, and seven otherwise. */
  lemma EndpointSizes(fs: seq<nat>)
    requires |fs| == |Widths(Endpoint)|
    ensures |Header(Endpoint, fs)| == if fs[0] == AUDIO_ENDPOINT_LENGTH then 9 else 7
  {
    HeaderSize(Endpoint, fs);
    var six: seq<nat> := [1, 1, 1, 1, 2, 1];
    assert Widths(Endpoint)[..6] == six && Widths(Endpoint) == six + [1, 1];
    SumAppend(six, [1, 1]);
    SumAppend([1, 1, 1], [1, 2, 1]);
    assert [1, 1, 1] + [1, 2, 1] == six;
    assert Sum([1, 1]) == 1 + Sum([1]) && Sum([1, 1, 1]) == 1 + Sum([1, 1]);
    assert Sum([2, 1]) == 2 + Sum([1]) && Sum([1, 2, 1]) == 1 + Sum([2, 1]);
  }

  lemma {:induction false} SumAppend(a: seq<nat>, b: seq<nat>)
    ensures Sum(a + b) == Sum(a) + Sum(b)
  {
    if a == [] {
      assert a + b == b;
    } else {
      assert (a + b)[0] == a[0] && (a + b)[1..] == a[1..] + b;
      SumAppend(a[1..], b);
    }
  }

  /** The first byte of a header is the length it states. */
  lemma HeaderStart(d: Desc)
    requires WellFormed(d) && d.kind != UsbInterface
    ensures |Header(d.kind, d.fields)| >= 3 && Header(d.kind, d.fields)[0] == d.fields[0]
  {
    HeaderSize(d.kind, d.fields);
    var ws := WireWidths(d.kind, d.fields);
    SumAtLeast(ws);
    assert ws[0] == 1 && d.fields[0] < Pow256(Widths(d.kind)[0]) == 256 * Pow256(0);
    assert LittleEndian(1, d.fields[0]) == [d.fields[0]];
  }

  lemma OwnChunk(d: Desc)
    requires Honest(d) && d.kind != UsbInterface
    ensures Chain(Header(d.kind, d.fields) + d.bytes) == Some([Header(d.kind, d.fields) + d.bytes])
  {
    var own := Header(d.kind, d.fields) + d.bytes;
    HeaderStart(d);
    HeaderSize(d.kind, d.fields);
    assert own[0] == |own|;
    assert own[..|own|] == own && own[|own|..] == [] && [own] + [] == [own];
  }

  /** What the packer of the tree produces is a chain of descriptors: stepping by
      length visits exactly its nodes' descriptors and their extras, lands on the end,
      and the total is the sum of the lengths stated. */
  lemma {:induction false} PackIsChain(d: Desc)
    requires Honest(d)
    ensures Shaped(d) && Chain(Pack(d)) == Some(Chunks(d)) && |Pack(d)| == Total(d)
    decreases d
  {
    hide Chain, Header, WellFormed, WireWidths;
    WellFormedIsShaped(d);
    PackAllIsChain(d.children);
    PackParts(d);
    ChainOfParts(d);
  }

  /** Only a node without extra bytes has plain bytes. */
  lemma PackParts(d: Desc)
    requires WellFormed(d) && Shaped(d)
    ensures Pack(d) == Header(d.kind, d.fields) + d.bytes + (d.extra + PackAll(d.children))
  {
    assert d.bytes == [] || d.extra == [];
  }

  lemma ChainOfParts(d: Desc)
    requires Honest(d) && Shaped(d) && Chain(PackAll(d.children)) == Some(ChunksOfAll(d.children))
    requires |PackAll(d.children)| == TotalOfAll(d.children)
    ensures Chain(Header(d.kind, d.fields) + d.bytes + (d.extra + PackAll(d.children))) == Some(Chunks(d))
    ensures |Header(d.kind, d.fields) + d.bytes + (d.extra + PackAll(d.children))| == Total(d)
  {
    hide Chain, PackAll, ChunksOfAll, TotalOfAll, WellFormed;
    var own := Header(d.kind, d.fields) + d.bytes;
    ChainAppend(d.extra, PackAll(d.children));
    if d.kind == UsbInterface {
      NoOwnChunk(d);
      assert own + (d.extra + PackAll(d.children)) == d.extra + PackAll(d.children);
      assert Chunks(d) == Chain(d.extra).value + ChunksOfAll(d.children);
    } else {
      OwnChunk(d);
      OwnSize(d);
      ChainAppend(own, d.extra + PackAll(d.children));
      assert Chunks(d) == [own] + (Chain(d.extra).value + ChunksOfAll(d.children));
    }
  }

  lemma NoOwnChunk(d: Desc)
    requires Honest(d) && d.kind == UsbInterface
    ensures Header(d.kind, d.fields) + d.bytes == []
  {
    HeaderSize(d.kind, d.fields);
  }

  lemma OwnSize(d: Desc)
    requires Honest(d) && d.kind != UsbInterface
    ensures |d.fields| > 0 && |Header(d.kind, d.fields) + d.bytes| == d.fields[0]
  {
    HeaderSize(d.kind, d.fields);
  }

  lemma {:induction false} PackAllIsChain(ds: seq<Desc>)
    requires forall d :: d in ds ==> Honest(d)
    ensures forall d :: d in ds ==> Shaped(d)
    ensures Chain(PackAll(ds)) == Some(ChunksOfAll(ds)) && |PackAll(ds)| == TotalOfAll(ds)
    decreases ds
  {
    hide Honest, Shaped, Pack, Total;
    forall d | d in ds ensures Shaped(d) { HonestIsShaped(d); }
    if ds != [] {
      PackIsChain(ds[0]);
      PackAllIsChain(ds[1..]);
      ChainAppend(Pack(ds[0]), PackAll(ds[1..]));
    }
  }

  lemma HonestIsShaped(d: Desc)
    requires Honest(d)
    ensures Shaped(d)
  {
    WellFormedIsShaped(d);
  }

  /** A configuration whose wTotalLength is the sum of its descriptors tells the host
      the true number of bytes: the two bytes after type and length decode to it. */
  lemma TotalLengthIsTrue(d: Desc)
    requires Honest(d) && d.kind in {Config, Bos} && Shaped(d) && d.fields[2] == Total(d)
    ensures |Pack(d)| >= 4 && FromLittleEndian(Pack(d)[2..4]) == |Pack(d)|
  {
    hide Chain, Chunks, Total, Honest, Header;
    PackIsChain(d);
    TotalLengthField(d);
    SliceOfPrefix(Header(d.kind, d.fields), d.extra + (d.bytes + PackAll(d.children)));
    assert Pack(d) == Header(d.kind, d.fields) + (d.extra + (d.bytes + PackAll(d.children)));
  }

  lemma SliceOfPrefix(a: seq<byte>, b: seq<byte>)
    requires |a| >= 4
    ensures (a + b)[2..4] == a[2..4]
  {
  }

  lemma TotalLengthField(d: Desc)
    requires Honest(d) && d.kind in {Config, Bos}
    ensures |Header(d.kind, d.fields)| >= 4 && FromLittleEndian(Header(d.kind, d.fields)[2..4]) == d.fields[2]
  {
    var ws, fs := Widths(d.kind), d.fields;
    HeaderSize(d.kind, fs);
    SumAtLeast(ws);
    assert fs[..|ws|] == fs;
    var tail := PackFields(ws[3..], fs[3..]);
    assert ws[1..][1..] == ws[2..] && fs[1..][1..] == fs[2..] && ws[2..][1..] == ws[3..] && fs[2..][1..] == fs[3..];
    assert PackFields(ws[2..], fs[2..]) == LittleEndian(2, fs[2]) + tail;
    assert PackFields(ws[1..], fs[1..]) == LittleEndian(1, fs[1]) + (LittleEndian(2, fs[2]) + tail);
    assert Header(d.kind, fs) == LittleEndian(1, fs[0]) + (LittleEndian(1, fs[1]) + (LittleEndian(2, fs[2]) + tail));
    assert Header(d.kind, fs)[2..4] == LittleEndian(2, fs[2]);
    assert fs[2] < Pow256(ws[2]);
    LittleEndianRoundTrip(2, fs[2]);
  }

  /** A host that knows the kind of a header gets its fields back. */
  lemma HeaderDecodes(d: Desc)
    requires WellFormed(d)
    ensures var ws := WireWidths(d.kind, d.fields);
      UnpackFields(ws, Header(d.kind, d.fields)) == Some(d.fields[..|ws|])
  {
    var ws := WireWidths(d.kind, d.fields);
    assert InRange(ws, d.fields[..|ws|]);
    UnpackPackFields(ws, d.fields[..|ws|]);
  }
}
