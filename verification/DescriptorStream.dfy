/** The loops of `stream_out` and `stream_in` (usb_descriptors_impl.cpp) over a text
    stream. */
module DescriptorStream {
  import opened Prelude
  import opened Text
  import opened Descriptors

  // ------------------------------------------------------------- the node loops

  lemma RenderNothing()
    ensures Render([]) == ""
  {
  }

  method StreamOutNumbers(output: Stream, ns: seq<nat>)
    modifies output
    ensures output.text == old(output.text) + Render(OutNumbers(ns))
  {
    for i := 0 to |ns|
      invariant output.text + Render(OutNumbers(ns[i..])) == old(output.text) + Render(OutNumbers(ns))
    {
      assert ns[i..][1..] == ns[i + 1..];
      RenderAppend([Decimal(ns[i])], OutNumbers(ns[i + 1..]));
      output.Out(ns[i]);
    }
  }

  method StreamOutList(output: Stream, bs: seq<byte>)
    modifies output
    ensures output.text == old(output.text) + Render(OutList(bs))
  {
    output.Out(|bs|);
    StreamOutNumbers(output, bs);
    RenderAppend([Decimal(|bs|)], OutNumbers(bs));
  }

  method StreamOutChildren(output: Stream, d: Desc)
    modifies output
    ensures output.text == old(output.text) + Render([Decimal(|d.children|)] + OutAll(d.children))
    decreases d, 0
  {
    hide Decimal, Out, Render;
    RenderNothing();
    output.Out(|d.children|);
    RenderAppend([Decimal(|d.children|)], OutAll(d.children));
    ghost var before := output.text;
    for i := 0 to |d.children|
      invariant output.text + Render(OutAll(d.children[i..])) == before + Render(OutAll(d.children))
    {
      assert d.children[i..][1..] == d.children[i + 1..];
      RenderAppend(Out(d.children[i]), OutAll(d.children[i + 1..]));
      StreamOut(output, d.children[i]);
    }
    assert d.children[|d.children|..] == [] && output.text + "" == output.text;
    assert before + Render(OutAll(d.children))
        == old(output.text) + (Render([Decimal(|d.children|)]) + Render(OutAll(d.children)));
  }

  method StreamOut(output: Stream, d: Desc)
    modifies output
    ensures output.text == old(output.text) + Render(Out(d))
    decreases d
  {
    hide Render, OutAll, OutNumbers, OutList;
    ghost var k := d.kind;
    ghost var middle := if ChildKind(k).Some? then [Decimal(|d.children|)] + OutAll(d.children)
                        else if HasBytes(k) then OutList(d.bytes) else [];
    ghost var last := if HasExtra(k) then OutList(d.extra) else [];
    RenderAppend(OutNumbers(d.fields), middle);
    RenderAppend(OutNumbers(d.fields) + middle, last);
    RenderNothing();
    StreamOutNumbers(output, d.fields);
    if ChildKind(d.kind).Some? {
      StreamOutChildren(output, d);
    } else if HasBytes(d.kind) {
      StreamOutList(output, d.bytes);
    }
    if HasExtra(d.kind) {
      StreamOutList(output, d.extra);
    }
  }

  method StreamInFields(input: Stream, ws: seq<nat>) returns (r: Result<seq<nat>>)
    requires forall i :: 0 <= i < |ws| ==> ws[i] in {1, 2}
    modifies input
    ensures match InFields(ws, old(input.Left()))
            case Ok((fs, rest)) => r == Ok(fs) && input.Left() == rest
            case Err(e) => r == Err(e)
  {
    var fs := [];
    ghost var all := input.Left();
    assert ws[0..] == ws;
    BehindNothing(InFields(ws, all));
    for i := 0 to |ws|
      invariant |fs| == i
      invariant InFields(ws, all) == Behind(fs, InFields(ws[i..], input.Left()))
    {
      assert ws[i..][1..] == ws[i + 1..];
      var v := input.ReadField(ws[i]);
      if v.Err? { return Err(v.error); }
      BehindOne(fs, v.value, InFields(ws[i + 1..], input.Left()));
      fs := fs + [v.value];
    }
    r := Ok(fs);
    assert fs + [] == fs;
  }

  /** A partial result, and the result of reading on. */
  ghost function Behind<T>(before: seq<T>, r: Result<(seq<T>, seq<string>)>): Result<(seq<T>, seq<string>)> {
    match r
    case Ok((after, rest)) => Ok((before + after, rest))
    case Err(e) => Err(e)
  }

  lemma BehindNothing<T>(r: Result<(seq<T>, seq<string>)>)
    ensures Behind([], r) == r
  {
    if r.Ok? { assert [] + r.value.0 == r.value.0; }
  }

  lemma BehindOne<T>(before: seq<T>, v: T, r: Result<(seq<T>, seq<string>)>)
    ensures Behind(before, Behind([v], r)) == Behind(before + [v], r)
  {
    if r.Ok? { assert before + ([v] + r.value.0) == before + [v] + r.value.0; }
  }

  method StreamInBytes(input: Stream, n: nat) returns (r: Result<seq<byte>>)
    modifies input
    ensures match InBytes(n, old(input.Left()))
            case Ok((bs, rest)) => r == Ok(bs) && input.Left() == rest
            case Err(e) => r == Err(e)
  {
    var bs: seq<byte> := [];
    ghost var all := input.Left();
    BehindNothing(InBytes(n, all));
    for i := 0 to n
      invariant InBytes(n, all) == Behind(bs, InBytes(n - i, input.Left()))
    {
      var v := input.ReadField(1);
      if v.Err? { return Err(v.error); }
      BehindOne(bs, v.value % 256, InBytes(n - i - 1, input.Left()));
      bs := bs + [v.value % 256];
    }
    r := Ok(bs);
    assert bs + [] == bs;
  }

  method StreamInList(input: Stream) returns (r: Result<seq<byte>>)
    modifies input
    ensures match InList(old(input.Left()))
            case Ok((bs, rest)) => r == Ok(bs) && input.Left() == rest
            case Err(e) => r == Err(e)
  {
    var n := input.ReadSize();
    if n.Err? { return Err(n.error); }
    r := StreamInBytes(input, n.value);
  }

  method StreamIn(input: Stream, k: Kind) returns (r: Result<Desc>)
    modifies input
    ensures match In(k, old(input.Left()))
            case Ok((d, rest)) => r == Ok(d) && input.Left() == rest
            case Err(e) => r == Err(e)
    decreases Level(k), 0
  {
    hide InFields, InList, InAll;
    var fields := StreamInFields(input, Widths(k));
    if fields.Err? { return Err(fields.error); }
    var children := StreamInChildren(input, k);
    if children.Err? { return Err(children.error); }
    var bytes: Result<seq<byte>> := Ok([]);
    if HasBytes(k) { bytes := StreamInList(input); }
    if bytes.Err? { return Err(bytes.error); }
    var extra: Result<seq<byte>> := Ok([]);
    if HasExtra(k) { extra := StreamInList(input); }
    if extra.Err? { return Err(extra.error); }
    r := Ok(Desc(k, fields.value, children.value, bytes.value, extra.value));
  }

  method StreamInChildren(input: Stream, k: Kind) returns (r: Result<seq<Desc>>)
    modifies input
    ensures match InChildren(k, old(input.Left()))
            case Ok((ds, rest)) => r == Ok(ds) && input.Left() == rest
            case Err(e) => r == Err(e)
    decreases Level(k), 0, 0
  {
    hide In;
    var child := ChildKind(k);
    if child == None { return Ok([]); }
    var n := input.ReadSize();
    if n.Err? { return Err(n.error); }
    var ds := [];
    ghost var all := input.Left();
    BehindNothing(InAll(child.value, n.value, all));
    for i := 0 to n.value
      invariant InAll(child.value, n.value, all) == Behind(ds, InAll(child.value, n.value - i, input.Left()))
    {
      var d := StreamIn(input, child.value);
      if d.Err? { return Err(d.error); }
      BehindOne(ds, d.value, InAll(child.value, n.value - i - 1, input.Left()));
      ds := ds + [d.value];
    }
    r := Ok(ds);
    assert ds + [] == ds;
  }
}
