/** `tree::save` and `tree::load` (usb_descriptors_impl.cpp): a whole device, to the
    text of a configuration file and back. */
module Tree {
  import opened Prelude
  import opened Text
  import opened Descriptors
  import opened DescriptorStream

  type Strings = map<u16, seq<seq<byte>>>

  /** The widths of libusb_device_descriptor. */
  const DEVICE_WIDTHS: seq<nat> := [1, 1, 2, 1, 1, 1, 1, 2, 2, 2, 1, 1, 1, 1]

  datatype Tree = Tree(device: seq<nat>, config: Desc, strings: Strings, report: seq<byte>, bos: Desc) {
    ghost predicate Valid() {
      && InRange(DEVICE_WIDTHS, device)
      && config.kind == Config && WellFormed(config)
      && bos.kind == Bos && WellFormed(bos)
      && |report| < TWO_64
      && forall l :: l in strings ==> ValidVectors(strings[l])
    }
  }

  ghost predicate ValidVectors(vs: seq<seq<byte>>) {
    |vs| < TWO_64 && forall i :: 0 <= i < |vs| ==> |vs[i]| < TWO_64
  }

  // ------------------------------------------------------------ the map, in order

  ghost function Above(s: set<u16>, k: nat): set<u16> { set l | l in s && l >= k }

  /** Iterating a std::map: its keys from k on, ascending. */
  function KeysFrom(s: set<u16>, k: nat): (ks: seq<u16>)
    requires k <= TWO_16
    ensures forall l :: l in ks <==> l in s && l >= k
    decreases TWO_16 - k
  {
    if k == TWO_16 then [] else (if k in s then [k] else []) + KeysFrom(s, k + 1)
  }

  predicate Ascending(ks: seq<u16>) { forall i, j :: 0 <= i < j < |ks| ==> ks[i] < ks[j] }

  lemma {:induction false} KeysAscend(s: set<u16>, k: nat)
    requires k <= TWO_16
    ensures Ascending(KeysFrom(s, k))
    decreases TWO_16 - k
  {
    if k < TWO_16 {
      var rest := KeysFrom(s, k + 1);
      KeysAscend(s, k + 1);
      forall j | 0 <= j < |rest| ensures k < rest[j] { assert rest[j] in rest; }
    }
  }

  lemma {:induction false} KeysCount(s: set<u16>, k: nat)
    requires k <= TWO_16
    ensures |KeysFrom(s, k)| == |Above(s, k)| <= TWO_16 - k
    decreases TWO_16 - k
  {
    if k == TWO_16 {
      assert Above(s, k) == {};
    } else {
      KeysCount(s, k + 1);
      if k in s {
        assert Above(s, k) == Above(s, k + 1) + {k};
      } else {
        assert Above(s, k) == Above(s, k + 1);
      }
    }
  }

  function SortedKeys(m: Strings): (ks: seq<u16>)
    ensures forall l :: l in ks <==> l in m
  {
    KeysFrom(m.Keys, 0)
  }

  lemma SortedKeysAre(m: Strings)
    ensures |SortedKeys(m)| == |m| <= TWO_16 && Ascending(SortedKeys(m))
  {
    KeysCount(m.Keys, 0);
    KeysAscend(m.Keys, 0);
    assert Above(m.Keys, 0) == m.Keys;
  }

  // ------------------------------------------------------------------- printing

  function OutLists(vs: seq<seq<byte>>): seq<string> {
    if vs == [] then [] else OutList(vs[0]) + OutLists(vs[1..])
  }

  function OutVectors(vs: seq<seq<byte>>): seq<string> { [Decimal(|vs|)] + OutLists(vs) }

  function OutLanguages(m: Strings, ks: seq<u16>): seq<string>
    requires forall i :: 0 <= i < |ks| ==> ks[i] in m
  {
    if ks == [] then [] else [Decimal(ks[0])] + OutVectors(m[ks[0]]) + OutLanguages(m, ks[1..])
  }

  function OutStrings(m: Strings): seq<string> { [Decimal(|m|)] + OutLanguages(m, SortedKeys(m)) }

  function OutTree(t: Tree): seq<string> {
    OutNumbers(t.device) + (Out(t.config) + (OutStrings(t.strings) + (OutList(t.report) + Out(t.bos))))
  }

  function Save(t: Tree): string { Render(OutTree(t)) }

  // -------------------------------------------------------------------- reading

  function InLists(n: nat, ts: seq<string>): Result<(seq<seq<byte>>, seq<string>)> {
    if n == 0 then Ok(([], ts))
    else
      var (v, ts1) :- InList(ts);
      var (vs, ts2) :- InLists(n - 1, ts1);
      Ok(([v] + vs, ts2))
  }

  function InVectors(ts: seq<string>): Result<(seq<seq<byte>>, seq<string>)> {
    var (n, ts1) :- InSize(ts);
    InLists(n, ts1)
  }

  /** `insert` keeps what is there. */
  function Insert(m: Strings, l: u16, vs: seq<seq<byte>>): Strings { if l in m then m else m[l := vs] }

  function InLanguages(n: nat, m: Strings, ts: seq<string>): Result<(Strings, seq<string>)> {
    if n == 0 then Ok((m, ts))
    else
      var (l, ts1) :- InField(2, ts);
      var (vs, ts2) :- InVectors(ts1);
      InLanguages(n - 1, Insert(m, l % TWO_16, vs), ts2)
  }

  function InStrings(ts: seq<string>): Result<(Strings, seq<string>)> {
    var (n, ts1) :- InSize(ts);
    InLanguages(n, map[], ts1)
  }

  /** The tree, and the tokens nobody read. */
  function InTree(ts: seq<string>): Result<(Tree, seq<string>)> {
    var (device, ts1) :- InFields(DEVICE_WIDTHS, ts);
    var (config, ts2) :- In(Config, ts1);
    var (strings, ts3) :- InStrings(ts2);
    var (report, ts4) :- InList(ts3);
    var (bos, ts5) :- In(Bos, ts4);
    Ok((Tree(device, config, strings, report, bos), ts5))
  }

  function Load(text: string): Result<Tree> {
    var (t, _) :- InTree(Tokens(text));
    Ok(t)
  }

  // ----------------------------------------------------------------- round trip

  lemma {:induction false} InOutLists(vs: seq<seq<byte>>, rest: seq<string>)
    requires forall i :: 0 <= i < |vs| ==> |vs[i]| < TWO_64
    ensures InLists(|vs|, OutLists(vs) + rest) == Ok((vs, rest))
  {
    hide InList, OutList;
    if vs == [] {
      assert OutLists(vs) + rest == rest;
    } else {
      var tail := OutLists(vs[1..]) + rest;
      assert OutLists(vs) + rest == OutList(vs[0]) + tail;
      InOutList(vs[0], tail);
      InOutLists(vs[1..], rest);
      assert [vs[0]] + vs[1..] == vs;
    }
  }

  lemma InOutVectors(vs: seq<seq<byte>>, rest: seq<string>)
    requires ValidVectors(vs)
    ensures InVectors(OutVectors(vs) + rest) == Ok((vs, rest))
  {
    hide InLists, OutLists, InSize, Decimal;
    assert OutVectors(vs) + rest == [Decimal(|vs|)] + (OutLists(vs) + rest);
    InSizeDecimal(|vs|, OutLists(vs) + rest);
    InOutLists(vs, rest);
  }

  /** What has been read, and the entries of ks. */
  function InsertAll(acc: Strings, m: Strings, ks: seq<u16>): Strings
    requires forall i :: 0 <= i < |ks| ==> ks[i] in m
    decreases |ks|
  {
    if ks == [] then acc else InsertAll(Insert(acc, ks[0], m[ks[0]]), m, ks[1..])
  }

  lemma {:induction false} InOutLanguages(m: Strings, ks: seq<u16>, acc: Strings, rest: seq<string>)
    requires forall i :: 0 <= i < |ks| ==> ks[i] in m && ValidVectors(m[ks[i]])
    ensures InLanguages(|ks|, acc, OutLanguages(m, ks) + rest) == Ok((InsertAll(acc, m, ks), rest))
    decreases |ks|
  {
    hide InVectors, OutVectors, InField, Decimal, ValidVectors, Insert;
    if ks == [] {
      assert OutLanguages(m, ks) + rest == rest;
    } else {
      var l, tail := ks[0], OutLanguages(m, ks[1..]) + rest;
      assert OutLanguages(m, ks) + rest == [Decimal(l)] + (OutVectors(m[l]) + tail);
      SmallPowers();
      InFieldDecimal(2, l, OutVectors(m[l]) + tail);
      InOutVectors(m[l], tail);
      InOutLanguages(m, ks[1..], Insert(acc, l, m[l]), rest);
    }
  }

  lemma {:induction false} InsertAllIs(acc: Strings, m: Strings, ks: seq<u16>)
    requires forall i :: 0 <= i < |ks| ==> ks[i] in m
    requires forall l :: l in acc ==> l in m && acc[l] == m[l]
    ensures var r := InsertAll(acc, m, ks);
      && (forall l :: l in r <==> l in acc || l in ks)
      && (forall l :: l in r ==> l in m && r[l] == m[l])
    decreases |ks|
  {
    if ks != [] { InsertAllIs(Insert(acc, ks[0], m[ks[0]]), m, ks[1..]); }
  }

  /** Maps survive: the keys come out in order and go in again one by one. */
  lemma InOutStrings(m: Strings, rest: seq<string>)
    requires forall l :: l in m ==> ValidVectors(m[l])
    ensures InStrings(OutStrings(m) + rest) == Ok((m, rest))
  {
    hide InLanguages, OutLanguages, InSize, Decimal, ValidVectors, InsertAll, SortedKeys;
    var ks := SortedKeys(m);
    SortedKeysAre(m);
    assert OutStrings(m) + rest == [Decimal(|m|)] + (OutLanguages(m, ks) + rest);
    InSizeDecimal(|m|, OutLanguages(m, ks) + rest);
    forall i | 0 <= i < |ks| ensures ks[i] in m { assert ks[i] in ks; }
    InOutLanguages(m, ks, map[], rest);
    InsertAllIs(map[], m, ks);
    assert InsertAll(map[], m, ks) == m;
  }

  /** Reading what was printed returns the tree and leaves what is behind it. */
  lemma InOutTree(t: Tree, rest: seq<string>)
    requires t.Valid()
    ensures InTree(OutTree(t) + rest) == Ok((t, rest))
  {
    hide InFields, OutNumbers, In, Out, InStrings, OutStrings, InList, OutList, WellFormed;
    var ts4 := Out(t.bos) + rest;
    var ts3 := OutList(t.report) + ts4;
    var ts2 := OutStrings(t.strings) + ts3;
    var ts1 := Out(t.config) + ts2;
    assert OutTree(t) + rest == OutNumbers(t.device) + ts1;
    InOutFields(DEVICE_WIDTHS, t.device, ts1);
    InOut(t.config, ts2);
    InOutStrings(t.strings, ts3);
    InOutList(t.report, ts4);
    InOut(t.bos, rest);
  }

  lemma {:induction false} ListsAreWords(vs: seq<seq<byte>>)
    ensures AllWords(OutLists(vs))
  {
    if vs != [] {
      ListIsWords(vs[0]);
      ListsAreWords(vs[1..]);
    }
  }

  lemma {:induction false} LanguagesAreWords(m: Strings, ks: seq<u16>)
    requires forall i :: 0 <= i < |ks| ==> ks[i] in m
    ensures AllWords(OutLanguages(m, ks))
  {
    hide Decimal, IsWord;
    if ks != [] {
      DecimalIsWord(ks[0]);
      DecimalIsWord(|m[ks[0]]|);
      ListsAreWords(m[ks[0]]);
      LanguagesAreWords(m, ks[1..]);
    }
  }

  lemma TreeIsWords(t: Tree)
    ensures AllWords(OutTree(t))
  {
    hide Decimal, IsWord, OutNumbers, OutList, OutLanguages, SortedKeys, Out;
    NumbersAreWords(t.device);
    OutIsWords(t.config);
    DecimalIsWord(|t.strings|);
    LanguagesAreWords(t.strings, SortedKeys(t.strings));
    ListIsWords(t.report);
    OutIsWords(t.bos);
  }

  /** Saving a device and loading the file gives the same device, down to the text. */
  lemma SaveThenLoad(t: Tree)
    requires t.Valid()
    ensures Load(Save(t)) == Ok(t)
  {
    hide InTree, OutTree, Tokens, Render, AllWords;
    TreeIsWords(t);
    TokensOfRender(OutTree(t), "");
    NoTokens();
    assert Render(OutTree(t)) + "" == Render(OutTree(t)) && OutTree(t) + [] == OutTree(t);
    InOutTree(t, []);
  }

  // ------------------------------------------------------------------- the loops

  method StreamOutVectors(output: Stream, vs: seq<seq<byte>>)
    modifies output
    ensures output.text == old(output.text) + Render(OutVectors(vs))
  {
    hide OutList, Decimal, Render;
    RenderNothing();
    output.Out(|vs|);
    RenderAppend([Decimal(|vs|)], OutLists(vs));
    ghost var before := output.text;
    for i := 0 to |vs|
      invariant output.text + Render(OutLists(vs[i..])) == before + Render(OutLists(vs))
    {
      assert vs[i..][1..] == vs[i + 1..];
      RenderAppend(OutList(vs[i]), OutLists(vs[i + 1..]));
      StreamOutList(output, vs[i]);
    }
    assert vs[|vs|..] == [] && output.text + "" == output.text;
    assert before + Render(OutLists(vs)) == old(output.text) + (Render([Decimal(|vs|)]) + Render(OutLists(vs)));
  }

  method StreamOutStrings(output: Stream, m: Strings)
    modifies output
    ensures output.text == old(output.text) + Render(OutStrings(m))
  {
    hide OutVectors, Decimal, SortedKeys, Render;
    RenderNothing();
    var ks := SortedKeys(m);
    forall i | 0 <= i < |ks| ensures ks[i] in m { assert ks[i] in ks; }
    output.Out(|m|);
    RenderAppend([Decimal(|m|)], OutLanguages(m, ks));
    ghost var before := output.text;
    for i := 0 to |ks|
      invariant output.text + Render(OutLanguages(m, ks[i..])) == before + Render(OutLanguages(m, ks))
    {
      assert ks[i..][1..] == ks[i + 1..];
      RenderAppend([Decimal(ks[i])], OutVectors(m[ks[i]]));
      RenderAppend([Decimal(ks[i])] + OutVectors(m[ks[i]]), OutLanguages(m, ks[i + 1..]));
      output.Out(ks[i]);
      StreamOutVectors(output, m[ks[i]]);
    }
    assert ks[|ks|..] == [] && output.text + "" == output.text;
    assert before + Render(OutLanguages(m, ks))
        == old(output.text) + (Render([Decimal(|m|)]) + Render(OutLanguages(m, ks)));
  }

  /** `tree::save`. */
  method SaveTree(output: Stream, t: Tree)
    requires output.text == ""
    modifies output
    ensures output.text == Save(t)
  {
    hide Render, Out, OutNumbers, OutStrings, OutList;
    var ts4, ts3 := Out(t.bos), OutList(t.report);
    var ts2 := OutStrings(t.strings);
    RenderAppend(ts3, ts4);
    RenderAppend(ts2, ts3 + ts4);
    RenderAppend(Out(t.config), ts2 + (ts3 + ts4));
    RenderAppend(OutNumbers(t.device), Out(t.config) + (ts2 + (ts3 + ts4)));
    StreamOutNumbers(output, t.device);
    StreamOut(output, t.config);
    StreamOutStrings(output, t.strings);
    StreamOutList(output, t.report);
    StreamOut(output, t.bos);
  }

  method StreamInVectors(input: Stream) returns (r: Result<seq<seq<byte>>>)
    modifies input
    ensures match InVectors(old(input.Left()))
            case Ok((vs, rest)) => r == Ok(vs) && input.Left() == rest
            case Err(e) => r == Err(e)
  {
    hide InList;
    var n := input.ReadSize();
    if n.Err? { return Err(n.error); }
    var vs := [];
    ghost var all := input.Left();
    BehindNothing(InLists(n.value, all));
    for i := 0 to n.value
      invariant InLists(n.value, all) == Behind(vs, InLists(n.value - i, input.Left()))
    {
      var v := StreamInList(input);
      if v.Err? { return Err(v.error); }
      BehindOne(vs, v.value, InLists(n.value - i - 1, input.Left()));
      vs := vs + [v.value];
    }
    r := Ok(vs);
    assert vs + [] == vs;
  }

  method StreamInStrings(input: Stream) returns (r: Result<Strings>)
    modifies input
    ensures match InStrings(old(input.Left()))
            case Ok((m, rest)) => r == Ok(m) && input.Left() == rest
            case Err(e) => r == Err(e)
  {
    hide InVectors, InField;
    var n := input.ReadSize();
    if n.Err? { return Err(n.error); }
    var m: Strings := map[];
    ghost var all := input.Left();
    for i := 0 to n.value
      invariant InLanguages(n.value, map[], all) == InLanguages(n.value - i, m, input.Left())
    {
      var l := input.ReadField(2);
      if l.Err? { return Err(l.error); }
      var vs := StreamInVectors(input);
      if vs.Err? { return Err(vs.error); }
      m := Insert(m, l.value % TWO_16, vs.value);
    }
    r := Ok(m);
  }

  /** `tree::load`, into a fresh tree. */
  method LoadTree(input: Stream) returns (r: Result<Tree>)
    modifies input
    ensures r == Load(old(input.text))
  {
    hide InFields, In, InStrings, InList;
    var device := StreamInFields(input, DEVICE_WIDTHS);
    if device.Err? { return Err(device.error); }
    var config := StreamIn(input, Config);
    if config.Err? { return Err(config.error); }
    var strings := StreamInStrings(input);
    if strings.Err? { return Err(strings.error); }
    var report := StreamInList(input);
    if report.Err? { return Err(report.error); }
    var bos := StreamIn(input, Bos);
    if bos.Err? { return Err(bos.error); }
    r := Ok(Tree(device.value, config.value, strings.value, report.value, bos.value));
  }
}
