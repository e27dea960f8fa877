/** The two files of a recording (recording_proxy.cpp, playback_device.cpp): lines that
    describe records, and a payload file that they point into. Both only ever grow. */
module RecordLog {
  import opened Prelude
  import opened Text

  // ------------------------------------------------------------------------- lines

  predicate OneLine(s: string) { forall i :: 0 <= i < |s| ==> s[i] != '\n' }

  function LineEnd(text: string): (n: nat)
    ensures n <= |text| && OneLine(text[..n])
    ensures n < |text| ==> text[n] == '\n'
  {
    if text == "" || text[0] == '\n' then 0 else 1 + LineEnd(text[1..])
  }

  /** What `getline` yields, one after the other. */
  function Lines(text: string): seq<string>
    decreases |text|
  {
    if text == "" then []
    else
      var n := LineEnd(text);
      [text[..n]] + if n == |text| then [] else Lines(text[n + 1..])
  }

  predicate Complete(text: string) { text == "" || text[|text| - 1] == '\n' }

  lemma {:induction false} LineEndOf(line: string, rest: string)
    requires OneLine(line)
    ensures LineEnd(line + "\n" + rest) == |line|
  {
    var text := line + "\n" + rest;
    if line != "" {
      assert text[1..] == line[1..] + "\n" + rest;
      LineEndOf(line[1..], rest);
    }
  }

  lemma LinesFirst(line: string, rest: string)
    requires OneLine(line)
    ensures Lines(line + "\n" + rest) == [line] + Lines(rest)
  {
    hide LineEnd, OneLine;
    var text := line + "\n" + rest;
    LineEndOf(line, rest);
    assert text[..|line|] == line && text[|line| + 1..] == rest;
  }

  /** A line written at the end of complete lines is read behind them. */
  lemma {:induction false} LinesAppend(text: string, line: string)
    requires Complete(text) && OneLine(line)
    ensures Lines(text + line + "\n") == Lines(text) + [line] && Complete(text + line + "\n")
    decreases |text|
  {
    hide Lines, LineEnd, OneLine;
    if text == "" {
      LinesFirst(line, "");
      assert text + line + "\n" == line + "\n" + "";
      NoLines();
    } else {
      var n := LineEnd(text);
      LastIsEnd(text);
      var first, rest := text[..n], text[n + 1..];
      assert text == first + "\n" + rest && text + line + "\n" == first + "\n" + (rest + line + "\n");
      LinesFirst(first, rest);
      LinesFirst(first, rest + line + "\n");
      LinesAppend(rest, line);
      assert [first] + (Lines(rest) + [line]) == Lines(text) + [line];
    }
  }

  lemma NoLines()
    ensures Lines("") == []
  {
  }

  lemma {:induction false} LastIsEnd(text: string)
    requires text != "" && text[|text| - 1] == '\n'
    ensures LineEnd(text) < |text|
  {
    if |text| > 1 { LastIsEnd(text[1..]); }
  }

  // ------------------------------------------------- reading a line with expressions

  function AfterBlanks(t: string): string { t[RunLength(t, true)..] }

  /** Blanks, then these characters. */
  function Expect(t: string, literal: string): Result<string> {
    var u := AfterBlanks(t);
    if literal <= u then Ok(u[|literal|..]) else Err(Malformed)
  }

  function Key(t: string, name: string): Result<string> {
    var u :- Expect(t, name);
    Expect(u, ":")
  }

  function DigitCount(t: string): (n: nat)
    ensures n <= |t|
  {
    if t == "" || !IsDigit(t[0]) then 0 else 1 + DigitCount(t[1..])
  }

  function Number(t: string): Result<(nat, string)> {
    var u := AfterBlanks(t);
    var v :- ParseNat(u[..DigitCount(u)]);
    Ok((v, u[DigitCount(u)..]))
  }

  function NumberOrNA(t: string): Result<(Option<nat>, string)> {
    var na := Expect(t, "\"NA\"");
    if na.Ok? then Ok((None, na.value))
    else
      var (v, u) :- Number(t);
      Ok((Some(v), u))
  }

  function HexCount(t: string): (n: nat)
    ensures n <= |t| && forall i :: 0 <= i < n ==> IsHex(t[i])
  {
    if t == "" || !IsHex(t[0]) then 0 else 1 + HexCount(t[1..])
  }

  function ParseHex(s: string): nat
    requires forall i :: 0 <= i < |s| ==> IsHex(s[i])
  {
    if s == "" then 0 else 16 * ParseHex(s[..|s| - 1]) + HexValue(s[|s| - 1])
  }

  /** One or more hexadecimal digits and the quote behind them, without blanks. */
  function Hex(t: string): Result<(nat, string)> {
    var n := HexCount(t);
    if n == 0 || n == |t| || t[n] != '"' then Err(Malformed) else Ok((ParseHex(t[..n]), t[n + 1..]))
  }

  // ----------------------------------------------------- printing what will be read

  function Member(name: string, value: string, rest: string): string { name + (":" + (value + rest)) }

  function HexByte(b: byte): string { [HexDigit(b / 16), HexDigit(b % 16)] }

  lemma ExpectIs(literal: string, rest: string)
    requires literal != "" && !IsSpace(literal[0])
    ensures Expect(literal + rest, literal) == Ok(rest)
  {
    RunLengthOf(literal + rest, true, 0);
    assert (literal + rest)[0..] == literal + rest;
  }

  /** Blanks before a word or a number are skipped. */
  lemma BehindBlank(b: char, t: string, literal: string)
    requires IsSpace(b)
    ensures Expect([b] + t, literal) == Expect(t, literal) && Number([b] + t) == Number(t)
  {
    hide ParseNat;
    assert ([b] + t)[1..] == t;
    assert AfterBlanks([b] + t) == AfterBlanks(t);
  }

  lemma KeyIs(name: string, value: string, rest: string)
    requires name != "" && !IsSpace(name[0])
    ensures Key(Member(name, value, rest), name) == Ok(value + rest)
  {
    ExpectIs(name, ":" + (value + rest));
    ExpectIs(":", value + rest);
  }

  lemma {:induction false} DigitCountOf(s: string, rest: string)
    requires (forall i :: 0 <= i < |s| ==> IsDigit(s[i])) && (rest != "" ==> !IsDigit(rest[0]))
    ensures DigitCount(s + rest) == |s|
  {
    if s == "" {
      assert s + rest == rest;
    } else {
      assert (s + rest)[1..] == s[1..] + rest;
      DigitCountOf(s[1..], rest);
    }
  }

  lemma NumberIs(n: nat, rest: string)
    requires rest != "" ==> !IsDigit(rest[0])
    ensures Number(Decimal(n) + rest) == Ok((n, rest))
  {
    hide Decimal, ParseNat;
    var s := Decimal(n);
    assert IsDigit(s[0]) by { assert s[0] in s; }
    RunLengthOf(s + rest, true, 0);
    assert (s + rest)[0..] == s + rest;
    forall i | 0 <= i < |s| ensures IsDigit(s[i]) { assert s[i] in s; }
    DigitCountOf(s, rest);
    assert (s + rest)[..|s|] == s && (s + rest)[|s|..] == rest;
    ParseDecimal(n);
  }

  lemma NumberOrNAIs(v: Option<nat>, rest: string)
    requires rest != "" ==> !IsDigit(rest[0])
    ensures NumberOrNA((if v == None then "\"NA\"" else Decimal(v.value)) + rest) == Ok((v, rest))
  {
    hide Decimal;
    if v == None {
      ExpectIs("\"NA\"", rest);
    } else {
      var s := Decimal(v.value);
      assert IsDigit(s[0]) by { assert s[0] in s; }
      RunLengthOf(s + rest, true, 0);
      assert AfterBlanks(s + rest) == s + rest;
      NumberIs(v.value, rest);
    }
  }

  lemma HexIs(b: byte, rest: string)
    ensures Hex(HexByte(b) + ("\"" + rest)) == Ok((b as nat, rest))
  {
    var t := HexByte(b) + ("\"" + rest);
    assert t[0] == HexDigit(b / 16) && t[1] == HexDigit(b % 16) && t[2] == '"';
    assert t[1..][1..] == t[2..] && HexCount(t[2..]) == 0 && HexCount(t[1..]) == 1 && HexCount(t) == 2;
    assert t[..2][..1] == [t[0]] && t[..2][1] == t[1] && [t[0]][..0] == "";
    assert ParseHex([t[0]]) == b / 16;
    assert t[3..] == rest;
  }

  lemma DecimalIsOneLine(n: nat)
    ensures OneLine(Decimal(n))
  {
    hide Decimal;
    forall i | 0 <= i < |Decimal(n)| ensures Decimal(n)[i] != '\n' { assert Decimal(n)[i] in Decimal(n); }
  }

  lemma MemberIsOneLine(name: string, value: string, rest: string)
    requires OneLine(name) && OneLine(value) && OneLine(rest)
    ensures OneLine(Member(name, value, rest))
  {
  }

  // ------------------------------------------------------------------- the payload

  /** Reading n bytes at an offset, or nothing at all. */
  function ReadAt(payload: seq<byte>, offset: nat, n: nat): (r: seq<byte>)
    ensures |r| in {0, n}
  {
    if n != 0 && offset + n <= |payload| then payload[offset..offset + n] else []
  }

  lemma ReadAtGrows(payload: seq<byte>, more: seq<byte>, offset: nat, n: nat)
    requires n == 0 || offset + n <= |payload|
    ensures ReadAt(payload + more, offset, n) == ReadAt(payload, offset, n)
  {
  }

  lemma ReadAtWritten(before: seq<byte>, data: seq<byte>, after: seq<byte>)
    ensures ReadAt(before + data + after, |before|, |data|) == data
  {
  }

  datatype Log = Log(text: string, payload: seq<byte>)
}
