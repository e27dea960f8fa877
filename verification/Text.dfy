/** The decimal token stream of io.cppm: numbers printed with a space behind each,
    and read back by `operator>>` and `lexical_cast`. */
module Text {
  import opened Prelude

  // --------------------------------------------------------------------- numbers

  predicate IsDigit(c: char) { '0' <= c <= '9' }

  function Digit(n: nat): (c: char)
    requires n < 10
    ensures IsDigit(c) && c == "0123456789"[n]
  {
    '0' + n as char
  }

  function DigitValue(c: char): (n: nat)
    requires IsDigit(c)
    ensures n < 10
  {
    (c - '0') as int
  }

  predicate IsHex(c: char) { IsDigit(c) || 'a' <= c <= 'f' || 'A' <= c <= 'F' }

  function HexValue(c: char): (n: nat)
    requires IsHex(c)
    ensures n < 16
  {
    if IsDigit(c) then (c - '0') as int else if c >= 'a' then (c - 'a') as int + 10 else (c - 'A') as int + 10
  }

  function HexDigit(n: nat): (c: char)
    requires n < 16
    ensures IsHex(c) && HexValue(c) == n && c == "0123456789abcdef"[n]
  {
    if n < 10 then '0' + n as char else 'a' + (n - 10) as char
  }

  /** Hexadecimal digits are read in either case, and nothing else is one. */
  lemma HexDigitsRead(c: char)
    ensures forall n :: 0 <= n < 16 && (c == "0123456789abcdef"[n] || c == "0123456789ABCDEF"[n]) ==> IsHex(c) && HexValue(c) == n
    ensures IsHex(c) ==> "0123456789abcdef"[HexValue(c)] == c || "0123456789ABCDEF"[HexValue(c)] == c
  {
  }

  /** `os << v`. */
  function Decimal(n: nat): (s: string)
    ensures s != [] && forall c :: c in s ==> IsDigit(c)
  {
    if n < 10 then [Digit(n)] else Decimal(n / 10) + [Digit(n % 10)]
  }

  /** What `lexical_cast` makes of a token, before its range is checked. Signs are not
      read: nothing here prints one. */
  function ParseNat(s: string): Result<nat> {
    if s == [] || !IsDigit(s[|s| - 1]) then Err(Malformed)
    else if |s| == 1 then Ok(DigitValue(s[0]))
    else
      var high :- ParseNat(s[..|s| - 1]);
      Ok(10 * high + DigitValue(s[|s| - 1]))
  }

  lemma {:induction false} ParseDecimal(n: nat)
    ensures ParseNat(Decimal(n)) == Ok(n)
  {
    if n >= 10 {
      var s := Decimal(n);
      assert s[..|s| - 1] == Decimal(n / 10);
      ParseDecimal(n / 10);
    }
  }

  // ---------------------------------------------------------------------- tokens

  predicate IsSpace(c: char) { c in {' ', '\t', '\n', '\r', 11 as char, 12 as char} }

  predicate IsWord(w: string) { w != [] && forall i :: 0 <= i < |w| ==> !IsSpace(w[i]) }

  predicate AllWords(ts: seq<string>) { forall i :: 0 <= i < |ts| ==> IsWord(ts[i]) }

  lemma DecimalIsWord(n: nat)
    ensures IsWord(Decimal(n))
  {
    forall i | 0 <= i < |Decimal(n)| ensures !IsSpace(Decimal(n)[i]) { assert Decimal(n)[i] in Decimal(n); }
  }

  /** How many characters at the front are spaces, or are not. */
  function RunLength(text: string, spaces: bool): (n: nat)
    ensures n <= |text|
    ensures forall i :: 0 <= i < n ==> IsSpace(text[i]) == spaces
    ensures n < |text| ==> IsSpace(text[n]) != spaces
  {
    if text == [] || IsSpace(text[0]) != spaces then 0 else 1 + RunLength(text[1..], spaces)
  }

  /** The tokens that repeated `operator>>` yields. */
  function Tokens(text: string): (ts: seq<string>)
    ensures forall i :: 0 <= i < |ts| ==> IsWord(ts[i])
    decreases |text|
  {
    var t := text[RunLength(text, true)..];
    if t == [] then []
    else
      var n := RunLength(t, false);
      assert forall i :: 0 <= i < n ==> t[..n][i] == t[i];
      [t[..n]] + Tokens(t[n..])
  }

  /** How tokens are printed: a space behind each. */
  function Render(ts: seq<string>): string {
    if ts == [] then [] else ts[0] + " " + Render(ts[1..])
  }

  lemma {:induction false} RenderAppend(a: seq<string>, b: seq<string>)
    ensures Render(a + b) == Render(a) + Render(b)
  {
    if a == [] {
      assert a + b == b;
    } else {
      assert (a + b)[0] == a[0] && (a + b)[1..] == a[1..] + b;
      RenderAppend(a[1..], b);
    }
  }

  lemma {:induction false} RunLengthOf(text: string, spaces: bool, n: nat)
    requires n <= |text| && (forall i :: 0 <= i < n ==> IsSpace(text[i]) == spaces)
    requires n < |text| ==> IsSpace(text[n]) != spaces
    ensures RunLength(text, spaces) == n
  {
    if n > 0 { RunLengthOf(text[1..], spaces, n - 1); }
  }

  lemma NoTokens()
    ensures Tokens("") == []
  {
  }

  lemma SkipSpace(text: string)
    requires text != [] && IsSpace(text[0])
    ensures Tokens(text) == Tokens(text[1..])
  {
    assert text[RunLength(text, true)..] == text[1..][RunLength(text[1..], true)..];
  }

  lemma TakeWord(w: string, rest: string)
    requires IsWord(w) && (rest != [] ==> IsSpace(rest[0]))
    ensures Tokens(w + rest) == [w] + Tokens(rest)
  {
    var text := w + rest;
    RunLengthOf(text, true, 0);
    assert text[0..] == text;
    RunLengthOf(text, false, |w|);
    assert text[..|w|] == w && text[|w|..] == rest;
  }

  /** Reading back what was printed, whatever follows. */
  lemma {:induction false} TokensOfRender(ts: seq<string>, rest: string)
    requires AllWords(ts)
    ensures Tokens(Render(ts) + rest) == ts + Tokens(rest)
  {
    hide Tokens, IsWord;
    if ts == [] {
      assert Render(ts) + rest == rest;
    } else {
      var tail := Render(ts[1..]) + rest;
      assert Render(ts) + rest == ts[0] + (" " + tail);
      TakeWord(ts[0], " " + tail);
      SkipSpace(" " + tail);
      assert (" " + tail)[1..] == tail;
      TokensOfRender(ts[1..], rest);
    }
  }

  // --------------------------------------------------------- reading typed numbers

  /** An 8-bit field goes through a 32-bit one and is then cut down; a 16-bit field
      and a size must fit. */
  function FieldOf(width: nat, token: string): Result<nat>
    requires width in {1, 2}
  {
    var n :- ParseNat(token);
    if width == 1 then (if n < TWO_31 then Ok(n % 256) else Err(OutOfRange))
    else if n < TWO_16 then Ok(n)
    else Err(OutOfRange)
  }

  function SizeOf(token: string): Result<nat> {
    var n :- ParseNat(token);
    if n < TWO_64 then Ok(n) else Err(OutOfRange)
  }

  function InField(width: nat, ts: seq<string>): Result<(nat, seq<string>)>
    requires width in {1, 2}
  {
    if ts == [] then Err(Eof)
    else
      var v :- FieldOf(width, ts[0]);
      Ok((v, ts[1..]))
  }

  function InSize(ts: seq<string>): Result<(nat, seq<string>)> {
    if ts == [] then Err(Eof)
    else
      var v :- SizeOf(ts[0]);
      Ok((v, ts[1..]))
  }

  lemma InFieldDecimal(width: nat, v: nat, rest: seq<string>)
    requires width in {1, 2} && v < Pow256(width)
    ensures InField(width, [Decimal(v)] + rest) == Ok((v, rest))
  {
    hide Decimal, ParseNat;
    ParseDecimal(v);
    SmallPowers();
    assert ([Decimal(v)] + rest)[1..] == rest;
  }

  lemma InSizeDecimal(v: nat, rest: seq<string>)
    requires v < TWO_64
    ensures InSize([Decimal(v)] + rest) == Ok((v, rest))
  {
    ParseDecimal(v);
    assert ([Decimal(v)] + rest)[1..] == rest;
  }

  /** What a number read into a field or a size has to fit: one byte is cut from 31 bits. */
  lemma RangesAre(n: nat)
    ensures FieldOf(1, Decimal(n)) == if n < 0x8000_0000 then Ok(n % 256) else Err(OutOfRange)
    ensures FieldOf(2, Decimal(n)) == if n < 0x1_0000 then Ok(n) else Err(OutOfRange)
    ensures SizeOf(Decimal(n)) == if n < 0x1_0000_0000_0000_0000 then Ok(n) else Err(OutOfRange)
  {
    hide Decimal, ParseNat;
    ParseDecimal(n);
  }

  /** Nothing but digits is a number. */
  lemma {:induction false} ParseNatIff(s: string)
    ensures ParseNat(s).Ok? <==> s != "" && forall i :: 0 <= i < |s| ==> '0' <= s[i] <= '9'
    ensures ParseNat(s).Err? ==> ParseNat(s) == Err(Malformed)
  {
    if |s| > 1 { ParseNatIff(s[..|s| - 1]); }
  }

  /** Words end at a space, a tabulator, or a line break of any kind, and at nothing else. */
  lemma BlankSeparates(w: string, c: char, rest: string)
    requires IsWord(w)
    ensures c in {' ', '\t', '\n', '\r', 11 as char, 12 as char} ==> Tokens(w + [c] + rest) == [w] + Tokens(rest)
    ensures c !in {' ', '\t', '\n', '\r', 11 as char, 12 as char} ==> IsWord(w + [c])
  {
    hide Tokens;
    if c in {' ', '\t', '\n', '\r', 11 as char, 12 as char} {
      assert w + [c] + rest == w + ([c] + rest) && ([c] + rest)[1..] == rest;
      TakeWord(w, [c] + rest);
      SkipSpace([c] + rest);
    }
  }

  // ------------------------------------------------------------------- the stream

  class Stream {
    var text: string

    constructor (initial: string)
      ensures text == initial
    {
      text := initial;
    }

    ghost function Left(): seq<string>
      reads this
    {
      Tokens(text)
    }

    /** `text::stream::out`. */
    method Out(v: nat)
      modifies this
      ensures text == old(text) + Render([Decimal(v)])
    {
      text := text + Decimal(v) + " ";
    }

    /** `is >> number`: skip white space, take characters up to the next. */
    method NextToken() returns (token: Option<string>)
      modifies this
      ensures old(Left()) == [] ==> token == None && Left() == []
      ensures old(Left()) != [] ==> token == Some(old(Left())[0]) && Left() == old(Left())[1..]
    {
      hide Tokens;
      ghost var all := Left();
      while text != [] && IsSpace(text[0])
        invariant Left() == all
        decreases |text|
      {
        SkipSpace(text);
        text := text[1..];
      }
      if text == [] {
        NoTokens();
        return None;
      }
      var n := 0;
      while n < |text| && !IsSpace(text[n])
        invariant 0 <= n <= |text| && forall i :: 0 <= i < n ==> !IsSpace(text[i])
      {
        n := n + 1;
      }
      TakeWord(text[..n], text[n..]);
      assert text[..n] + text[n..] == text;
      token := Some(text[..n]);
      text := text[n..];
    }

    method ReadField(width: nat) returns (r: Result<nat>)
      requires width in {1, 2}
      modifies this
      ensures match InField(width, old(Left()))
              case Ok((v, rest)) => r == Ok(v) && Left() == rest
              case Err(e) => r == Err(e)
    {
      var token := NextToken();
      if token == None { return Err(Eof); }
      r := FieldOf(width, token.value);
    }

    method ReadSize() returns (r: Result<nat>)
      modifies this
      ensures match InSize(old(Left()))
              case Ok((v, rest)) => r == Ok(v) && Left() == rest
              case Err(e) => r == Err(e)
    {
      var token := NextToken();
      if token == None { return Err(Eof); }
      r := SizeOf(token.value);
    }
  }
}
