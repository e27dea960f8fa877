/** The argument codec between the command line and the daemon (cli_impl.cpp). */
module Argv {
  import opened Prelude

  type Bytes = seq<byte>

  // ----------------------------------------------------------------- specification

  function EncodeAll(args: seq<Bytes>): Bytes
    requires forall i :: 0 <= i < |args| ==> |args[i]| < TWO_32
  {
    if args == [] then [] else LittleEndian(4, |args[0]|) + args[0] + EncodeAll(args[1..])
  }

  /** The decoder reserves one place more than there are arguments, in an `int`. */
  const ARGC_LIMIT: nat := TWO_31 - 1

  /** What can be sent: each argument of a 32-bit length, and one fewer of them than an
      `int` can count. */
  predicate Sendable(args: seq<Bytes>) {
    |args| < ARGC_LIMIT && forall i :: 0 <= i < |args| ==> |args[i]| < TWO_32
  }

  function Serialized(args: seq<Bytes>): Bytes
    requires Sendable(args)
  {
    LittleEndian(4, |args|) + EncodeAll(args)
  }

  /** The number at an offset, if all of it is there. */
  function U32At(data: Bytes, offset: nat): Result<nat> {
    if offset + 4 > |data| then Err(Eof) else Ok(FromLittleEndian(data[offset..offset + 4]))
  }

  function DecodeFrom(data: Bytes, offset: nat, n: nat): Result<seq<Bytes>>
    decreases n
  {
    if n == 0 then Ok([])
    else
      var length :- U32At(data, offset);
      if offset + 4 + length > |data| then Err(Eof)
      else
        var rest :- DecodeFrom(data, offset + 4 + length, n - 1);
        Ok([data[offset + 4..offset + 4 + length]] + rest)
  }

  /** A count of 2^31 or more is a negative `int`, and for 2^31 - 1 the place more is:
      `reserve` throws. */
  function Deserialized(data: Bytes): Result<seq<Bytes>> {
    var argc :- U32At(data, 0);
    if argc >= ARGC_LIMIT then Err(OutOfRange) else DecodeFrom(data, 4, argc)
  }

  // --------------------------------------------------------------------- properties

  lemma U32AtNumber(before: Bytes, v: nat, after: Bytes)
    requires v < TWO_32
    ensures U32At(before + LittleEndian(4, v) + after, |before|) == Ok(v)
  {
    hide LittleEndian, FromLittleEndian;
    WordPower();
    LittleEndianRoundTrip(4, v);
    assert (before + LittleEndian(4, v) + after)[|before|..|before| + 4] == LittleEndian(4, v);
  }

  lemma {:induction false} DecodeEncoded(before: Bytes, args: seq<Bytes>, after: Bytes)
    requires forall i :: 0 <= i < |args| ==> |args[i]| < TWO_32
    ensures DecodeFrom(before + EncodeAll(args) + after, |before|, |args|) == Ok(args)
    decreases |args|
  {
    hide LittleEndian, U32At;
    if args != [] {
      var data := before + EncodeAll(args) + after;
      var head := LittleEndian(4, |args[0]|);
      var tail := EncodeAll(args[1..]) + after;
      assert data == before + head + (args[0] + tail);
      U32AtNumber(before, |args[0]|, args[0] + tail);
      var before1 := before + head + args[0];
      assert data == before1 + EncodeAll(args[1..]) + after;
      assert data[|before| + 4..|before1|] == args[0];
      DecodeEncoded(before1, args[1..], after);
      assert [args[0]] + args[1..] == args;
    }
  }

  /** What was sent is what is received, whatever is behind it. */
  lemma ArgvRoundTrip(args: seq<Bytes>, after: Bytes)
    requires Sendable(args)
    ensures Deserialized(Serialized(args) + after) == Ok(args)
  {
    hide LittleEndian, U32At, DecodeFrom, EncodeAll;
    var head := LittleEndian(4, |args|);
    var data := Serialized(args) + after;
    assert data == [] + head + (EncodeAll(args) + after);
    U32AtNumber([], |args|, EncodeAll(args) + after);
    assert data == head + EncodeAll(args) + after;
    DecodeEncoded(head, args, after);
  }

  lemma NumberAt(data: Bytes, offset: nat)
    requires U32At(data, offset).Ok?
    ensures U32At(data, offset).value < TWO_32
    ensures data[offset..offset + 4] == LittleEndian(4, U32At(data, offset).value)
  {
    WordPower();
    FromLittleEndianBound(data[offset..offset + 4]);
  }

  lemma {:induction false} DecodedIsThere(data: Bytes, offset: nat, n: nat)
    requires offset <= |data| && DecodeFrom(data, offset, n).Ok?
    ensures var args := DecodeFrom(data, offset, n).value;
      && |args| == n
      && (forall i :: 0 <= i < n ==> |args[i]| < TWO_32)
      && EncodeAll(args) <= data[offset..]
    decreases n
  {
    hide LittleEndian, U32At;
    if n > 0 {
      NumberAt(data, offset);
      var length := U32At(data, offset).value;
      var next := offset + 4 + length;
      DecodedIsThere(data, next, n - 1);
      var rest := DecodeFrom(data, next, n - 1).value;
      var arg := data[offset + 4..next];
      assert data[offset..] == data[offset..offset + 4] + arg + data[next..];
      assert ([arg] + rest)[1..] == rest && ([arg] + rest)[0] == arg;
      assert EncodeAll([arg] + rest) == LittleEndian(4, length) + arg + EncodeAll(rest);
      assert data[next..] == EncodeAll(rest) + data[next..][|EncodeAll(rest)|..];
    }
  }

  /** A byte string is accepted if and only if some argument list's serialization is in
      front of it, and that list is what it decodes to. */
  lemma AcceptedIff(data: Bytes, args: seq<Bytes>)
    ensures Deserialized(data) == Ok(args) <==>
      |args| < 0x7fff_ffff && (forall i :: 0 <= i < |args| ==> |args[i]| < 0x1_0000_0000) && Serialized(args) <= data
  {
    hide LittleEndian, FromLittleEndian, DecodeFrom, EncodeAll;
    if Deserialized(data) == Ok(args) {
      NumberAt(data, 0);
      DecodedIsThere(data, 4, U32At(data, 0).value);
      assert data == data[..4] + data[4..] && data[0..4] == data[..4];
      assert data[4..] == EncodeAll(args) + data[4..][|EncodeAll(args)|..];
    }
    if Sendable(args) && Serialized(args) <= data {
      ArgvRoundTrip(args, data[|Serialized(args)|..]);
      assert data == Serialized(args) + data[|Serialized(args)|..];
    }
  }

  // ---------------------------------------------------------------------- the loops

  method AppendU32(buffer: Bytes, v: nat) returns (r: Bytes)
    requires v < TWO_32
    ensures r == buffer + LittleEndian(4, v)
  {
    r := buffer + LittleEndian(4, v);
  }

  /** `serialize_argv`. */
  method SerializeArgv(argv: seq<Bytes>) returns (buffer: Bytes)
    requires Sendable(argv)
    ensures buffer == Serialized(argv)
    ensures forall after: Bytes :: Deserialized(buffer + after) == Ok(argv)
  {
    hide LittleEndian, Deserialized;
    buffer := AppendU32([], |argv|);
    for i := 0 to |argv|
      invariant buffer + EncodeAll(argv[i..]) == Serialized(argv)
    {
      assert argv[i..][1..] == argv[i + 1..];
      ghost var was := buffer;
      buffer := AppendU32(buffer, |argv[i]|);
      buffer := buffer + argv[i];
      assert was + EncodeAll(argv[i..]) == buffer + EncodeAll(argv[i + 1..]);
    }
    assert argv[|argv|..] == [] && buffer + [] == buffer;
    forall after: Bytes ensures Deserialized(buffer + after) == Ok(argv) { ArgvRoundTrip(argv, after); }
  }

  /** `deserialize_argv`: every access is in bounds, and what comes back is what the
      bytes begin with. */
  method DeserializeArgv(data: Bytes) returns (r: Result<seq<Bytes>>)
    ensures r.Ok? ==> Sendable(r.value) && Serialized(r.value) <= data
    ensures r.Err? ==> forall args :: Sendable(args) ==> !(Serialized(args) <= data)
  {
    hide LittleEndian, FromLittleEndian, EncodeAll, Serialized;
    ghost var spec := Deserialized(data);
    forall args ensures spec == Ok(args) <==> Sendable(args) && Serialized(args) <= data { AcceptedIff(data, args); }
    var argc :- U32At(data, 0);
    if argc >= ARGC_LIMIT { return Err(OutOfRange); }
    var offset, storage := 4, [];
    ghost var all := DecodeFrom(data, 4, argc);
    assert all.Ok? ==> [] + all.value == all.value;
    for i := 0 to argc
      invariant 4 <= offset <= |data|
      invariant spec == match DecodeFrom(data, offset, argc - i)
                        case Ok(rest) => Ok(storage + rest)
                        case Err(e) => Err(e)
    {
      var length :- U32At(data, offset);
      offset := offset + 4;
      if offset + length > |data| { return Err(Eof); }
      ghost var rest := DecodeFrom(data, offset + length, argc - i - 1);
      ghost var arg := data[offset..offset + length];
      assert rest.Ok? ==> storage + ([arg] + rest.value) == storage + [arg] + rest.value;
      storage := storage + [data[offset..offset + length]];
      offset := offset + length;
    }
    assert storage + [] == storage;
    r := Ok(storage);
  }
}
