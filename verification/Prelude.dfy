/** Bytes, fixed-width integers and their wire encodings, and the two
    result types shared by the rest of the model. */
module Prelude {

  type byte = x: int | 0 <= x < 256

  const TWO_8: int := 0x100
  const TWO_16: int := 0x1_0000
  const TWO_31: int := 0x8000_0000
  const TWO_32: int := 0x1_0000_0000
  const TWO_64: int := 0x1_0000_0000_0000_0000

  type u8 = x: int | 0 <= x < TWO_8
  type u16 = x: int | 0 <= x < TWO_16
  type u32 = x: int | 0 <= x < TWO_32
  type i32 = x: int | -TWO_31 <= x < TWO_31

  datatype Option<+T> = None | Some(value: T)

  datatype Error = Eof | Malformed | OutOfRange | MissingKey

  datatype Result<+T> = Ok(value: T) | Err(error: Error) {
    predicate IsFailure() { Err? }

    function PropagateFailure<U>(): Result<U>
      requires Err?
    {
      Err(error)
    }

    function Extract(): T
      requires Ok?
    {
      value
    }
  }

  function Min(a: nat, b: nat): nat { if a < b then a else b }

  /** Conversion to a 32-bit word: two's complement, modulo 2^32. */
  function Word(v: int): u32 { v % TWO_32 }

  /** Conversion of any integer to a 32-bit signed one, modulo 2^32. */
  function Int32(v: int): i32 {
    if v % TWO_32 < TWO_31 then v % TWO_32 else v % TWO_32 - TWO_32
  }

  lemma Int32Word(v: i32)
    ensures Int32(Word(v)) == v
    ensures Int32(v) == v
  {
  }

  function Pow256(n: nat): (p: nat)
    ensures p > 0
  {
    if n == 0 then 1 else 256 * Pow256(n - 1)
  }

  lemma SmallPowers()
    ensures Pow256(1) == TWO_8 && Pow256(2) == TWO_16
  {
    assert Pow256(2) == 256 * Pow256(1);
  }

  lemma WordPower()
    ensures Pow256(4) == TWO_32
  {
    SmallPowers();
    assert Pow256(4) == 256 * Pow256(3) && Pow256(3) == 256 * Pow256(2);
  }

  /** The n low bytes of v, least significant first. */
  function LittleEndian(n: nat, v: nat): (bs: seq<byte>)
    ensures |bs| == n
  {
    if n == 0 then [] else [v % 256] + LittleEndian(n - 1, v / 256)
  }

  function FromLittleEndian(bs: seq<byte>): nat {
    if bs == [] then 0 else bs[0] + 256 * FromLittleEndian(bs[1..])
  }

  lemma {:induction false} LittleEndianRoundTrip(n: nat, v: nat)
    requires v < Pow256(n)
    ensures FromLittleEndian(LittleEndian(n, v)) == v
  {
    if n > 0 {
      assert v / 256 < Pow256(n - 1);
      LittleEndianRoundTrip(n - 1, v / 256);
      assert LittleEndian(n, v)[1..] == LittleEndian(n - 1, v / 256);
    }
  }

  lemma {:induction false} FromLittleEndianBound(bs: seq<byte>)
    ensures FromLittleEndian(bs) < Pow256(|bs|)
    ensures LittleEndian(|bs|, FromLittleEndian(bs)) == bs
  {
    if bs != [] {
      FromLittleEndianBound(bs[1..]);
      var v := FromLittleEndian(bs[1..]);
      assert (bs[0] + 256 * v) % 256 == bs[0] && (bs[0] + 256 * v) / 256 == v;
    }
  }

  /** A word in network byte order. */
  function BigEndian(w: u32): (bs: seq<byte>)
    ensures |bs| == 4
  {
    [w / 0x100_0000, w / 0x1_0000 % 256, w / 0x100 % 256, w % 256]
  }

  function FromBigEndian(bs: seq<byte>): u32
    requires |bs| == 4
  {
    var (a, b, c, d) := (bs[0] as int, bs[1] as int, bs[2] as int, bs[3] as int);
    a * 0x100_0000 + b * 0x1_0000 + c * 0x100 + d
  }

  lemma BigEndianRoundTrip(w: u32)
    ensures FromBigEndian(BigEndian(w)) == w
  {
    assert w / 0x1_0000 == w / 0x100_0000 * 256 + w / 0x1_0000 % 256 by {
      assert w / 0x1_0000 / 256 == w / 0x100_0000;
    }
    assert w / 0x100 == w / 0x1_0000 * 256 + w / 0x100 % 256 by {
      assert w / 0x100 / 256 == w / 0x1_0000;
    }
  }

  function Flatten<T>(ss: seq<seq<T>>): seq<T> {
    if ss == [] then [] else ss[0] + Flatten(ss[1..])
  }
}
