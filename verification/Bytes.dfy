/** Big-endian integers in bytes, as DataView writes them and ByteBuffer reads them. */
module Bytes {
  type Byte = b: nat | b < 256

  datatype Error = Underflow | NegativeSize | QueryTooLong | BadIndex | NotATail | Unknown | NonZeroStream

  /** What a read from a position gives: a value and the next position, or an exception. */
  datatype Read<T> = Ok(value: T, next: nat) | Failed(error: Error)

  function Put8(v: nat): seq<Byte> {
    [v % 256]
  }

  function Put16(v: nat): seq<Byte> {
    [v / 256 % 256, v % 256]
  }

  function Put32(v: nat): seq<Byte> {
    Put16(v / 65536) + Put16(v)
  }

  function Put64(v: nat): seq<Byte> {
    Put32(v / 0x1_0000_0000) + Put32(v)
  }

  function Signed(v: nat, half: nat): int {
    if v < half then v else v - 2 * half
  }

  function Word16(d: seq<Byte>, p: nat): nat
    requires p + 2 <= |d|
  {
    (d[p] as nat) * 256 + d[p + 1] as nat
  }

  function Word32(d: seq<Byte>, p: nat): nat
    requires p + 4 <= |d|
  {
    Word16(d, p) * 65536 + Word16(d, p + 2)
  }

  function Word64(d: seq<Byte>, p: nat): nat
    requires p + 8 <= |d|
  {
    Word32(d, p) * 0x1_0000_0000 + Word32(d, p + 4)
  }

  function GetByte(d: seq<Byte>, p: nat): Read<Byte> {
    if p + 1 <= |d| then Ok(d[p], p + 1) else Failed(Underflow)
  }

  function GetShort(d: seq<Byte>, p: nat): Read<int> {
    if p + 2 <= |d| then Ok(Signed(Word16(d, p), 0x8000), p + 2) else Failed(Underflow)
  }

  function GetInt(d: seq<Byte>, p: nat): Read<int> {
    if p + 4 <= |d| then Ok(Signed(Word32(d, p), 0x8000_0000), p + 4) else Failed(Underflow)
  }

  function GetUInt(d: seq<Byte>, p: nat): Read<nat> {
    if p + 4 <= |d| then Ok(Word32(d, p), p + 4) else Failed(Underflow)
  }

  function GetULong(d: seq<Byte>, p: nat): Read<nat> {
    if p + 8 <= |d| then Ok(Word64(d, p), p + 8) else Failed(Underflow)
  }

  /** An array of `n` bytes is made and filled. */
  function GetBytes(d: seq<Byte>, p: nat, n: int): Read<seq<Byte>> {
    if n < 0 then Failed(NegativeSize)
    else if p + n <= |d| then Ok(d[p..p + n], p + n)
    else Failed(Underflow)
  }

  /** The bytes that start with the mark of byte order, U+FEFF. */
  predicate HasBom(t: seq<Byte>) {
    |t| >= 3 && t[0] == 0xEF && t[1] == 0xBB && t[2] == 0xBF
  }

  /** The UTF-8 of what TextDecoder makes of a text: a leading mark of byte order is dropped. */
  function WithoutBom(t: seq<Byte>): (r: seq<Byte>)
    ensures r == t <==> !HasBom(t)
  {
    if HasBom(t) then t[3..] else t
  }

  /** `piece` is at `p`. */
  predicate At(d: seq<Byte>, p: nat, piece: seq<Byte>) {
    p + |piece| <= |d| && d[p..p + |piece|] == piece
  }

  lemma AtSplit(d: seq<Byte>, p: nat, a: seq<Byte>, b: seq<Byte>)
    requires At(d, p, a + b)
    ensures At(d, p, a) && At(d, p + |a|, b)
  {
    assert d[p..p + |a|] == d[p..p + |a + b|][..|a|];
    assert d[p + |a|..p + |a| + |b|] == d[p..p + |a + b|][|a|..];
  }

  lemma AtWhole(d: seq<Byte>)
    ensures At(d, 0, d)
  {
    assert d[0..|d|] == d;
  }

  lemma AtByte(d: seq<Byte>, p: nat, v: nat)
    requires At(d, p, Put8(v))
    ensures GetByte(d, p) == Ok(v % 256, p + 1)
  {
    assert d[p] == d[p..p + 1][0];
  }

  lemma AtWord16(d: seq<Byte>, p: nat, v: nat)
    requires At(d, p, Put16(v))
    ensures p + 2 <= |d| && Word16(d, p) == v % 65536
  {
    assert d[p] == d[p..p + 2][0] && d[p + 1] == d[p..p + 2][1];
  }

  lemma AtWord32(d: seq<Byte>, p: nat, v: nat)
    requires At(d, p, Put32(v))
    ensures p + 4 <= |d| && Word32(d, p) == v % 0x1_0000_0000
  {
    hide Put16, Word16;
    Length16(v);
    Length16(v / 65536);
    AtSplit(d, p, Put16(v / 65536), Put16(v));
    AtWord16(d, p, v / 65536);
    AtWord16(d, p + 2, v);
  }

  lemma Length16(v: nat)
    ensures |Put16(v)| == 2
  {
  }

  lemma Halves(v: nat)
    ensures (v / 0x1_0000_0000 % 0x1_0000_0000) * 0x1_0000_0000 + v % 0x1_0000_0000 == v % 0x1_0000_0000_0000_0000
  {
    var q := v / 0x1_0000_0000;
    var a := q / 0x1_0000_0000;
    assert v == a * 0x1_0000_0000_0000_0000 + (q % 0x1_0000_0000) * 0x1_0000_0000 + v % 0x1_0000_0000;
  }

  lemma AtWord64(d: seq<Byte>, p: nat, v: nat)
    requires At(d, p, Put64(v))
    ensures p + 8 <= |d| && Word64(d, p) == v % 0x1_0000_0000_0000_0000
  {
    hide Put32, Word32;
    assert |Put32(v / 0x1_0000_0000)| == 4 by { Length32(v / 0x1_0000_0000); }
    AtSplit(d, p, Put32(v / 0x1_0000_0000), Put32(v));
    AtWord32(d, p, v / 0x1_0000_0000);
    AtWord32(d, p + 4, v);
    Halves(v);
  }

  lemma Length64(v: nat)
    ensures |Put64(v)| == 8
  {
  }

  lemma Length32(v: nat)
    ensures |Put32(v)| == 4
  {
  }

  lemma AtBytes(d: seq<Byte>, p: nat, piece: seq<Byte>)
    requires At(d, p, piece)
    ensures GetBytes(d, p, |piece|) == Ok(piece, p + |piece|)
  {
  }
}
