/** The checksum under all hashes: the table-driven loop of sk_crc64, what it computes, and which
  * changes it is bound to notice. */
module Checksum {
  import opened Heap

  type u64 = bv64

  /** crc64table has 256 words. The loop itself works with any table. */
  type CrcTable = t: seq<u64> | |t| == 256 witness seq(256, _ => 0)

  /** One turn of the loop in sk_crc64. */
  function CrcByte(table: CrcTable, crc: u64, b: byte): u64 {
    Xor(table[(First(crc) ^ (b as bv8)) as nat], Up(crc))
  }

  function Crc(table: CrcTable, crc: u64, bytes: seq<byte>): u64 {
    if bytes == [] then crc
    else CrcByte(table, Crc(table, crc, bytes[..|bytes| - 1]), bytes[|bytes| - 1])
  }

  /** sk_crc64. */
  method CrcLoop(table: CrcTable, crc0: u64, bytes: seq<byte>) returns (crc: u64)
    ensures crc == Crc(table, crc0, bytes)
  {
    hide CrcByte;
    crc := crc0;
    var i := 0;
    while i < |bytes|
      invariant i <= |bytes| && crc == Crc(table, crc0, bytes[..i])
    {
      assert bytes[..i + 1][..i] == bytes[..i];
      crc := CrcByte(table, crc, bytes[i]);
      i := i + 1;
    }
    assert bytes[..i] == bytes;
  }

  lemma {:induction false} CrcAppend(table: CrcTable, crc: u64, a: seq<byte>, b: seq<byte>)
    ensures Crc(table, crc, a + b) == Crc(table, Crc(table, crc, a), b)
  {
    hide CrcByte;
    if b == [] {
      assert a + b == a;
    } else {
      CrcAppend(table, crc, a, b[..|b| - 1]);
      assert (a + b)[..|a + b| - 1] == a + b[..|b| - 1];
    }
  }

  // ------------------------------------------------------------------------------------------
  // The division that the table stands for
  // ------------------------------------------------------------------------------------------

  /** The generator of CRC-64/ECMA-182, its leading term apart. */
  const POLY: u64 := 0x42f0_e1eb_a9ea_3693

  function Xor(x: u64, y: u64): u64 {
    x ^ y
  }

  function Double(x: u64): u64 {
    x << 1
  }

  predicate LeadingBit(x: u64) {
    x >> 63 == 1
  }

  /** One step of the division by the generator: the next bit down, and the generator is taken off
    * when the leading bit was set. */
  function Shift(x: u64): u64 {
    if LeadingBit(x) then Xor(Double(x), POLY) else Double(x)
  }

  function Shift8(x: u64): u64 {
    Shift(Shift(Shift(Shift(Shift(Shift(Shift(Shift(x))))))))
  }

  /** A byte at the upper end of a word. */
  function Lead(b: byte): u64 {
    Aloft(b as bv8)
  }

  function Aloft(b: bv8): u64 {
    (b as u64) << 56
  }

  /** The division, bit by bit: the register starts as `x` and takes in one byte after the other. */
  function Remainder(x: u64, bytes: seq<byte>): u64
    decreases |bytes|
  {
    if bytes == [] then x else Remainder(Shift8(Xor(x, Lead(bytes[0]))), bytes[1..])
  }

  /** Every entry is what eight steps make of its index. */
  ghost predicate IsCrcTable(table: CrcTable) {
    forall t: bv8 :: table[t as nat] == Shift8(Aloft(t))
  }

  lemma BitsAssoc(x: u64, y: u64, z: u64, xy: u64, yz: u64)
    requires xy == x ^ y && yz == y ^ z
    ensures xy ^ z == x ^ yz
  {
  }

  lemma XorIs(x: u64, y: u64)
    ensures Xor(x, y) == x ^ y
  {
  }

  lemma XorAssoc(x: u64, y: u64, z: u64)
    ensures Xor(Xor(x, y), z) == Xor(x, Xor(y, z))
  {
    hide Xor;
    XorIs(x, y);
    XorIs(y, z);
    XorIs(Xor(x, y), z);
    XorIs(x, Xor(y, z));
    BitsAssoc(x, y, z, Xor(x, y), Xor(y, z));
  }

  lemma XorSwap(x: u64, y: u64)
    ensures Xor(x, y) == Xor(y, x)
  {
  }

  lemma XorCancel(x: u64, y: u64, p: u64)
    requires Xor(x, p) == Xor(y, p)
    ensures x == y
  {
  }

  lemma XorApart(x: u64, y: u64, p: u64)
    requires x != y
    ensures Xor(x, p) != Xor(y, p)
  {
  }

  lemma XorPairs(x: u64, y: u64, p: u64)
    ensures Xor(Xor(x, p), y) == Xor(Xor(x, y), p) && Xor(x, Xor(y, p)) == Xor(Xor(x, y), p)
    ensures Xor(Xor(x, p), Xor(y, p)) == Xor(x, y)
  {
  }

  lemma DoubleXor(x: u64, y: u64)
    ensures Double(Xor(x, y)) == Xor(Double(x), Double(y))
  {
  }

  lemma LeadingXor(x: u64, y: u64)
    ensures LeadingBit(Xor(x, y)) == (LeadingBit(x) != LeadingBit(y))
  {
  }

  lemma ShiftLinear(x: u64, y: u64)
    ensures Shift(Xor(x, y)) == Xor(Shift(x), Shift(y))
  {
    hide Xor, Double, LeadingBit;
    DoubleXor(x, y);
    LeadingXor(x, y);
    XorPairs(Double(x), Double(y), POLY);
  }

  lemma Shift8Linear(x: u64, y: u64)
    ensures Shift8(Xor(x, y)) == Xor(Shift8(x), Shift8(y))
  {
    hide Shift, Xor;
    ShiftLinear(x, y);
    var x1, y1 := Shift(x), Shift(y);
    ShiftLinear(x1, y1);
    var x2, y2 := Shift(x1), Shift(y1);
    ShiftLinear(x2, y2);
    var x3, y3 := Shift(x2), Shift(y2);
    ShiftLinear(x3, y3);
    var x4, y4 := Shift(x3), Shift(y3);
    ShiftLinear(x4, y4);
    var x5, y5 := Shift(x4), Shift(y4);
    ShiftLinear(x5, y5);
    var x6, y6 := Shift(x5), Shift(y5);
    ShiftLinear(x6, y6);
    ShiftLinear(Shift(x6), Shift(y6));
  }

  lemma DoubleInjective(x: u64, y: u64)
    requires Double(x) == Double(y) && LeadingBit(x) == LeadingBit(y)
    ensures x == y
  {
  }

  predicate LowBit(x: u64) {
    x & 1 == 1
  }

  lemma LowBits(x: u64)
    ensures !LowBit(Double(x)) && LowBit(Xor(Double(x), POLY))
  {
  }

  /** The generator has a constant term, so that a step can be undone. */
  lemma ShiftInjective(x: u64, y: u64)
    requires Shift(x) == Shift(y)
    ensures x == y
  {
    hide Xor, Double, LeadingBit, LowBit;
    LowBits(x);
    LowBits(y);
    if LeadingBit(x) { XorCancel(Double(x), Double(y), POLY); }
    DoubleInjective(x, y);
  }

  lemma Shift8Injective(x: u64, y: u64)
    requires Shift8(x) == Shift8(y)
    ensures x == y
  {
    hide Shift;
    var x2, y2 := Shift(Shift(x)), Shift(Shift(y));
    var x4, y4 := Shift(Shift(x2)), Shift(Shift(y2));
    var x6, y6 := Shift(Shift(x4)), Shift(Shift(y4));
    ShiftInjective(Shift(x6), Shift(y6));
    ShiftInjective(x6, y6);
    ShiftInjective(Shift(x4), Shift(y4));
    ShiftInjective(x4, y4);
    ShiftInjective(Shift(x2), Shift(y2));
    ShiftInjective(x2, y2);
    ShiftInjective(Shift(x), Shift(y));
    ShiftInjective(x, y);
  }

  lemma Shift8Apart(x: u64, y: u64)
    requires x != y
    ensures Shift8(x) != Shift8(y)
  {
    hide Shift8;
    if Shift8(x) == Shift8(y) { Shift8Injective(x, y); }
  }

  /** The first byte of a word, and the others moved up by one place. */
  function First(w: u64): bv8 {
    (w >> 56) as bv8
  }

  function Up(w: u64): u64 {
    w << 8
  }

  /** The word without its first byte. */
  function Others(w: u64): u64 {
    (w << 8) >> 8
  }

  lemma PlainShift8(x: u64)
    requires x >> 56 == 0
    ensures Shift8(x) == Up(x)
  {
  }

  lemma Splits(x: u64)
    ensures x == Xor(Aloft(First(x)), Others(x))
    ensures Others(x) >> 56 == 0 && Up(Others(x)) == Up(x)
  {
  }

  /** Eight steps at once: the first byte leaves its remainder, and the others move up. */
  lemma Shift8Splits(x: u64)
    ensures Shift8(x) == Xor(Shift8(Aloft(First(x))), Up(x))
  {
    hide Shift8, Xor, Aloft, First, Others, Up;
    Splits(x);
    Shift8Linear(Aloft(First(x)), Others(x));
    PlainShift8(Others(x));
  }

  lemma RoundByte(t: bv8)
    ensures (t as nat) as bv8 == t
  {
  }

  lemma TakeIn(crc: u64, b: bv8)
    ensures First(Xor(crc, Aloft(b))) == First(crc) ^ b
    ensures Up(Xor(crc, Aloft(b))) == Up(crc)
  {
  }

  /** A turn of the loop is eight steps of the division. */
  lemma ByteDivides(table: CrcTable, crc: u64, b: byte)
    requires IsCrcTable(table)
    ensures CrcByte(table, crc, b) == Shift8(Xor(crc, Lead(b)))
  {
    hide Shift8, Xor, Aloft, First, Up;
    TakeIn(crc, b as bv8);
    Shift8Splits(Xor(crc, Lead(b)));
  }

  /** sk_crc64 computes the remainder of the bitwise division. */
  lemma {:induction false} CrcIsRemainder(table: CrcTable, crc: u64, bytes: seq<byte>)
    requires IsCrcTable(table)
    ensures Crc(table, crc, bytes) == Remainder(crc, bytes)
    decreases |bytes|
  {
    hide CrcByte, Shift8, Lead, Xor, IsCrcTable;
    if bytes != [] {
      ByteDivides(table, crc, bytes[0]);
      CrcAppend(table, crc, [bytes[0]], bytes[1..]);
      assert [bytes[0]] + bytes[1..] == bytes && [bytes[0]][..0] == [];
      CrcIsRemainder(table, CrcByte(table, crc, bytes[0]), bytes[1..]);
    }
  }

  // ------------------------------------------------------------------------------------------
  // What a checksum is bound to notice
  // ------------------------------------------------------------------------------------------

  /** Equal bytes keep different registers apart. */
  lemma {:induction false} StaysApart(x: u64, y: u64, bytes: seq<byte>)
    requires x != y
    ensures Remainder(x, bytes) != Remainder(y, bytes)
    decreases |bytes|
  {
    hide Shift8, Lead, Xor;
    if bytes != [] {
      var b := Lead(bytes[0]);
      XorApart(x, y, b);
      Shift8Apart(Xor(x, b), Xor(y, b));
      StaysApart(Shift8(Xor(x, b)), Shift8(Xor(y, b)), bytes[1..]);
    }
  }

  function Advance(x: u64, n: nat): u64
    decreases n
  {
    if n == 0 then x else Advance(Shift8(x), n - 1)
  }

  lemma {:induction false} AdvanceInjective(x: u64, y: u64, n: nat)
    requires Advance(x, n) == Advance(y, n)
    ensures x == y
    decreases n
  {
    hide Shift8;
    if n != 0 {
      AdvanceInjective(Shift8(x), Shift8(y), n - 1);
      Shift8Injective(x, y);
    }
  }

  function Behind(w: u64, n: nat): u64
    decreases n
  {
    if n == 0 then w else Behind(Up(w), n - 1)
  }

  /** The first bytes of the word `w`. */
  predicate Spells(w: u64, s: seq<bv8>)
    decreases |s|
  {
    s == [] || (First(w) == s[0] && Spells(Up(w), s[1..]))
  }

  function Bits(bytes: seq<byte>): seq<bv8> {
    seq(|bytes|, k requires 0 <= k < |bytes| => bytes[k] as bv8)
  }

  lemma FirstLeads(x: u64, w: u64)
    ensures Shift8(Xor(x, w)) == Xor(Shift8(Xor(x, Aloft(First(w)))), Up(w))
  {
    hide Shift8, Aloft, First, Xor, Up;
    var l := Aloft(First(w));
    Shift8Splits(w);
    Shift8Linear(x, w);
    Shift8Linear(x, l);
    XorAssoc(Shift8(x), Shift8(l), Up(w));
  }

  /** Bytes that are taken in one by one might as well have been in the register from the start. */
  lemma {:induction false} TakenAtOnce(x: u64, w: u64, bytes: seq<byte>)
    requires Spells(w, Bits(bytes))
    ensures Advance(Xor(x, w), |bytes|) == Xor(Remainder(x, bytes), Behind(w, |bytes|))
    decreases |bytes|
  {
    hide Shift8, Aloft, First, Up, Xor;
    if bytes != [] {
      FirstLeads(x, w);
      assert Bits(bytes)[0] == First(w);
      assert Bits(bytes[1..]) == Bits(bytes)[1..];
      TakenAtOnce(Shift8(Xor(x, Lead(bytes[0]))), Up(w), bytes[1..]);
    }
  }

  lemma NothingBehind(w: u64)
    ensures Behind(w, 8) == 0
  {
  }

  /** Eight bytes as a word, the first byte leading. */
  function Word(a: bv8, b: bv8, c: bv8, d: bv8, e: bv8, f: bv8, g: bv8, h: bv8): u64 {
    ((a as u64) << 56) | ((b as u64) << 48) | ((c as u64) << 40) | ((d as u64) << 32)
    | ((e as u64) << 24) | ((f as u64) << 16) | ((g as u64) << 8) | (h as u64)
  }

  lemma WordUp(a: bv8, b: bv8, c: bv8, d: bv8, e: bv8, f: bv8, g: bv8, h: bv8)
    ensures Up(Word(a, b, c, d, e, f, g, h)) == Word(b, c, d, e, f, g, h, 0)
    ensures First(Word(a, b, c, d, e, f, g, h)) == a
  {
  }

  lemma SpellsNone(w: u64, s: seq<bv8>)
    ensures Spells(w, s[|s|..])
  {
  }

  lemma SpellsFrom(w: u64, s: seq<bv8>, k: nat)
    requires k < |s| && First(w) == s[k] && Spells(Up(w), s[k + 1..])
    ensures Spells(w, s[k..])
  {
  }

  lemma {:induction false} SpellsOne(w: u64, s: seq<bv8>, s': seq<bv8>)
    requires |s| == |s'| && Spells(w, s) && Spells(w, s')
    ensures s == s'
    decreases |s|
  {
    hide First, Up;
    if s != [] {
      SpellsOne(Up(w), s[1..], s'[1..]);
      assert s == [s[0]] + s[1..] && s' == [s'[0]] + s'[1..];
    }
  }

  /** Any eight bytes are the bytes of a word. */
  lemma WordOf(s: seq<bv8>) returns (w: u64)
    requires |s| == 8
    ensures Spells(w, s)
  {
    hide Up, First, Word, Spells;
    var a, b, c, d := s[0], s[1], s[2], s[3];
    var e, f, g, h := s[4], s[5], s[6], s[7];
    w := Word(a, b, c, d, e, f, g, h);
    WordUp(a, b, c, d, e, f, g, h);
    WordUp(b, c, d, e, f, g, h, 0);
    WordUp(c, d, e, f, g, h, 0, 0);
    WordUp(d, e, f, g, h, 0, 0, 0);
    WordUp(e, f, g, h, 0, 0, 0, 0);
    WordUp(f, g, h, 0, 0, 0, 0, 0);
    WordUp(g, h, 0, 0, 0, 0, 0, 0);
    WordUp(h, 0, 0, 0, 0, 0, 0, 0);
    SpellsNone(Word(0, 0, 0, 0, 0, 0, 0, 0), s);
    SpellsFrom(Word(h, 0, 0, 0, 0, 0, 0, 0), s, 7);
    SpellsFrom(Word(g, h, 0, 0, 0, 0, 0, 0), s, 6);
    SpellsFrom(Word(f, g, h, 0, 0, 0, 0, 0), s, 5);
    SpellsFrom(Word(e, f, g, h, 0, 0, 0, 0), s, 4);
    SpellsFrom(Word(d, e, f, g, h, 0, 0, 0), s, 3);
    SpellsFrom(Word(c, d, e, f, g, h, 0, 0), s, 2);
    SpellsFrom(Word(b, c, d, e, f, g, h, 0), s, 1);
    SpellsFrom(w, s, 0);
    assert s[0..] == s;
  }

  lemma NextBits(x: bv8)
    requires x != 255
    ensures (x + 1) as nat == x as nat + 1
  {
  }

  lemma Topmost(x: bv8)
    requires x as nat < 255
    ensures x != 255
  {
  }

  /** Every number below 256 is that of some eight bits. */
  lemma {:induction false} BitsFor(b: nat) returns (x: bv8)
    requires b < 256
    ensures x as nat == b
  {
    if b == 0 {
      x := 0;
    } else {
      x := BitsFor(b - 1);
      Topmost(x);
      NextBits(x);
      x := x + 1;
    }
  }

  lemma ByteBack(b: nat)
    requires b < 256
    ensures (b as bv8) as nat == b
  {
    var x := BitsFor(b);
    RoundByte(x);
  }

  lemma BitsInjective(a: seq<byte>, b: seq<byte>)
    requires Bits(a) == Bits(b)
    ensures a == b
  {
    forall k | 0 <= k < |a| && k < |b| ensures a[k] == b[k] {
      assert Bits(a)[k] == Bits(b)[k];
      ByteBack(a[k]);
      ByteBack(b[k]);
    }
    assert |Bits(a)| == |Bits(b)|;
  }

  lemma EightApart(x: u64, a: seq<byte>, b: seq<byte>)
    requires |a| == |b| == 8 && Remainder(x, a) == Remainder(x, b)
    ensures a == b
  {
    hide Remainder, Shift8, Xor, Advance, Behind, Spells, Bits;
    BitsLength(a);
    BitsLength(b);
    var v := WordOf(Bits(a));
    var w := WordOf(Bits(b));
    TakenAtOnce(x, v, a);
    TakenAtOnce(x, w, b);
    NothingBehind(v);
    NothingBehind(w);
    AdvanceInjective(Xor(x, v), Xor(x, w), 8);
    XorSwap(x, v);
    XorSwap(x, w);
    XorCancel(v, w, x);
    SpellsOne(v, Bits(a), Bits(b));
    BitsInjective(a, b);
  }

  lemma BitsLength(a: seq<byte>)
    ensures |Bits(a)| == |a|
  {
  }

  lemma {:induction false} RemainderAppend(x: u64, a: seq<byte>, b: seq<byte>)
    ensures Remainder(x, a + b) == Remainder(Remainder(x, a), b)
    decreases |a|
  {
    hide Shift8, Lead, Xor;
    if a == [] {
      assert a + b == b;
    } else {
      RemainderAppend(Shift8(Xor(x, Lead(a[0]))), a[1..], b);
      assert (a + b)[1..] == a[1..] + b;
    }
  }

  lemma UpToEightApart(x: u64, a: seq<byte>, b: seq<byte>)
    requires |a| == |b| <= 8 && Remainder(x, a) == Remainder(x, b)
    ensures a == b
  {
    hide Remainder;
    var pad: seq<byte> := seq(8 - |a|, _ => 0);
    RemainderAppend(x, a, pad);
    RemainderAppend(x, b, pad);
    EightApart(x, a + pad, b + pad);
    assert a == (a + pad)[..|a|] && b == (b + pad)[..|b|];
  }

  /** A change within eight neighbouring bytes changes the checksum, whatever stands around them. */
  lemma BurstNoticed(table: CrcTable, crc: u64, before: seq<byte>, a: seq<byte>, b: seq<byte>, after: seq<byte>)
    requires IsCrcTable(table) && |a| == |b| <= 8 && a != b
    ensures Crc(table, crc, before + a + after) != Crc(table, crc, before + b + after)
  {
    hide Crc, Remainder, IsCrcTable;
    CrcIsRemainder(table, crc, before + a + after);
    CrcIsRemainder(table, crc, before + b + after);
    RemainderAppend(crc, before + a, after);
    RemainderAppend(crc, before, a);
    RemainderAppend(crc, before + b, after);
    RemainderAppend(crc, before, b);
    var x := Remainder(crc, before);
    if Remainder(x, a) == Remainder(x, b) { UpToEightApart(x, a, b); }
    StaysApart(Remainder(x, a), Remainder(x, b), after);
  }
}
