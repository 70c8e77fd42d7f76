/** Sizes of persistent blocks: powers of two on 64 bits, and on 32 bits a power of two plus a
  * smaller one. */
module SizeClasses {
  import opened Powers

  /** The number of bits of `n`. */
  function BitWidth(n: nat): nat {
    if n == 0 then 0 else 1 + BitWidth(n / 2)
  }

  lemma {:induction false} BitWidthBounds(n: nat)
    ensures n < Pow2(BitWidth(n))
    ensures n > 0 ==> BitWidth(n) > 0 && Pow2(BitWidth(n) - 1) <= n
  {
    if n > 0 {
      BitWidthBounds(n / 2);
    }
  }

  lemma {:induction false} PowGrows(j: nat, k: nat)
    requires j < k
    ensures 2 * Pow2(j) <= Pow2(k)
  {
    if j + 1 < k {
      PowGrows(j, k - 1);
    }
  }

  lemma {:induction false} WidthAbove(n: nat, k: nat)
    requires n >= Pow2(k)
    ensures BitWidth(n) > k
  {
    if k > 0 { WidthAbove(n / 2, k - 1); }
  }

  lemma {:induction false} WidthAtMost(n: nat, k: nat)
    requires n < Pow2(k)
    ensures BitWidth(n) <= k
  {
    if k > 0 { WidthAtMost(n / 2, k - 1); }
  }

  /** The width is the only one between these powers. */
  lemma BitWidthIs(n: nat, k: nat)
    requires k > 0 && Pow2(k - 1) <= n < Pow2(k)
    ensures BitWidth(n) == k
  {
    WidthAbove(n, k - 1);
    WidthAtMost(n, k);
  }

  // ------------------------------------------------------------------------------------------
  // 64 bits
  // ------------------------------------------------------------------------------------------

  function SlotOfSize(size: nat): nat {
    BitWidth((if size < 8 then 8 else size) - 1)
  }

  /** `1 << slot` on an int: the processor takes the count modulo 32, and bit 31 is the sign,
    * which is widened to the 64 bits of a size. */
  function SizeOfSlot(slot: nat): nat {
    if slot % 32 == 31 then 0xFFFF_FFFF_8000_0000 else Pow2(slot % 32)
  }

  lemma {:induction false} PowSum(j: nat, k: nat)
    ensures Pow2(j + k) == Pow2(j) * Pow2(k)
  {
    if k > 0 {
      PowSum(j, k - 1);
      assert Pow2(j) * (2 * Pow2(k - 1)) == 2 * (Pow2(j) * Pow2(k - 1));
    }
  }

  lemma PowersTo32()
    ensures Pow2(30) == 0x4000_0000 && Pow2(31) == 0x8000_0000 && Pow2(32) == 0x1_0000_0000
  {
    assert Pow2(8) == 0x100;
    PowSum(8, 8);
    PowSum(16, 16);
    assert Pow2(32) == 2 * Pow2(31) && Pow2(31) == 2 * Pow2(30);
  }

  lemma PowersTo64()
    ensures Pow2(63) == 0x8000_0000_0000_0000 && Pow2(64) == 0x1_0000_0000_0000_0000
  {
    PowersTo32();
    PowSum(32, 32);
    assert Pow2(64) == 2 * Pow2(63);
  }

  /** The power of no slot is the size that a shift into the sign gives. */
  lemma NotThatPower(slot: nat)
    ensures Pow2(slot) != 0xFFFF_FFFF_8000_0000
  {
    PowersTo64();
    if slot < 63 {
      PowGrows(slot, 63);
    } else if slot > 64 {
      PowGrows(64, slot);
    }
  }

  lemma SmallerPower(k: nat, slot: nat)
    requires k < 31 < slot
    ensures Pow2(k) < Pow2(slot)
  {
    PowGrows(k, 31);
    PowGrows(31, slot);
  }

  /** A size of 64 bits is the power of two exactly up to slot 30. */
  lemma ShiftIsPower(slot: nat)
    ensures SizeOfSlot(slot) == Pow2(slot) <==> slot <= 30
  {
    var k := slot % 32;
    if slot <= 30 {
      assert k == slot;
    } else if k == 31 {
      NotThatPower(slot);
    } else {
      SmallerPower(k, slot);
    }
  }

  lemma SlotCovers(size: nat)
    ensures SlotOfSize(size) >= 3 && Pow2(SlotOfSize(size)) >= size
  {
    var n := (if size < 8 then 8 else size) - 1;
    BitWidthBounds(n);
    assert Pow2(2) == 4;
    WidthAbove(n, 2);
  }

  lemma SmallerSlot(size: nat, k: nat)
    requires 3 <= k < SlotOfSize(size)
    ensures Pow2(k) < size
  {
    var n := (if size < 8 then 8 else size) - 1;
    if Pow2(k) > n { WidthAtMost(n, k); }
    assert Pow2(3) == 8;
    if k > 3 { PowGrows(3, k); }
  }

  /** The slot of a size is the least one whose power of two covers the size and can hold a link. */
  lemma SlotIsLeast(size: nat)
    ensures SlotOfSize(size) >= 3 && Pow2(SlotOfSize(size)) >= size
    ensures forall k :: 3 <= k < SlotOfSize(size) ==> Pow2(k) < size
    ensures SlotOfSize(Pow2(SlotOfSize(size))) == SlotOfSize(size)
  {
    SlotCovers(size);
    forall k | 3 <= k < SlotOfSize(size) ensures Pow2(k) < size {
      SmallerSlot(size, k);
    }
    SlotOfPower(SlotOfSize(size));
  }

  lemma SlotOfPower(k: nat)
    requires k >= 3
    ensures SlotOfSize(Pow2(k)) == k
  {
    assert Pow2(3) == 8;
    if k > 3 { PowGrows(3, k); }
    BitWidthIs(Pow2(k) - 1, k);
  }

  /** The size that the allocator computes is that power exactly for requests up to a gigabyte. */
  lemma ExactUpToAGigabyte(size: nat)
    ensures SizeOfSlot(SlotOfSize(size)) == Pow2(SlotOfSize(size)) <==> size <= 0x4000_0000
    ensures SlotOfSize(size) <= 30 <==> size <= 0x4000_0000
  {
    hide SizeOfSlot;
    ShiftIsPower(SlotOfSize(size));
    UpToAGigabyte((if size < 8 then 8 else size) - 1);
  }

  lemma UpToAGigabyte(n: nat)
    ensures BitWidth(n) <= 30 <==> n < 0x4000_0000
  {
    PowersTo32();
    if n < 0x4000_0000 { WidthAtMost(n, 30); } else { WidthAbove(n, 30); }
  }

  // ------------------------------------------------------------------------------------------
  // 32 bits
  // ------------------------------------------------------------------------------------------

  /** The cell of the free table that a size belongs to. */
  datatype SizeInfo = SizeInfo(main: nat, remainder: nat)

  function BitSize(size: nat): nat
    requires size > 0
  {
    BitWidth(size - 1)
  }

  function Pow2Size(size: nat): nat
    requires size > 0
  {
    Pow2(BitSize((size + 3) / 4 * 4))
  }

  /** The size that is allocated for a request, and its cell. */
  function ObjSize(size: nat): (nat, SizeInfo)
    requires size > 0
  {
    var pow2 := Pow2Size(size);
    var bits := BitSize(size);
    if pow2 > size && bits > 8 then
      BitSizeBounds(size);
      var main := Pow2(bits - 1);
      var remainder := Pow2Size(size - main);
      if main != remainder then (main + remainder, SizeInfo(bits - 1, BitSize(remainder)))
      else (pow2, SizeInfo(bits, 0))
    else (pow2, SizeInfo(bits, 0))
  }

  /** The size of the blocks in a cell. */
  function CellSize(info: SizeInfo): nat {
    if info.remainder == 0 then if info.main < 2 then 4 else Pow2(info.main)
    else Pow2(info.main) + Pow2(info.remainder)
  }

  lemma BitSizeBounds(size: nat)
    requires size > 0
    ensures size <= Pow2(BitSize(size)) && (size > 1 ==> BitSize(size) > 0 && Pow2(BitSize(size) - 1) < size)
  {
    BitWidthBounds(size - 1);
  }

  /** Rounding up to a multiple of four changes the power of two only below four. */
  lemma Pow2SizeIs(size: nat)
    requires size > 0
    ensures Pow2Size(size) == if size <= 4 then 4 else Pow2(BitSize(size))
    ensures size <= Pow2Size(size) && Pow2Size(size) >= 4 && (size > 4 ==> Pow2Size(size) < 2 * size)
  {
    var rounded := (size + 3) / 4 * 4;
    assert Pow2(2) == 4 && Pow2(3) == 8;
    if size <= 4 {
      assert rounded == 4;
      assert BitWidth(3) == 2 by { BitWidthIs(3, 2); }
    } else {
      var k := BitSize(size);
      BitSizeBounds(size);
      WidthAbove(size - 1, 2);
      MultipleOfFour(k);
      assert rounded <= Pow2(k);
      BitWidthIs(rounded - 1, k);
    }
  }

  lemma {:induction false} MultipleOfFour(k: nat)
    requires k >= 2
    ensures Pow2(k) % 4 == 0
  {
  }

  lemma BitSizeOfPower(k: nat)
    ensures BitSize(Pow2(k)) == k
  {
    if k > 0 {
      BitWidthIs(Pow2(k) - 1, k);
    }
  }

  lemma PowAtLeast(bits: nat)
    requires bits > 8
    ensures Pow2(bits - 1) >= 256 && Pow2(bits) == 2 * Pow2(bits - 1)
  {
    assert Pow2(8) == 256;
    if bits > 9 { PowGrows(8, bits - 1); }
  }

  /** The size that is allocated depends on the cell alone, covers the request, and wastes at
    * most a third of it above 256 bytes, and less than the request itself below. */
  lemma CellDeterminesSize(size: nat)
    requires size > 0
    ensures var (n, info) := ObjSize(size);
      && n == CellSize(info) && size <= n
      && (size > 256 ==> 3 * n <= 4 * size)
      && (size > 4 ==> n < 2 * size)
  {
    var bits := BitSize(size);
    BitSizeBounds(size);
    Pow2SizeIs(size);
    assert Pow2(8) == 256 && Pow2(2) == 4;
    if size > 256 {
      WidthAbove(size - 1, 8);
    }
    if bits > 8 {
      PowAtLeast(bits);
      if Pow2Size(size) > size {
        RemainderFits(size, bits);
      } else {
        assert Pow2Size(size) == size;
      }
    } else {
      if size <= 4 {
        SmallBits(size);
      } else {
        WidthAbove(size - 1, 2);
      }
    }
  }

  lemma SmallBits(size: nat)
    requires 0 < size <= 4
    ensures BitSize(size) == if size == 1 then 0 else if size == 2 then 1 else 2
  {
  }

  lemma RemainderFits(size: nat, bits: nat)
    requires size > 0 && bits == BitSize(size) && bits > 8 && Pow2Size(size) > size
    ensures var (n, info) := ObjSize(size); n == CellSize(info) && size <= n && 3 * n <= 4 * size
  {
    PowAtLeast(bits);
    BitSizeBounds(size);
    Pow2SizeIs(size);
    var main := Pow2(bits - 1);
    var remainder := Pow2Size(size - main);
    Pow2SizeIs(size - main);
    if main != remainder {
      RemainderBits(size - main, bits - 1);
    }
  }

  /** The remainder is a smaller power of two, so that its bits tell its size. */
  lemma RemainderBits(rest: nat, k: nat)
    requires 0 < rest && rest <= Pow2(k) && k >= 8 && Pow2Size(rest) != Pow2(k)
    ensures Pow2Size(rest) < Pow2(k) && BitSize(Pow2Size(rest)) > 0
    ensures Pow2(BitSize(Pow2Size(rest))) == Pow2Size(rest)
  {
    Pow2SizeIs(rest);
    BitSizeBounds(rest);
    assert Pow2(2) == 4;
    PowGrows(2, k);
    if rest <= 4 {
      BitSizeOfPower(2);
    } else {
      var r := BitSize(rest);
      BitSizeOfPower(r);
      WidthAtMost(rest - 1, k);
      if r < k { PowGrows(r, k); }
    }
  }

  /** A block that was freed can serve any request of its cell. */
  lemma ReuseIsLargeEnough(freed: nat, requested: nat)
    requires freed > 0 && requested > 0 && ObjSize(freed).1 == ObjSize(requested).1
    ensures ObjSize(freed).0 == ObjSize(requested).0 >= requested
  {
    CellDeterminesSize(freed);
    CellDeterminesSize(requested);
  }
}
