/** The mask of a gc type says which words of an element are references. It has 64 bits to a word,
  * but the loops that scan it test bit i of a word with `1 << i`, an int of 32 bits. */
module Masks {
  /** A mask that the loops read right. */
  type Mask = m: seq<bool> | |m| <= 32

  /** Where the word of a slot begins. */
  function First(slot: nat): nat {
    slot / 64 * 64
  }

  predicate AnyFrom(mask: seq<bool>, from: nat, to: nat) {
    exists j :: from <= j < to && j < |mask| && mask[j]
  }

  /** What the loops find for a slot: the processor shifts by the slot modulo 32, and bit 31 is the
    * sign, which is widened over all bits from 31 to 63. */
  predicate Tested(mask: seq<bool>, slot: nat)
    requires slot < |mask|
  {
    var first, bit := First(slot), slot % 32;
    FirstBelow(slot);
    if bit < 31 then mask[first + bit] else AnyFrom(mask, first + 31, first + 64)
  }

  lemma FirstBelow(slot: nat)
    ensures First(slot) + slot % 32 <= slot < First(slot) + 64
    ensures slot == First(slot) + slot % 32 || slot == First(slot) + 32 + slot % 32
  {
  }

  lemma TestedRight(mask: seq<bool>, slot: nat)
    requires slot < |mask| <= 32
    ensures Tested(mask, slot) == mask[slot]
  {
    assert First(slot) == 0;
  }

  /** The upper half of a word of the mask. */
  predicate Upper(slot: nat) {
    slot % 64 >= 32
  }

  lemma LowerOf(i: nat)
    requires Upper(i)
    ensures i >= 32 && First(i - 32) == First(i) && (i - 32) % 32 == i % 32 && !Upper(i - 32)
    ensures First(i) + 32 <= i < First(i) + 64 && First(First(i) + 31) == First(i) && (First(i) + 31) % 32 == 31
  {
  }

  /** The upper half of each word of the mask repeats the lower one, and its bits are covered by
    * bit 31. */
  predicate Repeats(mask: seq<bool>) {
    forall i :: 0 <= i < |mask| && Upper(i) ==> RepeatsAt(mask, i)
  }

  predicate RepeatsAt(mask: seq<bool>, i: nat)
    requires i < |mask| && Upper(i)
  {
    LowerOf(i);
    mask[i] == mask[i - 32] && (mask[i] ==> mask[First(i) + 31])
  }

  predicate AllRight(mask: seq<bool>) {
    forall slot :: 0 <= slot < |mask| ==> Tested(mask, slot) == mask[slot]
  }

  /** The loops read a mask right exactly when it repeats so, as any mask of 32 slots does. */
  lemma ReadRight(mask: seq<bool>)
    ensures AllRight(mask) <==> Repeats(mask)
    ensures |mask| <= 32 ==> Repeats(mask)
  {
    if Repeats(mask) {
      forall slot | 0 <= slot < |mask| ensures Tested(mask, slot) == mask[slot] {
        RepeatsRight(mask, slot);
      }
    }
    if AllRight(mask) {
      forall i | 0 <= i < |mask| && Upper(i) ensures RepeatsAt(mask, i) {
        RightRepeats(mask, i);
      }
    }
  }

  lemma RepeatsRight(mask: seq<bool>, slot: nat)
    requires Repeats(mask) && slot < |mask|
    ensures Tested(mask, slot) == mask[slot]
  {
    hide First;
    FirstBelow(slot);
    if Upper(slot) {
      LowerOf(slot);
      assert RepeatsAt(mask, slot);
    }
    LowerIs(slot);
    if slot % 32 == 31 {
      CoveredBy31(mask, First(slot));
    }
  }

  /** A slot in the lower half is where its bit is. */
  lemma LowerIs(slot: nat)
    ensures !Upper(slot) ==> slot == First(slot) + slot % 32
    ensures Upper(slot) ==> slot - 32 == First(slot) + slot % 32
    ensures First(slot) % 64 == 0
  {
    var r := slot % 64;
    assert slot == First(slot) + r;
    assert slot % 32 == if r < 32 then r else r - 32;
  }

  lemma CoveredBy31(mask: seq<bool>, first: nat)
    requires Repeats(mask) && first % 64 == 0 && first + 31 < |mask|
    ensures AnyFrom(mask, first + 31, first + 64) == mask[first + 31]
  {
    forall j | first + 31 <= j < first + 64 && j < |mask| && mask[j] ensures mask[first + 31] {
      if j > first + 31 {
        UpperIn(first, j);
        assert RepeatsAt(mask, j);
      }
    }
  }

  lemma UpperIn(first: nat, j: nat)
    requires first % 64 == 0 && first + 31 < j < first + 64
    ensures Upper(j) && First(j) == first
  {
  }

  lemma RightRepeats(mask: seq<bool>, i: nat)
    requires AllRight(mask) && i < |mask| && Upper(i)
    ensures RepeatsAt(mask, i)
  {
    LowerOf(i);
    var last := First(i) + 31;
    assert Tested(mask, i) == mask[i] && Tested(mask, i - 32) == mask[i - 32] && Tested(mask, last) == mask[last];
    SameTest(mask, i);
    if mask[i] { SignTest(mask, i); }
  }

  /** The two halves of a word are tested alike. */
  lemma SameTest(mask: seq<bool>, i: nat)
    requires i < |mask| && Upper(i)
    ensures i >= 32 && Tested(mask, i) == Tested(mask, i - 32)
  {
    LowerOf(i);
    hide First, Upper, AnyFrom;
  }

  /** Bit 31 is found set when any bit above it is. */
  lemma SignTest(mask: seq<bool>, i: nat)
    requires i < |mask| && Upper(i) && mask[i]
    ensures First(i) + 31 < |mask| && Tested(mask, First(i) + 31)
  {
    LowerOf(i);
    assert AnyFrom(mask, First(i) + 31, First(i) + 64);
  }

  /** An element of 33 words whose last one is its only reference: the loops take word 31 for a
    * reference, and the last one for none. */
  lemma LongMask()
    ensures var mask := seq(33, i => i == 32);
      !mask[31] && Tested(mask, 31) && mask[32] && !Tested(mask, 32)
  {
    var mask := seq(33, i => i == 32);
    assert mask[32] && First(31) == 0 && First(32) == 0;
  }
}
