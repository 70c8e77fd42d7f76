/** The scan of an object for live references, as the copying loops write it. */
module Scanning {
  import opened Heap
  import opened Masks
  import opened Interning

  /** The worklist once the first `n` words of an object have been scanned. */
  ghost function Scanned(st: seq<Entry>, v: Addr, r: Addr, ty: GcType, words: seq<Addr>, n: nat): seq<Entry>
    requires n <= |words|
  {
    st + Pushes(v, r, LiveIndices(ty, words, n))
  }

  lemma ScannedNext(st: seq<Entry>, v: Addr, r: Addr, ty: GcType, words: seq<Addr>, i: nat)
    requires i < |words|
    ensures Scanned(st, v, r, ty, words, i + 1)
         == if CountedAt(ty, i) && words[i] != NULL
            then Scanned(st, v, r, ty, words, i) + [Entry(Field(v, i), Field(r, i))]
            else Scanned(st, v, r, ty, words, i)
  {
    var idx := LiveIndices(ty, words, i);
    assert idx + [] == idx;
    assert Pushes(v, r, idx + [i]) == Pushes(v, r, idx) + [Entry(Field(v, i), Field(r, i))];
  }

  lemma {:induction false} ScannedNone(st: seq<Entry>, v: Addr, r: Addr, ty: GcType, words: seq<Addr>, n: nat)
    requires n <= |words| && (ty.epointer || !ty.refsHint || n == 0)
    ensures Scanned(st, v, r, ty, words, n) == st
  {
    if n != 0 {
      ScannedNone(st, v, r, ty, words, n - 1);
      ScannedNext(st, v, r, ty, words, n - 1);
    }
  }

  /** The mask loop over one element, whose first word is word `base`. */
  method ScanElement(ghost st0: seq<Entry>, st1: seq<Entry>, v: Addr, r: Addr, ty: GcType, words: seq<Addr>,
                     base: nat, ghost element: nat)
    returns (st: seq<Entry>)
    requires base == Span(element, |ty.mask|) && base + |ty.mask| <= |words| && !ty.epointer && ty.refsHint
    requires st1 == Scanned(st0, v, r, ty, words, base)
    ensures st == Scanned(st0, v, r, ty, words, base + |ty.mask|)
  {
    hide Scanned, RefAt, Tested;
    st := st1;
    var slot := 0;
    while slot < |ty.mask|
      invariant slot <= |ty.mask| && st == Scanned(st0, v, r, ty, words, base + slot)
    {
      ElementMask(ty, element, slot);
      ScannedNext(st0, v, r, ty, words, base + slot);
      if Tested(ty.mask, slot) && words[base + slot] != NULL {
        st := st + [Entry(Field(v, base + slot), Field(r, base + slot))];
      }
      slot := slot + 1;
    }
  }

  /** The scan in SKIP_intern_obj: one worklist entry for each live counted word. */
  method ScanForCopy(st0: seq<Entry>, v: Addr, r: Addr, ty: GcType, len: nat, words: seq<Addr>)
    returns (st: seq<Entry>)
    requires |words| == Span(len, |ty.mask|)
    ensures st == Scanned(st0, v, r, ty, words, |words|)
  {
    hide Scanned, RefAt, Tested;
    st := st0;
    if ty.epointer || !ty.refsHint {
      ScannedNone(st0, v, r, ty, words, |words|);
      return;
    }
    ScannedNone(st0, v, r, ty, words, 0);
    var head, element := 0, 0;
    while element < len
      invariant element <= len && head == Span(element, |ty.mask|) <= |words|
      invariant st == Scanned(st0, v, r, ty, words, head)
    {
      SpanGrows(element + 1, len, |ty.mask|);
      st := ScanElement(st0, st, v, r, ty, words, head, element);
      head, element := head + |ty.mask|, element + 1;
    }
  }
}
