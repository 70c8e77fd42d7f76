/** The hash of a heap value. A worklist walks the graph; the result depends on the unfolded
  * tree only, not on where its cells lie or how they are shared. */
module Hashing {
  import opened Heap
  import opened Masks
  import opened Comparing
  import opened Checksum

  const CRC_INIT: u64 := 23

  /** The eight bytes of a word, least significant first. */
  function WordBytes(w: int): seq<byte> {
    LowBytes(w % 0x1_0000_0000_0000_0000, 8)
  }

  function LowBytes(w: nat, n: nat): seq<byte> {
    if n == 0 then [] else [w % 256] + LowBytes(w / 256, n - 1)
  }

  // ------------------------------------------------------------------------------------------
  // The hash of a tree
  // ------------------------------------------------------------------------------------------

  /** The raw fields among the first `n`, hashed in order. */
  function RawHash(table: CrcTable, t: Tree, n: nat): u64
    requires t.Record? && n <= |t.fields|
  {
    if n == 0 then CRC_INIT
    else
      var crc := RawHash(table, t, n - 1);
      if t.fields[n - 1].Raw? then Crc(table, crc, WordBytes(t.fields[n - 1].w)) else crc
  }

  /** The hash of one node, without its children. */
  function NodeHash(table: CrcTable, t: Tree): u64 {
    match t
    case Null => 0
    case Text(bytes) => Crc(table, CRC_INIT, bytes)
    case Record(ty, _, fields) => Crc(table, RawHash(table, t, |fields|), WordBytes(ty.id))
  }

  /** Node first, then the children that are not null, the last one first. */
  function TreeHash(table: CrcTable, crc: u64, t: Tree): u64
    decreases t, 1, 0
  {
    var here := Crc(table, crc, WordBytes(NodeHash(table, t) as int));
    if t.Record? then ChildrenHash(table, here, t, |t.fields|) else here
  }

  function ChildrenHash(table: CrcTable, crc: u64, t: Tree, n: nat): u64
    requires t.Record? && n <= |t.fields|
    decreases t, 0, n
  {
    if n == 0 then crc
    else
      var f := t.fields[n - 1];
      ChildrenHash(table, if f.Sub? && !f.t.Null? then TreeHash(table, crc, f.t) else crc, t, n - 1)
  }

  /** The hash of a value on its own. */
  function HashOf(table: CrcTable, t: Tree): u64 {
    TreeHash(table, CRC_INIT, t)
  }

  // ------------------------------------------------------------------------------------------
  // The worklist
  // ------------------------------------------------------------------------------------------

  ghost predicate Finites(h: map<Addr, Cell>, st: seq<Addr>) {
    forall k :: 0 <= k < |st| ==> Finite(h, st[k])
  }

  /** What the loop still does to `crc` when `st` waits. */
  ghost function Rest(h: map<Addr, Cell>, table: CrcTable, crc: u64, st: seq<Addr>): u64
    requires Finites(h, st)
    decreases |st|
  {
    if st == [] then crc
    else Rest(h, table, TreeHash(table, crc, Unfold(h, st[|st| - 1])), st[..|st| - 1])
  }

  ghost function Weight(h: map<Addr, Cell>, st: seq<Addr>): nat
    requires Finites(h, st)
  {
    if st == [] then 0 else Weight(h, st[..|st| - 1]) + Size(Unfold(h, st[|st| - 1]))
  }

  /** The references among the first `n` words that are not null. */
  function Children(ty: GcType, words: seq<Addr>, n: nat): seq<Addr>
    requires n <= |words|
  {
    if n == 0 then []
    else Children(ty, words, n - 1) + if RefAt(ty, n - 1) && words[n - 1] != NULL then [words[n - 1]] else []
  }

  lemma SnocRest(h: map<Addr, Cell>, table: CrcTable, st: seq<Addr>, a: Addr)
    requires Finites(h, st) && Finite(h, a)
    ensures Finites(h, st + [a]) && Weight(h, st + [a]) == Weight(h, st) + Size(Unfold(h, a))
    ensures forall crc :: Rest(h, table, crc, st + [a]) == Rest(h, table, TreeHash(table, crc, Unfold(h, a)), st)
  {
  }

  lemma NullUnfold(h: map<Addr, Cell>, a: Addr)
    requires Finite(h, a)
    ensures Unfold(h, a).Null? <==> a == NULL
  {
  }

  /** Pushing the children of an object makes the loop hash them as ChildrenHash does. */
  lemma {:induction false} ChildrenRest(h: map<Addr, Cell>, table: CrcTable, crc: u64, st: seq<Addr>, a: Addr, n: nat)
    requires Finites(h, st) && Finite(h, a) && a != NULL && a in h && h[a].Object? && h[a].vtable.Type?
    requires n <= |h[a].words|
    ensures var t, st' := Unfold(h, a), st + Children(h[a].vtable.ty, h[a].words, n);
      && t.Record? && |t.fields| == |h[a].words| && Finites(h, st')
      && Rest(h, table, crc, st') == Rest(h, table, ChildrenHash(table, crc, t, n), st)
      && Weight(h, st') <= Weight(h, st) + FieldsSize(t, n)
    decreases n
  {
    hide TreeHash, Denotes, Clean, Finites, Finite, Rest, Weight, Unfold, RefAt;
    ObjectFinite(h, a);
    var ty, words, t := h[a].vtable.ty, h[a].words, Unfold(h, a);
    if n == 0 {
      assert st + Children(ty, words, n) == st;
    } else {
      FieldFinite(h, a, n - 1);
      var before := Children(ty, words, n - 1);
      if RefAt(ty, n - 1) { NullUnfold(h, words[n - 1]); }
      var f := t.fields[n - 1];
      var crc' := if f.Sub? && !f.t.Null? then TreeHash(table, crc, f.t) else crc;
      ChildrenRest(h, table, crc', st, a, n - 1);
      if RefAt(ty, n - 1) && words[n - 1] != NULL {
        SnocRest(h, table, st + before, words[n - 1]);
        assert st + Children(ty, words, n) == st + before + [words[n - 1]];
      } else {
        assert before + [] == before;
      }
    }
  }

  // ------------------------------------------------------------------------------------------
  // The loops
  // ------------------------------------------------------------------------------------------

  /** The bytes of an object without references. */
  function AllBytes(words: seq<Addr>, n: nat): seq<byte>
    requires n <= |words|
  {
    if n == 0 then [] else AllBytes(words, n - 1) + WordBytes(words[n - 1])
  }

  /** What the scan of the first `n` words of an object makes of CRC_INIT. */
  function ScanHash(table: CrcTable, ty: GcType, words: seq<Addr>, n: nat): u64
    requires n <= |words|
  {
    if n == 0 then CRC_INIT
    else if RefAt(ty, n - 1) then ScanHash(table, ty, words, n - 1)
    else Crc(table, ScanHash(table, ty, words, n - 1), WordBytes(words[n - 1]))
  }

  lemma {:induction false} ScanHashRaw(table: CrcTable, ty: GcType, words: seq<Addr>, n: nat)
    requires n <= |words| && !ty.refsHint
    ensures ScanHash(table, ty, words, n) == Crc(table, CRC_INIT, AllBytes(words, n))
    ensures Children(ty, words, n) == []
  {
    hide WordBytes;
    if n != 0 {
      ScanHashRaw(table, ty, words, n - 1);
      CrcAppend(table, CRC_INIT, AllBytes(words, n - 1), WordBytes(words[n - 1]));
    }
  }

  lemma {:induction false} ScanHashIsRawHash(h: map<Addr, Cell>, table: CrcTable, a: Addr, n: nat)
    requires Finite(h, a) && a != NULL && a in h && h[a].Object? && n <= |h[a].words|
    ensures h[a].vtable.Type? && Unfold(h, a).Record? && |Unfold(h, a).fields| == |h[a].words|
    ensures ScanHash(table, h[a].vtable.ty, h[a].words, n) == RawHash(table, Unfold(h, a), n)
  {
    hide Denotes, WordBytes, Crc, Finite, Unfold, RefAt;
    ObjectFinite(h, a);
    if n != 0 {
      ScanHashIsRawHash(h, table, a, n - 1);
      FieldFinite(h, a, n - 1);
    }
  }

  lemma ScanHashNext(table: CrcTable, ty: GcType, words: seq<Addr>, st: seq<Addr>, i: nat)
    requires i < |words|
    ensures ScanHash(table, ty, words, i + 1)
         == if RefAt(ty, i) then ScanHash(table, ty, words, i)
            else Crc(table, ScanHash(table, ty, words, i), WordBytes(words[i]))
    ensures st + Children(ty, words, i + 1)
         == if RefAt(ty, i) && words[i] != NULL then st + Children(ty, words, i) + [words[i]]
            else st + Children(ty, words, i)
  {
    assert Children(ty, words, i) + [] == Children(ty, words, i);
  }

  ghost predicate ScannedTo(table: CrcTable, ty: GcType, words: seq<Addr>, st0: seq<Addr>, n: nat, crc: u64, st: seq<Addr>)
    requires n <= |words|
  {
    crc == ScanHash(table, ty, words, n) && st == st0 + Children(ty, words, n)
  }

  /** The mask loop of sk_hash_obj over one element, whose first word is word `base`. */
  method HashElement(table: CrcTable, ty: GcType, words: seq<Addr>, base: nat, ghost element: nat,
                     ghost st0: seq<Addr>, crc0: u64, st1: seq<Addr>)
    returns (crc: u64, st: seq<Addr>)
    requires base == Span(element, |ty.mask|) && base + |ty.mask| <= |words| && ty.refsHint
    requires ScannedTo(table, ty, words, st0, base, crc0, st1)
    ensures ScannedTo(table, ty, words, st0, base + |ty.mask|, crc, st)
  {
    hide ScanHash, RefAt, Children, Crc, WordBytes;
    crc, st := crc0, st1;
    var slot := 0;
    while slot < |ty.mask|
      invariant slot <= |ty.mask| && ScannedTo(table, ty, words, st0, base + slot, crc, st)
    {
      ElementMask(ty, element, slot);
      ScanHashNext(table, ty, words, st0, base + slot);
      if Tested(ty.mask, slot) {
        if words[base + slot] != NULL {
          st := st + [words[base + slot]];
        }
      } else {
        crc := CrcLoop(table, crc, WordBytes(words[base + slot]));
      }
      slot := slot + 1;
    }
  }

  lemma ScannedStart(table: CrcTable, ty: GcType, words: seq<Addr>, st: seq<Addr>)
    ensures ScannedTo(table, ty, words, st, 0, CRC_INIT, st)
  {
    assert st + [] == st;
  }

  /** The scan of sk_hash_obj. */
  lemma ScannedRaw(table: CrcTable, ty: GcType, words: seq<Addr>, st: seq<Addr>)
    requires !ty.refsHint
    ensures ScannedTo(table, ty, words, st, |words|, Crc(table, CRC_INIT, AllBytes(words, |words|)), st)
  {
    ScanHashRaw(table, ty, words, |words|);
    assert st + [] == st;
  }

  method HashWords(table: CrcTable, ty: GcType, len: nat, words: seq<Addr>, st0: seq<Addr>)
    returns (crc: u64, st: seq<Addr>)
    requires |words| == Span(len, |ty.mask|)
    ensures ScannedTo(table, ty, words, st0, |words|, crc, st)
  {
    hide ScannedTo, Crc;
    if !ty.refsHint {
      ScannedRaw(table, ty, words, st0);
      crc := CrcLoop(table, CRC_INIT, AllBytes(words, |words|));
      st := st0;
      return;
    }
    ScannedStart(table, ty, words, st0);
    crc, st := CRC_INIT, st0;
    var head, element := 0, 0;
    while element < len
      invariant element <= len && head == Span(element, |ty.mask|) <= |words|
      invariant ScannedTo(table, ty, words, st0, head, crc, st)
    {
      SpanGrows(element + 1, len, |ty.mask|);
      crc, st := HashElement(table, ty, words, head, element, st0, crc, st);
      head, element := head + |ty.mask|, element + 1;
    }
  }

  lemma TextUnfold(h: map<Addr, Cell>, a: Addr)
    requires Finite(h, a) && a != NULL
    ensures a in h && Clean(h[a])
    ensures h[a].String? ==> Unfold(h, a) == Text(Bytes(h[a]))
    ensures h[a].Object? ==> Unfold(h, a).Record? && Unfold(h, a).ty == h[a].vtable.ty
  {
  }

  /** What sk_hash_obj pushes for the cell at `a`. */
  function Pushed(h: map<Addr, Cell>, a: Addr): seq<Addr> {
    if a != NULL && a in h && h[a].Object? && h[a].vtable.Type?
    then Children(h[a].vtable.ty, h[a].words, |h[a].words|) else []
  }

  /** sk_hash_obj. */
  method HashCell(h: map<Addr, Cell>, table: CrcTable, st0: seq<Addr>, a: Addr) returns (crc: u64, st: seq<Addr>)
    requires Finite(h, a) && forall b :: b in h ==> b >= 64
    ensures crc == NodeHash(table, Unfold(h, a)) && st == st0 + Pushed(h, a)
  {
    hide Finite, ScanHash, RawHash, Children, WordBytes, Crc, Denotes, Unfold;
    NullUnfold(h, a);
    if a != NULL { TextUnfold(h, a); }
    st := st0;
    assert st0 + [] == st0;
    if a < 64 {
      return a as u64, st;
    }
    if h[a].String? {
      crc := CrcLoop(table, CRC_INIT, h[a].head.chars + h[a].rest);
      return;
    }
    var ty := h[a].vtable.ty;
    crc, st := HashWords(table, ty, h[a].len, h[a].words, st);
    ScanHashIsRawHash(h, table, a, |h[a].words|);
    crc := CrcLoop(table, crc, WordBytes(ty.id));
  }

  /** One turn of SKIP_hash, as seen by what is left to do. */
  lemma TurnRest(h: map<Addr, Cell>, table: CrcTable, crc: u64, st: seq<Addr>)
    requires st != [] && Finites(h, st)
    ensures var a, rest := st[|st| - 1], st[..|st| - 1];
      && Finite(h, a) && Finites(h, rest + Pushed(h, a))
      && var crc' := Crc(table, crc, WordBytes(NodeHash(table, Unfold(h, a)) as int));
         Rest(h, table, crc', rest + Pushed(h, a)) == Rest(h, table, crc, st)
         && Weight(h, rest + Pushed(h, a)) < Weight(h, st)
  {
    hide Denotes, Clean, Crc, WordBytes, NodeHash, Children, Finite, Unfold;
    var a, rest := st[|st| - 1], st[..|st| - 1];
    assert Finite(h, a) && Finites(h, rest);
    NullUnfold(h, a);
    var here := Crc(table, crc, WordBytes(NodeHash(table, Unfold(h, a)) as int));
    if a != NULL {
      TextUnfold(h, a);
      if h[a].Object? {
        ObjectFinite(h, a);
        ChildrenRest(h, table, here, rest, a, |h[a].words|);
        return;
      }
    }
    assert rest + [] == rest;
  }

  /** SKIP_hash: a function of the tree that the argument denotes. */
  method Hash(h: map<Addr, Cell>, table: CrcTable, obj: Addr) returns (crc: u64)
    requires Finite(h, obj) && forall b :: b in h ==> b >= 64
    ensures crc == HashOf(table, Unfold(h, obj))
  {
    hide Finites, Weight, Rest, Finite, Unfold, Pushed, NodeHash, Crc, WordBytes, TreeHash;
    crc := CRC_INIT;
    var st := [obj];
    RestStart(h, table, obj);
    while st != []
      invariant Finites(h, st) && Rest(h, table, crc, st) == HashOf(table, Unfold(h, obj))
      decreases Weight(h, st)
    {
      var a := st[|st| - 1];
      TurnRest(h, table, crc, st);
      st := st[..|st| - 1];
      var newCrc: u64;
      newCrc, st := HashCell(h, table, st, a);
      crc := CrcLoop(table, crc, WordBytes(newCrc as int));
    }
    RestEnd(h, table, crc);
  }

  lemma RestStart(h: map<Addr, Cell>, table: CrcTable, obj: Addr)
    requires Finite(h, obj)
    ensures Finites(h, [obj]) && Rest(h, table, CRC_INIT, [obj]) == HashOf(table, Unfold(h, obj))
  {
    assert [obj][..0] == [];
  }

  lemma RestEnd(h: map<Addr, Cell>, table: CrcTable, crc: u64)
    ensures Finites(h, []) && Rest(h, table, crc, []) == crc
  {
  }

  /** Values that SKIP_isEq finds equal have one hash, in whatever heaps they lie. */
  method EqualHashes(h: map<Addr, Cell>, table: CrcTable, a: Addr, b: Addr) returns (eq: nat, x: u64, y: u64)
    requires Finite(h, a) && Finite(h, b) && forall c :: c in h ==> c >= 64
    ensures eq == 0 ==> x == y
    ensures x == HashOf(table, Unfold(h, a)) && y == HashOf(table, Unfold(h, b))
  {
    eq := IsEq(h, a, b);
    x := Hash(h, table, a);
    y := Hash(h, table, b);
  }

  // ------------------------------------------------------------------------------------------
  // What a hash is bound to notice
  // ------------------------------------------------------------------------------------------

  /** The raw fields among the first `n`, as they lie in memory. */
  function RawBytes(t: Tree, n: nat): seq<byte>
    requires t.Record? && n <= |t.fields|
  {
    if n == 0 then []
    else RawBytes(t, n - 1) + if t.fields[n - 1].Raw? then WordBytes(t.fields[n - 1].w) else []
  }

  /** What a node has of its own: its text, or its raw words and then its type. */
  function NodeBytes(t: Tree): seq<byte>
    requires !t.Null?
  {
    if t.Text? then t.bytes else RawBytes(t, |t.fields|) + WordBytes(t.ty.id)
  }

  lemma {:induction false} RawHashIsCrc(table: CrcTable, t: Tree, n: nat)
    requires t.Record? && n <= |t.fields|
    ensures RawHash(table, t, n) == Crc(table, CRC_INIT, RawBytes(t, n))
  {
    hide WordBytes, CrcByte;
    if n != 0 {
      RawHashIsCrc(table, t, n - 1);
      var here: seq<byte> := if t.fields[n - 1].Raw? then WordBytes(t.fields[n - 1].w) else [];
      CrcAppend(table, CRC_INIT, RawBytes(t, n - 1), here);
    }
  }

  /** The hash of a node is the checksum of its bytes. */
  lemma NodeHashIsCrc(table: CrcTable, t: Tree)
    requires !t.Null?
    ensures NodeHash(table, t) == Crc(table, CRC_INIT, NodeBytes(t))
  {
    hide WordBytes, CrcByte, Crc;
    if t.Record? {
      RawHashIsCrc(table, t, |t.fields|);
      CrcAppend(table, CRC_INIT, RawBytes(t, |t.fields|), WordBytes(t.ty.id));
    }
  }

  /** The hashes of the nodes in the order of the walk, eight bytes for each. */
  function TreeBytes(table: CrcTable, t: Tree): seq<byte>
    decreases t, 1, 0
  {
    WordBytes(NodeHash(table, t) as int) + if t.Record? then ChildBytes(table, t, |t.fields|) else []
  }

  function ChildBytes(table: CrcTable, t: Tree, n: nat): seq<byte>
    requires t.Record? && n <= |t.fields|
    decreases t, 0, n
  {
    if n == 0 then []
    else
      var f := t.fields[n - 1];
      (if f.Sub? && !f.t.Null? then TreeBytes(table, f.t) else []) + ChildBytes(table, t, n - 1)
  }

  /** The hash of a value is the checksum of the hashes of its nodes. */
  lemma {:induction false} HashIsCrc(table: CrcTable, crc: u64, t: Tree)
    ensures TreeHash(table, crc, t) == Crc(table, crc, TreeBytes(table, t))
    decreases t, 1, 0
  {
    hide WordBytes, Crc, NodeHash;
    var here := WordBytes(NodeHash(table, t) as int);
    if t.Record? {
      ChildrenAreCrc(table, Crc(table, crc, here), t, |t.fields|);
      CrcAppend(table, crc, here, ChildBytes(table, t, |t.fields|));
    } else {
      assert here + [] == here;
    }
  }

  lemma {:induction false} ChildrenAreCrc(table: CrcTable, crc: u64, t: Tree, n: nat)
    requires t.Record? && n <= |t.fields|
    ensures ChildrenHash(table, crc, t, n) == Crc(table, crc, ChildBytes(table, t, n))
    decreases t, 0, n
  {
    hide WordBytes, NodeHash, CrcByte;
    if n != 0 {
      var f := t.fields[n - 1];
      if f.Sub? && !f.t.Null? {
        HashIsCrc(table, crc, f.t);
        ChildrenAreCrc(table, TreeHash(table, crc, f.t), t, n - 1);
        CrcAppend(table, crc, TreeBytes(table, f.t), ChildBytes(table, t, n - 1));
      } else {
        ChildrenAreCrc(table, crc, t, n - 1);
        assert [] + ChildBytes(table, t, n - 1) == ChildBytes(table, t, n - 1);
      }
    }
  }

  /** Two byte strings of one length that differ within eight neighbouring bytes only. */
  ghost predicate Near(x: seq<byte>, y: seq<byte>) {
    exists before, a, b, after :: NearAt(x, y, before, a, b, after)
  }

  ghost predicate NearAt(x: seq<byte>, y: seq<byte>, before: seq<byte>, a: seq<byte>, b: seq<byte>, after: seq<byte>) {
    x == before + a + after && y == before + b + after && |a| == |b| <= 8 && a != b
  }

  lemma NearCrc(table: CrcTable, crc: u64, x: seq<byte>, y: seq<byte>)
    requires IsCrcTable(table) && Near(x, y)
    ensures Crc(table, crc, x) != Crc(table, crc, y)
  {
    hide Crc, IsCrcTable;
    var before, a, b, after :| NearAt(x, y, before, a, b, after);
    BurstNoticed(table, crc, before, a, b, after);
  }

  lemma NearAtWithin(before: seq<byte>, x: seq<byte>, y: seq<byte>, after: seq<byte>,
                     p: seq<byte>, a: seq<byte>, b: seq<byte>, q: seq<byte>)
    requires NearAt(x, y, p, a, b, q)
    ensures NearAt(before + x + after, before + y + after, before + p, a, b, q + after)
  {
    assert before + (p + a + q) + after == (before + p) + a + (q + after);
    assert before + (p + b + q) + after == (before + p) + b + (q + after);
  }

  lemma NearWithin(before: seq<byte>, x: seq<byte>, y: seq<byte>, after: seq<byte>)
    requires Near(x, y)
    ensures Near(before + x + after, before + y + after)
  {
    hide NearAt;
    var p, a, b, q :| NearAt(x, y, p, a, b, q);
    NearAtWithin(before, x, y, after, p, a, b, q);
  }

  lemma NearAll(a: seq<byte>, b: seq<byte>)
    requires |a| == |b| <= 8 && a != b
    ensures Near(a, b)
  {
    assert [] + a + [] == a && [] + b + [] == b;
    assert NearAt(a, b, [], a, b, []);
  }

  /** The children of two nodes are the same. */
  ghost predicate SameChildren(t: Tree, u: Tree) {
    && t.Record? == u.Record?
    && (t.Record? ==>
          && |t.fields| == |u.fields|
          && forall i :: 0 <= i < |t.fields| ==>
               t.fields[i].Sub? == u.fields[i].Sub? && (t.fields[i].Sub? ==> t.fields[i] == u.fields[i]))
  }

  /** `u` is `t` with the bytes of one node changed, within eight neighbours of them: a part of a
    * text, a raw word, a type. */
  ghost predicate OneChange(t: Tree, u: Tree)
    decreases t
  {
    || (!t.Null? && !u.Null? && SameChildren(t, u) && Near(NodeBytes(t), NodeBytes(u)))
    || (&& t.Record? && u.Record? && t.ty.id == u.ty.id && |t.fields| == |u.fields|
        && exists k :: && 0 <= k < |t.fields| && t.fields[k].Sub? && u.fields[k].Sub?
                       && OneChange(t.fields[k].t, u.fields[k].t)
                       && forall i :: 0 <= i < |t.fields| && i != k ==> t.fields[i] == u.fields[i])
  }

  lemma LowBytesLength(w: nat, n: nat)
    ensures |LowBytes(w, n)| == n
  {
  }

  lemma {:induction false} LowBytesInjective(v: nat, w: nat, n: nat)
    requires LowBytes(v, n) == LowBytes(w, n) && v < Power256(n) && w < Power256(n)
    ensures v == w
    decreases n
  {
    if n != 0 {
      assert LowBytes(v, n)[0] == v % 256 && LowBytes(w, n)[0] == w % 256;
      assert LowBytes(v, n)[1..] == LowBytes(v / 256, n - 1) && LowBytes(w, n)[1..] == LowBytes(w / 256, n - 1);
      LowBytesInjective(v / 256, w / 256, n - 1);
    }
  }

  function Power256(n: nat): nat {
    if n == 0 then 1 else 256 * Power256(n - 1)
  }

  lemma WordBytesInjective(v: int, w: int)
    ensures |WordBytes(v)| == 8
    ensures WordBytes(v) == WordBytes(w) ==> v % 0x1_0000_0000_0000_0000 == w % 0x1_0000_0000_0000_0000
  {
    hide LowBytes;
    LowBytesLength(v % 0x1_0000_0000_0000_0000, 8);
    assert Power256(8) == 0x1_0000_0000_0000_0000;
    if WordBytes(v) == WordBytes(w) {
      LowBytesInjective(v % 0x1_0000_0000_0000_0000, w % 0x1_0000_0000_0000_0000, 8);
    }
  }

  function Number(x: u64): (n: nat)
    ensures n < 0x1_0000_0000_0000_0000
  {
    x as nat
  }

  function WordFor(n: nat): u64
    requires n < 0x1_0000_0000_0000_0000
  {
    n as u64
  }

  lemma RoundWord(x: u64)
    ensures WordFor(Number(x)) == x
  {
  }

  lemma NumbersNear(x: u64, y: u64)
    requires x != y
    ensures Near(WordBytes(Number(x)), WordBytes(Number(y)))
  {
    hide Number, WordFor, Near, WordBytes;
    RoundWord(x);
    RoundWord(y);
    WordsNear(Number(x), Number(y));
  }

  /** Other hashes have other bytes. */
  lemma HashBytesNear(x: u64, y: u64)
    requires x != y
    ensures Near(WordBytes(x as int), WordBytes(y as int))
  {
    hide WordBytes, Near;
    NumbersNear(x, y);
  }

  lemma {:induction false} SameChildBytes(table: CrcTable, t: Tree, u: Tree, n: nat)
    requires t.Record? && u.Record? && |t.fields| == |u.fields| && n <= |t.fields|
    requires forall i :: 0 <= i < n ==>
      t.fields[i].Sub? == u.fields[i].Sub? && (t.fields[i].Sub? ==> t.fields[i] == u.fields[i])
    ensures ChildBytes(table, t, n) == ChildBytes(table, u, n)
    decreases n
  {
    hide TreeBytes;
    if n != 0 { SameChildBytes(table, t, u, n - 1); }
  }

  lemma {:induction false} SameRawBytes(t: Tree, u: Tree, n: nat)
    requires t.Record? && u.Record? && n <= |t.fields| && n <= |u.fields|
    requires forall i :: 0 <= i < n ==> (t.fields[i] == u.fields[i] || (t.fields[i].Sub? && u.fields[i].Sub?))
    ensures RawBytes(t, n) == RawBytes(u, n)
  {
    hide WordBytes;
    if n != 0 { SameRawBytes(t, u, n - 1); }
  }

  /** A change of a node reaches its hash, and from there the checksum of all. */
  lemma NodeNear(table: CrcTable, t: Tree, u: Tree)
    requires IsCrcTable(table) && !t.Null? && !u.Null? && SameChildren(t, u) && Near(NodeBytes(t), NodeBytes(u))
    ensures Near(TreeBytes(table, t), TreeBytes(table, u))
  {
    hide Crc, IsCrcTable, Near, NodeBytes, NodeHash, WordBytes, ChildBytes;
    NodeHashIsCrc(table, t);
    NodeHashIsCrc(table, u);
    NearCrc(table, CRC_INIT, NodeBytes(t), NodeBytes(u));
    var x, y := WordBytes(NodeHash(table, t) as int), WordBytes(NodeHash(table, u) as int);
    HashBytesNear(NodeHash(table, t), NodeHash(table, u));
    var rest: seq<byte> := if t.Record? then ChildBytes(table, t, |t.fields|) else [];
    if t.Record? { SameChildBytes(table, t, u, |t.fields|); }
    NearWithin([], x, y, rest);
    assert [] + x == x && [] + y == y;
  }

  /** A change below one child leaves the hashes of all others as they are. */
  lemma {:induction false} ChildNear(table: CrcTable, t: Tree, u: Tree, k: nat, n: nat)
    requires t.Record? && u.Record? && |t.fields| == |u.fields| && k < n <= |t.fields|
    requires t.fields[k].Sub? && u.fields[k].Sub? && !t.fields[k].t.Null? && !u.fields[k].t.Null?
    requires Near(TreeBytes(table, t.fields[k].t), TreeBytes(table, u.fields[k].t))
    requires forall i :: 0 <= i < |t.fields| && i != k ==> t.fields[i] == u.fields[i]
    ensures Near(ChildBytes(table, t, n), ChildBytes(table, u, n))
    decreases n
  {
    hide TreeBytes, Near;
    var rest := ChildBytes(table, t, n - 1);
    if k == n - 1 {
      SameChildBytes(table, t, u, n - 1);
      var x, y := TreeBytes(table, t.fields[k].t), TreeBytes(table, u.fields[k].t);
      NearWithin([], x, y, rest);
      assert [] + x == x && [] + y == y;
    } else {
      ChildNear(table, t, u, k, n - 1);
      var f := t.fields[n - 1];
      var first: seq<byte> := if f.Sub? && !f.t.Null? then TreeBytes(table, f.t) else [];
      NearWithin(first, rest, ChildBytes(table, u, n - 1), []);
      assert first + rest + [] == first + rest;
      assert first + ChildBytes(table, u, n - 1) + [] == first + ChildBytes(table, u, n - 1);
    }
  }

  lemma {:induction false} ChangeNear(table: CrcTable, t: Tree, u: Tree)
    requires IsCrcTable(table) && OneChange(t, u)
    ensures !t.Null? && !u.Null? && Near(TreeBytes(table, t), TreeBytes(table, u))
    decreases t
  {
    hide Near, NodeBytes, TreeBytes, ChildBytes, IsCrcTable;
    if !t.Null? && !u.Null? && SameChildren(t, u) && Near(NodeBytes(t), NodeBytes(u)) {
      NodeNear(table, t, u);
    } else {
      var k :| && 0 <= k < |t.fields| && t.fields[k].Sub? && u.fields[k].Sub?
               && OneChange(t.fields[k].t, u.fields[k].t)
               && forall i :: 0 <= i < |t.fields| && i != k ==> t.fields[i] == u.fields[i];
      ChangeNear(table, t.fields[k].t, u.fields[k].t);
      ChildNear(table, t, u, k, |t.fields|);
      BelowNear(table, t, u);
    }
  }

  lemma BelowNear(table: CrcTable, t: Tree, u: Tree)
    requires t.Record? && u.Record? && |t.fields| == |u.fields| && t.ty.id == u.ty.id
    requires forall i :: 0 <= i < |t.fields| ==> (t.fields[i] == u.fields[i] || (t.fields[i].Sub? && u.fields[i].Sub?))
    requires Near(ChildBytes(table, t, |t.fields|), ChildBytes(table, u, |t.fields|))
    ensures Near(TreeBytes(table, t), TreeBytes(table, u))
  {
    hide Near, ChildBytes, WordBytes, NodeHash, Crc;
    SameRawBytes(t, u, |t.fields|);
    NodeHashIsCrc(table, t);
    NodeHashIsCrc(table, u);
    var here := WordBytes(NodeHash(table, t) as int);
    var x, y := ChildBytes(table, t, |t.fields|), ChildBytes(table, u, |u.fields|);
    NearWithin(here, x, y, []);
    assert here + x + [] == here + x && here + y + [] == here + y;
  }

  /** A value and the same with one change, anywhere in its graph, have different hashes. */
  lemma ChangeNoticed(table: CrcTable, t: Tree, u: Tree)
    requires IsCrcTable(table) && OneChange(t, u)
    ensures HashOf(table, t) != HashOf(table, u)
  {
    hide Near, NodeBytes, TreeBytes, IsCrcTable, OneChange, TreeHash, Crc;
    ChangeNear(table, t, u);
    HashIsCrc(table, CRC_INIT, t);
    HashIsCrc(table, CRC_INIT, u);
    NearCrc(table, CRC_INIT, TreeBytes(table, t), TreeBytes(table, u));
  }

  /** Two texts of one length that differ in one byte are a change. */
  lemma TextChange(s: seq<byte>, k: nat, b: byte)
    requires k < |s| && s[k] != b
    ensures OneChange(Text(s), Text(s[k := b]))
  {
    hide NearAt;
    assert s == s[..k] + [s[k]] + s[k + 1..] && s[k := b] == s[..k] + [b] + s[k + 1..];
    assert [s[k]][0] != [b][0];
    NearAll([s[k]], [b]);
    NearWithin(s[..k], [s[k]], [b], s[k + 1..]);
  }

  lemma {:induction false} RawChange(t: Tree, k: nat, w: Addr, n: nat)
    requires t.Record? && k < n <= |t.fields| && t.fields[k].Raw?
    requires t.fields[k].w % 0x1_0000_0000_0000_0000 != w % 0x1_0000_0000_0000_0000
    ensures Near(RawBytes(t, n), RawBytes(t.(fields := t.fields[k := Raw(w)]), n))
  {
    hide WordBytes, Near;
    var u := t.(fields := t.fields[k := Raw(w)]);
    if k == n - 1 {
      SameRawBytes(t, u, k);
      WordsNear(t.fields[k].w, w);
      var x, y := WordBytes(t.fields[k].w), WordBytes(w);
      NearWithin(RawBytes(t, k), x, y, []);
      assert RawBytes(t, k) + x + [] == RawBytes(t, k) + x && RawBytes(t, k) + y + [] == RawBytes(t, k) + y;
    } else {
      RawChange(t, k, w, n - 1);
      var last: seq<byte> := if t.fields[n - 1].Raw? then WordBytes(t.fields[n - 1].w) else [];
      var x, y := RawBytes(t, n - 1), RawBytes(u, n - 1);
      NearWithin([], x, y, last);
      assert [] + x == x && [] + y == y;
    }
  }

  lemma WordsNear(v: Addr, w: Addr)
    requires v % 0x1_0000_0000_0000_0000 != w % 0x1_0000_0000_0000_0000
    ensures Near(WordBytes(v), WordBytes(w))
  {
    hide WordBytes, Near;
    WordBytesInjective(v, w);
    WordBytesInjective(w, v);
    NearAll(WordBytes(v), WordBytes(w));
  }

  /** A raw word that is another word of 64 bits is a change. */
  lemma WordChange(t: Tree, k: nat, w: Addr)
    requires t.Record? && k < |t.fields| && t.fields[k].Raw?
    requires t.fields[k].w % 0x1_0000_0000_0000_0000 != w % 0x1_0000_0000_0000_0000
    ensures OneChange(t, t.(fields := t.fields[k := Raw(w)]))
  {
    hide WordBytes, Near, RawBytes;
    var u := t.(fields := t.fields[k := Raw(w)]);
    RawChange(t, k, w, |t.fields|);
    var x, y := RawBytes(t, |t.fields|), RawBytes(u, |u.fields|);
    NearWithin([], x, y, WordBytes(t.ty.id));
    assert [] + x == x && [] + y == y;
  }

  /** So is another type at another address. */
  lemma TypeChange(t: Tree, ty: GcType)
    requires t.Record? && t.ty.id % 0x1_0000_0000_0000_0000 != ty.id % 0x1_0000_0000_0000_0000
    ensures OneChange(t, t.(ty := ty))
  {
    hide WordBytes, Near, RawBytes;
    var u := t.(ty := ty);
    SameTypeless(t, u, |t.fields|);
    WordsNear(t.ty.id, ty.id);
    var raw, x, y := RawBytes(t, |t.fields|), WordBytes(t.ty.id), WordBytes(ty.id);
    NearWithin(raw, x, y, []);
    assert raw + x + [] == raw + x && raw + y + [] == raw + y;
  }

  lemma SameTypeless(t: Tree, u: Tree, n: nat)
    requires t.Record? && u.Record? && t.fields == u.fields && n <= |t.fields|
    ensures RawBytes(t, n) == RawBytes(u, n)
  {
    SameRawBytes(t, u, n);
  }
}
