/** The memory of the runtime, as its graph algorithms see it: a map from addresses to
  * cells. A cell is an object (gc type, array length, words) or a string. The gc type says
  * which words are references, so that every address denotes at most one finite tree. */
module Heap {
  import opened Masks

  type Addr = nat
  const NULL: Addr := 0

  /** sizeof(void*) of the 64-bit runtime. */
  const WORD := 8
  /** The size that marks a string as already copied: (uint32_t)-1. */
  const MARK := 0xFFFF_FFFF

  type byte = b: nat | b < 256

  /** SKIP_gc_type_t: `mask` has one entry for each word of one element; `refsHint` is bit 0
    * of m_refsHintMask; `epointer` says that this is the type epointer_ty. `id` is its address. */
  datatype GcType = GcType(id: nat, isArray: bool, refsHint: bool, epointer: bool, mask: Mask)

  /** Word `i` is a reference: what copying, equality and hashing scan. */
  predicate RefAt(ty: GcType, i: nat) {
    ty.refsHint && 0 < |ty.mask| && ty.mask[i % |ty.mask|]
  }

  /** Word `i` is a reference that holds a count: what interning and freeing scan. */
  predicate CountedAt(ty: GcType, i: nat) {
    !ty.epointer && RefAt(ty, i)
  }

  /** The word before an object: its vtable, or a forwarding pointer tagged in its lowest bit. */
  datatype VTable = Type(ty: GcType) | Forward(to: Addr)

  /** The first word of a string: characters, or a forwarding pointer written over them. */
  datatype Head = Chars(chars: seq<byte>) | Moved(to: Addr)

  datatype Cell =
    | Object(vtable: VTable, len: nat, words: seq<Addr>)
    | String(hash: nat, size: nat, head: Head, rest: seq<byte>)

  /** A cell that holds no forwarding pointer and whose sizes agree. */
  ghost predicate Clean(c: Cell) {
    match c
    case Object(vt, len, words) =>
      vt.Type? && |words| == Span(len, |vt.ty.mask|) && (vt.ty.isArray || len == 1)
    case String(_, size, head, rest) =>
      && head.Chars? && size < MARK && size == |head.chars| + |rest|
      && |head.chars| <= WORD && (rest != [] ==> |head.chars| == WORD)
  }

  /** The number of words in `k` elements of `m` words: their product, written as a sum. */
  function Span(k: nat, m: nat): nat {
    if k == 0 then 0 else Span(k - 1, m) + m
  }

  lemma {:induction false} SpanIsProduct(k: nat, m: nat)
    ensures Span(k, m) == k * m
  {
    if k != 0 {
      SpanIsProduct(k - 1, m);
      assert k * m == (k - 1) * m + m;
    }
  }

  lemma {:induction false} SpanGrows(j: nat, k: nat, m: nat)
    requires j <= k
    ensures Span(j, m) <= Span(k, m)
  {
    if j < k { SpanGrows(j, k - 1, m); }
  }

  /** The value of a cell graph, unfolded. */
  datatype Tree =
    | Null
    | Text(bytes: seq<byte>)
    | Record(ty: GcType, len: nat, fields: seq<Part>)
  datatype Part = Raw(w: Addr) | Sub(t: Tree)

  /** Address `a` denotes the tree `t`. At most one tree has this property (DenotesUnique),
    * and one has it exactly when no cycle can be reached from `a`. */
  ghost predicate Denotes(h: map<Addr, Cell>, a: Addr, t: Tree)
    decreases t
  {
    match t
    case Null => a == NULL
    case Text(bytes) =>
      && a != NULL && a in h && h[a].String? && Clean(h[a])
      && bytes == Bytes(h[a])
    case Record(ty, len, fields) =>
      && a != NULL && a in h && h[a].Object? && Clean(h[a])
      && h[a].vtable.ty == ty && h[a].len == len && |fields| == |h[a].words|
      && forall i :: 0 <= i < |fields| ==> DenotesPart(h, ty, i, h[a].words[i], fields[i])
  }

  ghost predicate DenotesPart(h: map<Addr, Cell>, ty: GcType, i: nat, w: Addr, f: Part)
    decreases f
  {
    if RefAt(ty, i) then f.Sub? && Denotes(h, w, f.t) else f == Raw(w)
  }

  /** Address `a` of `h` and address `b` of `h'` denote the same tree, or both denote none. */
  ghost predicate SameValue(h: map<Addr, Cell>, a: Addr, h': map<Addr, Cell>, b: Addr) {
    forall t :: Denotes(h, a, t) <==> Denotes(h', b, t)
  }

  lemma SameValueChain(h: map<Addr, Cell>, a: Addr, h': map<Addr, Cell>, b: Addr, h'': map<Addr, Cell>, c: Addr)
    requires SameValue(h, a, h', b) && SameValue(h', b, h'', c)
    ensures SameValue(h, a, h'', c)
  {
  }

  /** The references of `c` stay within `region`. */
  ghost predicate Within(region: set<Addr>, c: Cell) {
    c.Object? && c.vtable.Type? ==>
      forall i :: 0 <= i < |c.words| && RefAt(c.vtable.ty, i) ==> c.words[i] == NULL || c.words[i] in region
  }

  /** Two heaps that agree on a closed region agree on what its addresses denote. */
  lemma {:induction false} RegionDenotes(h: map<Addr, Cell>, h': map<Addr, Cell>, region: set<Addr>, a: Addr, t: Tree)
    requires forall b :: b in region ==> b in h && b in h' && h[b] == h'[b] && Within(region, h[b])
    requires a == NULL || a in region
    ensures Denotes(h, a, t) <==> Denotes(h', a, t)
    decreases t
  {
    if a in region && t.Record? && h[a].Object? && h[a].vtable == Type(t.ty) && |t.fields| == |h[a].words| {
      assert Within(region, h[a]);
      forall i | 0 <= i < |t.fields|
        ensures DenotesPart(h, t.ty, i, h[a].words[i], t.fields[i]) <==> DenotesPart(h', t.ty, i, h[a].words[i], t.fields[i])
      {
        if RefAt(t.ty, i) && t.fields[i].Sub? {
          RegionDenotes(h, h', region, h[a].words[i], t.fields[i].t);
        }
      }
    }
  }

  function Whole(obs: map<Addr, Cell>, cells: map<Addr, Cell>, stat: map<Addr, Cell>): map<Addr, Cell> {
    obs + cells + stat
  }

  lemma {:induction false} DenotesUnique(h: map<Addr, Cell>, a: Addr, t: Tree, u: Tree)
    requires Denotes(h, a, t) && Denotes(h, a, u)
    ensures t == u
    decreases t
  {
    if t.Record? {
      forall i | 0 <= i < |t.fields| ensures t.fields[i] == u.fields[i] {
        assert DenotesPart(h, t.ty, i, h[a].words[i], t.fields[i]);
        assert DenotesPart(h, t.ty, i, h[a].words[i], u.fields[i]);
        if RefAt(t.ty, i) {
          DenotesUnique(h, h[a].words[i], t.fields[i].t, u.fields[i].t);
        }
      }
    }
  }

  /** The bytes of a clean string. */
  function Bytes(c: Cell): seq<byte>
    requires c.String? && c.head.Chars?
  {
    c.head.chars + c.rest
  }

  lemma MaskPosition(element: nat, m: nat, slot: nat)
    requires slot < m
    ensures (element * m + slot) % m == slot
  {
    var x := element * m + slot;
    var d, r := x / m, x % m;
    assert x == d * m + r && 0 <= r < m;
    if d > element {
      assert (d - element) * m >= m by { MultiplyAtLeast(d - element, m); }
    } else if d < element {
      assert (element - d) * m >= m by { MultiplyAtLeast(element - d, m); }
    }
  }

  /** The mask entry of word `slot` of an element is entry `slot`. */
  lemma ElementMask(ty: GcType, element: nat, slot: nat)
    requires ty.refsHint && slot < |ty.mask|
    ensures RefAt(ty, Span(element, |ty.mask|) + slot) == Tested(ty.mask, slot)
  {
    SpanIsProduct(element, |ty.mask|);
    MaskPosition(element, |ty.mask|, slot);
    TestedRight(ty.mask, slot);
  }

  lemma MultiplyAtLeast(k: nat, m: nat)
    requires k >= 1
    ensures k * m >= m
  {
  }

  /** The words of `c` at its first `n` counted positions, in scanning order. */
  function RefsUpTo(ty: GcType, words: seq<Addr>, n: nat): seq<Addr>
    requires n <= |words|
  {
    if n == 0 then []
    else RefsUpTo(ty, words, n - 1) + if CountedAt(ty, n - 1) then [words[n - 1]] else []
  }

  /** What sk_free_obj pushes, and what an interned copy comes to hold. */
  function Refs(c: Cell): seq<Addr> {
    if c.Object? && c.vtable.Type? then RefsUpTo(c.vtable.ty, c.words, |c.words|) else []
  }

  lemma FreshExists(taken: set<Addr>)
    ensures exists r: Addr :: r != NULL && r !in taken
  {
    var r := 1 + Largest(taken);
    assert r != NULL && r !in taken;
  }

  ghost function Largest(s: set<Addr>): (n: nat)
    ensures forall a :: a in s ==> a <= n
  {
    if s == {} then 0
    else
      var a :| a in s;
      var n := Largest(s - {a});
      assert forall b :: b in s ==> b == a || b in s - {a};
      if a > n then a else n
  }
}
