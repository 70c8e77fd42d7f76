/** Structural equality of heap values, decided with a worklist of pairs and no visited set. */
module Comparing {
  import opened Heap
  import opened Masks

  /** Address `a` denotes some tree: nothing cyclic or malformed can be reached from it. */
  ghost predicate Finite(h: map<Addr, Cell>, a: Addr) {
    exists t :: Denotes(h, a, t)
  }

  ghost function Unfold(h: map<Addr, Cell>, a: Addr): (t: Tree)
    requires Finite(h, a)
    ensures Denotes(h, a, t)
  {
    var t :| Denotes(h, a, t);
    t
  }

  lemma UnfoldIs(h: map<Addr, Cell>, a: Addr, t: Tree)
    requires Denotes(h, a, t)
    ensures Finite(h, a) && Unfold(h, a) == t
  {
    DenotesUnique(h, a, t, Unfold(h, a));
  }

  function Size(t: Tree): (n: nat)
    ensures n > 0
    decreases t, 1, 0
  {
    if t.Record? then 1 + FieldsSize(t, |t.fields|) else 1
  }

  function FieldsSize(t: Tree, n: nat): nat
    requires t.Record? && n <= |t.fields|
    decreases t, 0, n
  {
    if n == 0 then 0
    else FieldsSize(t, n - 1) + if t.fields[n - 1].Sub? then Size(t.fields[n - 1].t) else 0
  }

  /** What comparing two cells says: that they differ, or which pairs are left to compare. */
  datatype Verdict = Differ | Defer(pairs: seq<(Addr, Addr)>)

  /** The scan of the first `n` words of two objects of one type. */
  function ScanPairs(ty: GcType, w1: seq<Addr>, w2: seq<Addr>, n: nat): Verdict
    requires n <= |w1| == |w2|
  {
    if n == 0 then Defer([])
    else
      match ScanPairs(ty, w1, w2, n - 1)
      case Differ => Differ
      case Defer(pairs) =>
        if w1[n - 1] == w2[n - 1] then Defer(pairs)
        else if RefAt(ty, n - 1) then Defer(pairs + [(w1[n - 1], w2[n - 1])])
        else Differ
  }

  ghost predicate PairFinite(h: map<Addr, Cell>, p: (Addr, Addr)) {
    Finite(h, p.0) && Finite(h, p.1)
  }

  ghost predicate AllFinite(h: map<Addr, Cell>, st: seq<(Addr, Addr)>) {
    forall k :: 0 <= k < |st| ==> PairFinite(h, st[k])
  }

  /** All waiting pairs are equal. */
  ghost predicate AllEqual(h: map<Addr, Cell>, st: seq<(Addr, Addr)>)
    requires AllFinite(h, st)
  {
    forall k :: 0 <= k < |st| ==> PairEqual(h, st[k])
  }

  ghost predicate PairEqual(h: map<Addr, Cell>, p: (Addr, Addr))
    requires PairFinite(h, p)
  {
    Unfold(h, p.0) == Unfold(h, p.1)
  }

  /** The work left: the sizes of the unfolded left-hand values. It falls although a shared
    * cell may be compared many times. */
  ghost function Work(h: map<Addr, Cell>, st: seq<(Addr, Addr)>): nat
    requires AllFinite(h, st)
  {
    if st == [] then 0
    else
      assert PairFinite(h, st[|st| - 1]);
      Work(h, st[..|st| - 1]) + Size(Unfold(h, st[|st| - 1].0))
  }

  /** The field of a finite object at a reference position is finite. */
  lemma FieldFinite(h: map<Addr, Cell>, a: Addr, i: nat)
    requires Finite(h, a) && a != NULL && a in h && h[a].Object? && i < |h[a].words|
    ensures Clean(h[a]) && Unfold(h, a).Record? && |Unfold(h, a).fields| == |h[a].words|
    ensures Unfold(h, a).ty == h[a].vtable.ty && Unfold(h, a).len == h[a].len
    ensures var f := Unfold(h, a).fields[i];
      if RefAt(h[a].vtable.ty, i) then Finite(h, h[a].words[i]) && f == Sub(Unfold(h, h[a].words[i]))
      else f == Raw(h[a].words[i])
  {
    var t := Unfold(h, a);
    assert DenotesPart(h, t.ty, i, h[a].words[i], t.fields[i]);
    if RefAt(t.ty, i) {
      UnfoldIs(h, h[a].words[i], t.fields[i].t);
    }
  }

  lemma ObjectFinite(h: map<Addr, Cell>, a: Addr)
    requires Finite(h, a) && a != NULL && a in h && h[a].Object?
    ensures Clean(h[a]) && Unfold(h, a).Record? && |Unfold(h, a).fields| == |h[a].words|
    ensures Unfold(h, a).ty == h[a].vtable.ty && Unfold(h, a).len == h[a].len
  {
  }

  lemma ScanNone(h: map<Addr, Cell>)
    ensures AllFinite(h, []) && AllEqual(h, []) && Work(h, []) == 0
  {
  }

  lemma WorkSnoc(h: map<Addr, Cell>, st: seq<(Addr, Addr)>, p: (Addr, Addr))
    requires AllFinite(h, st) && PairFinite(h, p)
    ensures AllFinite(h, st + [p]) && Work(h, st + [p]) == Work(h, st) + Size(Unfold(h, p.0))
    ensures AllEqual(h, st + [p]) <==> AllEqual(h, st) && Unfold(h, p.0) == Unfold(h, p.1)
  {
  }

  lemma PopPair(h: map<Addr, Cell>, st: seq<(Addr, Addr)>)
    requires st != [] && AllFinite(h, st)
    ensures var p, rest := st[|st| - 1], st[..|st| - 1];
      && Finite(h, p.0) && Finite(h, p.1) && AllFinite(h, rest)
      && Work(h, st) == Work(h, rest) + Size(Unfold(h, p.0))
      && (AllEqual(h, st) <==> AllEqual(h, rest) && Unfold(h, p.0) == Unfold(h, p.1))
  {
  }

  lemma {:induction false} WorkAppend(h: map<Addr, Cell>, st: seq<(Addr, Addr)>, ps: seq<(Addr, Addr)>)
    requires AllFinite(h, st) && AllFinite(h, ps)
    ensures AllFinite(h, st + ps) && Work(h, st + ps) == Work(h, st) + Work(h, ps)
    ensures AllEqual(h, st + ps) <==> AllEqual(h, st) && AllEqual(h, ps)
  {
    hide AllFinite, AllEqual, Work, Finite, Unfold;
    if ps == [] {
      assert st + ps == st;
      ScanNone(h);
    } else {
      var p, before := ps[|ps| - 1], ps[..|ps| - 1];
      PopPair(h, ps);
      WorkAppend(h, st, before);
      WorkSnoc(h, st + before, p);
      assert st + before + [p] == st + ps;
    }
  }

  lemma PrefixStep(p: seq<Part>, q: seq<Part>, n: nat)
    requires 0 < n <= |p| == |q|
    ensures p[..n] == q[..n] <==> p[..n - 1] == q[..n - 1] && p[n - 1] == q[n - 1]
  {
    assert p[..n] == p[..n - 1] + [p[n - 1]] && q[..n] == q[..n - 1] + [q[n - 1]];
  }

  /** The pairs that a scan defers stand for the comparison of the scanned fields, and are less
    * work than the left-hand object. */
  lemma {:induction false} ScanMeaning(h: map<Addr, Cell>, a: Addr, b: Addr, n: nat)
    requires Finite(h, a) && Finite(h, b) && a != NULL && b != NULL && a in h && b in h
    requires h[a].Object? && h[b].Object? && h[a].vtable == h[b].vtable && h[a].vtable.Type?
    requires n <= |h[a].words| == |h[b].words|
    ensures var t, u, v := Unfold(h, a), Unfold(h, b), ScanPairs(h[a].vtable.ty, h[a].words, h[b].words, n);
      && t.Record? && u.Record? && |t.fields| == |u.fields| == |h[a].words|
      && (v.Differ? ==> t.fields[..n] != u.fields[..n])
      && (v.Defer? ==>
            && AllFinite(h, v.pairs) && Work(h, v.pairs) <= FieldsSize(t, n)
            && (AllEqual(h, v.pairs) <==> t.fields[..n] == u.fields[..n]))
  {
    hide Denotes, AllEqual, AllFinite, Work, PairEqual, Clean, Finite, Unfold;
    var t, u := Unfold(h, a), Unfold(h, b);
    ScanNone(h);
    ObjectFinite(h, a);
    ObjectFinite(h, b);
    if n != 0 {
      var ty, w1, w2 := h[a].vtable.ty, h[a].words, h[b].words;
      ScanMeaning(h, a, b, n - 1);
      FieldFinite(h, a, n - 1);
      FieldFinite(h, b, n - 1);
      PrefixStep(t.fields, u.fields, n);
      var v := ScanPairs(ty, w1, w2, n - 1);
      if v.Defer? && w1[n - 1] != w2[n - 1] && RefAt(ty, n - 1) {
        WorkSnoc(h, v.pairs, (w1[n - 1], w2[n - 1]));
      }
    }
  }

  // ------------------------------------------------------------------------------------------
  // The loops
  // ------------------------------------------------------------------------------------------

  /** Bytewise order, a prefix first. */
  predicate Before(s: seq<byte>, t: seq<byte>) {
    t != [] && (s == [] || s[0] < t[0] || (s[0] == t[0] && Before(s[1..], t[1..])))
  }

  /** SKIP_String_cmp, its SkipInt read as a signed number. */
  method StringCmp(s: seq<byte>, t: seq<byte>) returns (r: int)
    ensures r == 0 <==> s == t
    ensures r < 0 <==> Before(s, t)
  {
    var i := 0;
    while true
      invariant i <= |s| && i <= |t| && s[..i] == t[..i]
      invariant Before(s, t) <==> Before(s[i..], t[i..])
      decreases |s| - i
    {
      if i == |s| && i == |t| { return 0; }
      if i == |s| { return -1; }
      if i == |t| { return 1; }
      var diff: int := s[i] as int - t[i] as int;
      if diff != 0 { return diff; }
      assert s[i..][1..] == s[i + 1..] && t[i..][1..] == t[i + 1..];
      i := i + 1;
    }
  }

  lemma ScanNext(ty: GcType, w1: seq<Addr>, w2: seq<Addr>, i: nat)
    requires i < |w1| == |w2|
    ensures ScanPairs(ty, w1, w2, i + 1)
         == match ScanPairs(ty, w1, w2, i)
            case Differ => Differ
            case Defer(pairs) =>
              if w1[i] == w2[i] then Defer(pairs)
              else if RefAt(ty, i) then Defer(pairs + [(w1[i], w2[i])])
              else Differ
  {
  }

  lemma {:induction false} ScanDiffers(ty: GcType, w1: seq<Addr>, w2: seq<Addr>, i: nat, n: nat)
    requires i <= n <= |w1| == |w2| && ScanPairs(ty, w1, w2, i).Differ?
    ensures ScanPairs(ty, w1, w2, n).Differ?
  {
    if i < n { ScanDiffers(ty, w1, w2, i, n - 1); }
  }

  /** Without references the scan compares the raw words: what memcmp does. */
  lemma {:induction false} ScanRaw(ty: GcType, w1: seq<Addr>, w2: seq<Addr>, n: nat)
    requires n <= |w1| == |w2| && !ty.refsHint
    ensures ScanPairs(ty, w1, w2, n) == if w1[..n] == w2[..n] then Defer([]) else Differ
  {
    if n != 0 {
      ScanRaw(ty, w1, w2, n - 1);
      assert w1[..n] == w1[..n - 1] + [w1[n - 1]] && w2[..n] == w2[..n - 1] + [w2[n - 1]];
    }
  }

  /** The mask loop of SKIP_native_eq_obj over one element, whose first word is word `base`. */
  method CompareElement(ty: GcType, w1: seq<Addr>, w2: seq<Addr>, base: nat, ghost element: nat,
                        pairs0: seq<(Addr, Addr)>)
    returns (v: Verdict)
    requires |w1| == |w2| && base == Span(element, |ty.mask|) && base + |ty.mask| <= |w1| && ty.refsHint
    requires ScanPairs(ty, w1, w2, base) == Defer(pairs0)
    ensures v == ScanPairs(ty, w1, w2, base + |ty.mask|)
  {
    hide ScanPairs, RefAt;
    var pairs := pairs0;
    var slot := 0;
    while slot < |ty.mask|
      invariant slot <= |ty.mask| && ScanPairs(ty, w1, w2, base + slot) == Defer(pairs)
    {
      ElementMask(ty, element, slot);
      ScanNext(ty, w1, w2, base + slot);
      if w1[base + slot] != w2[base + slot] {
        if Tested(ty.mask, slot) {
          pairs := pairs + [(w1[base + slot], w2[base + slot])];
        } else {
          ScanDiffers(ty, w1, w2, base + slot + 1, base + |ty.mask|);
          return Differ;
        }
      }
      slot := slot + 1;
    }
    v := Defer(pairs);
  }

  /** SKIP_native_eq_obj on two objects of one type and length. */
  method CompareObjects(ty: GcType, len: nat, w1: seq<Addr>, w2: seq<Addr>) returns (v: Verdict)
    requires |w1| == |w2| == Span(len, |ty.mask|)
    ensures v == ScanPairs(ty, w1, w2, |w1|)
  {
    hide RefAt, ScanPairs;
    if !ty.refsHint {
      ScanRaw(ty, w1, w2, |w1|);
      assert w1[..|w1|] == w1 && w2[..|w2|] == w2;
      return if w1 == w2 then Defer([]) else Differ;
    }
    ScanStart(ty, w1, w2);
    v := Defer([]);
    var head, element := 0, 0;
    while element < len
      invariant element <= len && head == Span(element, |ty.mask|) <= |w1|
      invariant v.Defer? && v == ScanPairs(ty, w1, w2, head)
    {
      SpanGrows(element + 1, len, |ty.mask|);
      v := CompareElement(ty, w1, w2, head, element, v.pairs);
      head, element := head + |ty.mask|, element + 1;
      if v.Differ? {
        ScanDiffers(ty, w1, w2, head, |w1|);
        return;
      }
    }
  }

  lemma ScanStart(ty: GcType, w1: seq<Addr>, w2: seq<Addr>)
    requires |w1| == |w2|
    ensures ScanPairs(ty, w1, w2, 0) == Defer([])
  {
  }

  /** A verdict tells whether two finite values are equal, at the cost of less work. */
  ghost predicate Tells(h: map<Addr, Cell>, a: Addr, b: Addr, v: Verdict)
    requires Finite(h, a) && Finite(h, b)
  {
    match v
    case Differ => Unfold(h, a) != Unfold(h, b)
    case Defer(pairs) =>
      && AllFinite(h, pairs) && Work(h, pairs) < Size(Unfold(h, a))
      && (AllEqual(h, pairs) <==> Unfold(h, a) == Unfold(h, b))
  }

  /** Settled at once, without looking into both cells. */
  lemma TellsAtOnce(h: map<Addr, Cell>, a: Addr, b: Addr)
    requires Finite(h, a) && Finite(h, b)
    ensures a == b ==> Tells(h, a, b, Defer([]))
    ensures a != b && (a == NULL || b == NULL) ==> Tells(h, a, b, Differ)
    ensures a != NULL ==> a in h && Clean(h[a])
    ensures b != NULL ==> b in h && Clean(h[b])
    ensures a != NULL && b != NULL && h[a].String? != h[b].String? ==> Tells(h, a, b, Differ)
    ensures a != NULL && b != NULL && h[a].String? && h[b].String? ==>
      Tells(h, a, b, if Bytes(h[a]) == Bytes(h[b]) then Defer([]) else Differ)
  {
    ScanNone(h);
  }

  lemma TellsObjects(h: map<Addr, Cell>, a: Addr, b: Addr)
    requires Finite(h, a) && Finite(h, b) && a != NULL && b != NULL && a in h && b in h
    requires h[a].Object? && h[b].Object? && Clean(h[a]) && Clean(h[b])
    ensures h[a].vtable.ty != h[b].vtable.ty || h[a].len != h[b].len ==> Tells(h, a, b, Differ)
    ensures h[a].vtable.ty == h[b].vtable.ty && h[a].len == h[b].len ==>
      && |h[a].words| == |h[b].words|
      && Tells(h, a, b, ScanPairs(h[a].vtable.ty, h[a].words, h[b].words, |h[a].words|))
  {
    hide Denotes, AllEqual, AllFinite, Work;
    ObjectFinite(h, a);
    ObjectFinite(h, b);
    if h[a].vtable.ty == h[b].vtable.ty && h[a].len == h[b].len {
      var n := |h[a].words|;
      ScanMeaning(h, a, b, n);
      var t, u := Unfold(h, a), Unfold(h, b);
      assert t.fields[..n] == t.fields && u.fields[..n] == u.fields;
    }
  }

  /** SKIP_native_eq_helper. */
  method CompareCells(h: map<Addr, Cell>, a: Addr, b: Addr) returns (v: Verdict)
    requires Finite(h, a) && Finite(h, b)
    ensures Tells(h, a, b, v)
  {
    hide Tells, Finite, ScanPairs, Unfold;
    TellsAtOnce(h, a, b);
    if a == b { return Defer([]); }
    if a == NULL || b == NULL { return Differ; }
    if h[a].String? && h[b].String? {
      var cmp := StringCmp(h[a].head.chars + h[a].rest, h[b].head.chars + h[b].rest);
      return if cmp == 0 then Defer([]) else Differ;
    }
    if h[a].String? || h[b].String? { return Differ; }
    TellsObjects(h, a, b);
    if h[a].vtable.ty != h[b].vtable.ty || h[a].len != h[b].len { return Differ; }
    v := CompareObjects(h[a].vtable.ty, h[a].len, h[a].words, h[b].words);
  }

  /** SKIP_isEq. It terminates on every finite value, however much is shared. */
  method IsEq(h: map<Addr, Cell>, a: Addr, b: Addr) returns (r: nat)
    requires Finite(h, a) && Finite(h, b)
    ensures r == if Unfold(h, a) == Unfold(h, b) then 0 else 1
  {
    hide AllFinite, AllEqual, Work, Finite, Unfold;
    var v := CompareCells(h, a, b);
    if v.Differ? { return 1; }
    var st := v.pairs;
    while st != []
      invariant AllFinite(h, st) && (AllEqual(h, st) <==> Unfold(h, a) == Unfold(h, b))
      decreases Work(h, st)
    {
      var p := st[|st| - 1];
      PopPair(h, st);
      st := st[..|st| - 1];
      v := CompareCells(h, p.0, p.1);
      if v.Differ? { return 1; }
      WorkAppend(h, st, v.pairs);
      st := st + v.pairs;
    }
    ScanNone(h);
    r := 0;
  }
}
