/** The runtime's global state and the operations that change it in place: interning, freeing,
  * the list of external pointers and the global context. */
module Runtime {
  import opened Heap
  import opened Masks
  import opened Counting
  import opened Reclaim
  import opened Interning
  import opened Restoring
  import opened Scanning

  /** Whoever holds a counted reference from outside the heap: callers, the list of external
    * pointers, and the global context. */
  ghost function Roots(held: multiset<Addr>, externals: seq<Addr>, context: Addr): multiset<Addr> {
    held + multiset(externals) + if context == NULL then multiset{} else multiset{context}
  }

  datatype SyncResult = Synced(root: Addr) | Failed(code: nat)
  const ERROR_CONTEXT_NOT_INITIALIZED := 27
  const ERROR_SYNC_SAME_CONTEXT := 28

  /** The free worklist once the first `n` words of an object have been scanned. */
  ghost function Emptied(st: seq<Addr>, ty: GcType, words: seq<Addr>, n: nat): (r: seq<Addr>)
    requires n <= |words|
    ensures r == st + RefsUpTo(ty, words, n)
  {
    st + RefsUpTo(ty, words, n)
  }

  lemma EmptiedNext(st: seq<Addr>, ty: GcType, words: seq<Addr>, i: nat)
    requires i < |words|
    ensures Emptied(st, ty, words, i + 1)
         == if CountedAt(ty, i) then Emptied(st, ty, words, i) + [words[i]] else Emptied(st, ty, words, i)
  {
  }

  lemma {:induction false} EmptiedNone(st: seq<Addr>, ty: GcType, words: seq<Addr>, n: nat)
    requires n <= |words| && (ty.epointer || !ty.refsHint || n == 0)
    ensures Emptied(st, ty, words, n) == st
  {
    if n != 0 {
      EmptiedNone(st, ty, words, n - 1);
      EmptiedNext(st, ty, words, n - 1);
    }
  }

  /** The loop in sk_free_obj: the counted words, null ones included. */
  method ScanForFree(st0: seq<Addr>, ty: GcType, len: nat, words: seq<Addr>) returns (st: seq<Addr>)
    requires |words| == Span(len, |ty.mask|)
    ensures st == st0 + RefsUpTo(ty, words, |words|)
  {
    hide Emptied, RefAt, Tested;
    st := st0;
    if ty.epointer || !ty.refsHint {
      EmptiedNone(st0, ty, words, |words|);
      return;
    }
    EmptiedNone(st0, ty, words, 0);
    var head, element := 0, 0;
    while element < len
      invariant element <= len && head == Span(element, |ty.mask|) <= |words|
      invariant st == Emptied(st0, ty, words, head)
    {
      SpanGrows(element + 1, len, |ty.mask|);
      var slot := 0;
      while slot < |ty.mask|
        invariant slot <= |ty.mask| && st == Emptied(st0, ty, words, head + slot)
      {
        ElementMask(ty, element, slot);
        EmptiedNext(st0, ty, words, head + slot);
        if Tested(ty.mask, slot) {
          st := st + [words[head + slot]];
        }
        slot := slot + 1;
      }
      head, element := head + |ty.mask|, element + 1;
    }
  }

  lemma RootsExternal(held: multiset<Addr>, externals: seq<Addr>, context: Addr, p: Addr)
    ensures Roots(held, [p] + externals, context) == Roots(held, externals, context) + multiset{p}
  {
    assert multiset([p] + externals) == multiset{p} + multiset(externals);
  }

  /** Replacing the context by a cell on which one more reference is held. */
  lemma RootsContext(held: multiset<Addr>, externals: seq<Addr>, context: Addr, p: Addr)
    requires p != NULL
    ensures Roots(if context == NULL then held else held + multiset{context}, externals, p)
         == Roots(held, externals, context) + multiset{p}
  {
  }

  lemma NotNull(obs: map<Addr, Cell>, cells: map<Addr, Cell>, stat: map<Addr, Cell>, obj: Addr)
    requires Regions(obs, cells, stat) && (obj in obs || obj in cells)
    ensures obj != NULL && obj !in stat
  {
  }

  lemma AddReference(cells: map<Addr, Cell>, counts: map<Addr, nat>, handles: multiset<Addr>, p: Addr)
    requires Ledger(cells, counts, handles) && p in cells
    ensures p in counts && Ledger(cells, counts[p := counts[p] + 1], handles + multiset{p})
  {
  }

  /** One handle on `p`, or none when `p` is NULL. */
  ghost function One(p: Addr): multiset<Addr> {
    if p == NULL then multiset{} else multiset{p}
  }

  lemma DropOne(rest: multiset<Addr>, p: Addr)
    requires p !in rest || p != NULL
    ensures rest + One(p) - multiset{p} == rest
    ensures p in rest + One(p) || p == NULL
  {
  }

  /** The handles when a sync has interned the new root, sorted by the drop that removes them. */
  lemma SyncRoots(held: multiset<Addr>, externals: seq<Addr>, root: Addr, oldRoot: Addr, newRoot: Addr)
    requires root != NULL && newRoot != NULL && (oldRoot in held || oldRoot == NULL) && NULL !in held
    ensures Roots(held + multiset{root}, externals, root) + multiset{newRoot}
         == (held - multiset{oldRoot} + multiset{newRoot}) + multiset(externals) + One(root) + One(root) + One(oldRoot)
  {
  }

  /** The context's own reference has kept the new root through all the drops. */
  lemma NewRootSurvives(before: map<Addr, Cell>, obs: map<Addr, Cell>, cells: map<Addr, Cell>,
                        counts: map<Addr, nat>, stat: map<Addr, Cell>, others: multiset<Addr>, p: Addr, gone: seq<Addr>)
    requires Drained(before, cells, counts, stat, others + multiset{p}, gone) && StaticOk(stat)
    requires Regions(obs, before, stat) && p != NULL
    ensures p in cells && p in counts
    ensures Exact(cells, counts[p := counts[p] + 1], stat, Roots(others + multiset{p}, [], p))
    ensures SameValue(before + stat, p, cells + stat, p)
  {
    assert p in others + multiset{p};
    AddReference(cells, counts, others + multiset{p}, p);
    SurvivorDenotes(before, cells, stat, p);
    assert Roots(others + multiset{p}, [], p) == others + multiset{p} + multiset{p};
  }

  /** What is left of `before` has the contents it had. */
  ghost predicate Kept(before: map<Addr, Cell>, cells: map<Addr, Cell>) {
    forall a :: a in before && a in cells ==> cells[a] == before[a]
  }

  /** No reference of the obstack leads to one of these cells. */
  ghost predicate NoneInto(obs: map<Addr, Cell>, gone: seq<Addr>) {
    forall a, p :: a in obs && p in Refs(obs[a]) ==> p !in gone
  }

  /** The handles that are left denote what they denoted before the sync. */
  lemma OthersKept(before: map<Addr, Cell>, counts0: map<Addr, nat>, externals: seq<Addr>, context: Addr,
                   mid: map<Addr, Cell>, obs: map<Addr, Cell>, cells: map<Addr, Cell>, counts: map<Addr, nat>,
                   stat: map<Addr, Cell>, held: multiset<Addr>, oldRoot: Addr, newRoot: Addr, gone: seq<Addr>)
    requires Exact(before, counts0, stat, Roots(held, externals, context)) && StaticOk(stat)
    requires SubHeap(before, mid) && Regions(obs, mid, stat)
    requires Drained(mid, cells, counts, stat, held - multiset{oldRoot} + multiset{newRoot}, gone)
    ensures Kept(before, cells)
    ensures forall q :: q in held - multiset{oldRoot} ==>
      q in cells && SameValue(before + stat, q, cells + stat, q)
  {
    hide Closed, Edges, Unheld, Denotes;
    forall q | q in held - multiset{oldRoot} ensures q in cells && SameValue(before + stat, q, cells + stat, q) {
      assert q in Roots(held, externals, context) && q in held - multiset{oldRoot} + multiset{newRoot};
      SurvivorDenotes(mid, cells, stat, q);
      PartDenotes(mid + stat, before, stat, q);
    }
  }

  /** Frees leave the obstack without dangling references exactly when it has none to what is freed. */
  lemma RegionsLeft(obs: map<Addr, Cell>, mid: map<Addr, Cell>, cells: map<Addr, Cell>, counts: map<Addr, nat>,
                    stat: map<Addr, Cell>, handles: multiset<Addr>, gone: seq<Addr>)
    requires Regions(obs, mid, stat) && Drained(mid, cells, counts, stat, handles, gone)
    ensures Regions(obs, cells, stat) <==> NoneInto(obs, gone)
  {
    hide Edges, Unheld, Refs, Closed;
    var all, left := obs.Keys + mid.Keys + stat.Keys, obs.Keys + cells.Keys + stat.Keys;
    forall a | a in obs
      ensures ClosedCell(left, stat.Keys, obs[a]) <==> forall p :: p in Refs(obs[a]) ==> p !in gone
    {
      ClosedLess(all, left, stat.Keys, obs[a], gone);
    }
  }

  lemma ClosedLess(all: set<Addr>, left: set<Addr>, stat: set<Addr>, c: Cell, gone: seq<Addr>)
    requires ClosedCell(all, stat, c) && forall p :: p in all ==> (p in left <==> p !in gone)
    requires NULL !in all && forall p :: p in gone ==> p in all
    ensures ClosedCell(left, stat, c) <==> forall p :: p in Refs(c) ==> p !in gone
  {
    if p :| p in Refs(c) && p in gone {
      var i := RefsSource(c.vtable.ty, c.words, |c.words|, p);
    }
    if c.Object? {
      forall i | 0 <= i < |c.words| && CountedAt(c.vtable.ty, i) ensures c.words[i] in Refs(c) {
        RefsHit(c.vtable.ty, c.words, |c.words|, i);
      }
    }
  }

  /** The caller's obstack can be left with a dangling reference: it holds a cell that refers to
    * the root which the sync frees. */
  lemma DanglesAfterSync(root: Addr, other: Addr)
    requires root != NULL && other != NULL && root != other
    ensures exists obs, mid, gone ::
      && Regions(obs, mid, map[]) && Freed(mid, map[], multiset{}, gone) && !Regions(obs, map[], map[])
  {
    var mid := map[root := String(0, 1, Chars([97]), [])];
    var holder := Object(Type(GcType(0, false, true, false, [true])), 1, [root]);
    var obs := map[other := holder];
    assert RefsUpTo(holder.vtable.ty, holder.words, 0) == [];
    assert Refs(holder) == [root];
    assert Span(1, 1) == 1;
    assert Regions(obs, mid, map[]);
    assert Unheld(mid, multiset{}, [root][..0], [root][0]);
    assert Freed(mid, map[], multiset{}, [root]);
    assert root in Refs(obs[other]) && root in [root];
    assert Exact(map[], map[], map[], multiset{});
    RegionsLeft(obs, mid, map[], map[], map[], multiset{}, [root]);
  }

  lemma ContextHeld(cells: map<Addr, Cell>, counts: map<Addr, nat>, stat: map<Addr, Cell>, held: multiset<Addr>,
                    externals: seq<Addr>, context: Addr)
    requires Exact(cells, counts, stat, Roots(held, externals, context)) && context != NULL
    ensures context in cells && context in counts
    ensures Exact(cells, counts[context := counts[context] + 1], stat, Roots(held + multiset{context}, externals, context))
  {
  }

  lemma NullNotHeld(cells: map<Addr, Cell>, counts: map<Addr, nat>, stat: map<Addr, Cell>, handles: multiset<Addr>)
    requires Exact(cells, counts, stat, handles)
    ensures NULL !in handles
  {
  }

  lemma HeldNotNull(cells: map<Addr, Cell>, counts: map<Addr, nat>, stat: map<Addr, Cell>, held: multiset<Addr>,
                    externals: seq<Addr>, context: Addr)
    requires Exact(cells, counts, stat, Roots(held, externals, context))
    ensures NULL !in held
  {
    assert forall p :: p in held ==> p in Roots(held, externals, context);
  }

  lemma CursorNext(cursor: seq<Addr>, rest: multiset<Addr>)
    requires cursor != []
    ensures cursor[0] in rest + multiset(cursor)
    ensures rest + multiset(cursor) - multiset{cursor[0]} == rest + multiset(cursor[1..])
    ensures forall p :: p in cursor[1..] ==> p in cursor
  {
    assert cursor == [cursor[0]] + cursor[1..];
  }

  lemma ListedNotStatic(cells: map<Addr, Cell>, counts: map<Addr, nat>, stat: map<Addr, Cell>,
                        handles: multiset<Addr>, list: seq<Addr>)
    requires Draining(cells, counts, stat, handles, multiset(list)) && forall p :: p in list ==> p in cells
    ensures forall p :: p in list ==> !(p == NULL || p in stat)
  {
  }

  lemma DrainBalanced(cells: map<Addr, Cell>, counts: map<Addr, nat>, stat: map<Addr, Cell>,
                      handles: multiset<Addr>, pend: multiset<Addr>)
    requires Draining(cells, counts, stat, handles, pend)
    ensures Balanced(cells, counts, handles, pend)
  {
  }

  /** A cell that is left has the contents it had. */
  lemma FreedCell(before: map<Addr, Cell>, cells: map<Addr, Cell>, handles: multiset<Addr>, gone: seq<Addr>, p: Addr)
    requires Freed(before, cells, handles, gone) && p in cells
    ensures p in before && before[p] == cells[p]
  {
  }

  class Runtime {
    var obs: map<Addr, Cell>      // the pages of the obstack
    var cells: map<Addr, Cell>    // the persistent heap
    var counts: map<Addr, nat>    // the word before each persistent cell
    const stat: map<Addr, Cell>   // static data
    var context: Addr             // the root of the global context, or NULL
    var externals: seq<Addr>      // sk_external_pointers, first element first
    var finalized: seq<Addr>      // the external pointers whose destructor was called

    method Palloc() returns (r: Addr)
      ensures r != NULL && r !in obs && r !in cells && r !in stat
    {
      FreshExists(obs.Keys + cells.Keys + stat.Keys);
      r :| r != NULL && r !in obs.Keys + cells.Keys + stat.Keys;
    }

    /** shallow_intern: a plain copy with one reference. */
    method ShallowIntern(c: Cell) returns (r: Addr)
      modifies this`cells, this`counts
      ensures r != NULL && r !in obs && r !in old(cells) && r !in stat
      ensures cells == old(cells)[r := c] && counts == old(counts)[r := 1]
    {
      r := Palloc();
      counts := counts[r := 1];
      cells := cells[r := c];
    }

    /** Save a header on the restore stack and write the forwarding pointer over it. */
    method PushAndMark(undo: seq<Undo>, v: Addr, to: Addr) returns (undo': seq<Undo>)
      requires v in obs && (obs[v].String? ==> obs[v].size != 0)
      modifies this`obs
      ensures obs == old(obs)[v := MarkCell(old(obs)[v], to)]
      ensures UndoAll(obs, undo') == UndoAll(old(obs), undo)
    {
      SavedUndoes(obs, v, to, undo);
      undo' := undo + [Saved(v, obs[v])];
      obs := obs[v := MarkCell(obs[v], to)];
    }

    /** The copy of obstack cell `v`: made on the first visit, found through the forwarding
      * pointer later, and made anew each time for a string too short to hold one. */
    method InternCell(v: Addr, st0: seq<Entry>, undo0: seq<Undo>)
      returns (r: Addr, st: seq<Entry>, undo: seq<Undo>)
      requires v in obs && (Clean(obs[v]) || Forwarded(obs[v])) && (Forwarded(obs[v]) ==> Target(obs[v]) in counts)
      modifies this`obs, this`cells, this`counts
      ensures var c := old(obs)[v];
        if Forwarded(c) then
          && r == Target(c) && counts == old(counts)[r := old(counts)[r] + 1]
          && cells == old(cells) && obs == old(obs) && st == st0 && undo == undo0
        else
          && r != NULL && r !in old(obs) && r !in old(cells) && r !in stat
          && cells == old(cells)[r := c] && counts == old(counts)[r := 1]
          && obs == (if Shareable(c) then old(obs)[v := MarkCell(c, r)] else old(obs))
          && UndoAll(obs, undo) == UndoAll(old(obs), undo0)
          && st == st0 + Pushes(v, r, Live0(c))
    {
      st, undo := st0, undo0;
      var c := obs[v];
      if c.String? {
        if c.size != MARK && c.size < WORD {
          r := ShallowIntern(c);
          assert st == st0 + Pushes(v, r, []);
        } else if c.size == MARK {
          r := c.head.to;
          counts := counts[r := counts[r] + 1];
        } else {
          r := ShallowIntern(c);
          undo := PushAndMark(undo, v, r);
          assert st == st0 + Pushes(v, r, []);
        }
      } else if c.vtable.Type? {
        r := ShallowIntern(c);
        st := ScanForCopy(st, v, r, c.vtable.ty, c.len, c.words);
        undo := PushAndMark(undo, v, r);
      } else {
        r := c.vtable.to;
        counts := counts[r := counts[r] + 1];
      }
    }

    /** The turn of the worklist loop for an entry that leads to obstack cell `v`. */
    method InternInto(v: Addr, slot: Loc, result0: Addr, st0: seq<Entry>, undo0: seq<Undo>, ghost g: Init, ghost n: Now)
      returns (result: Addr, st: seq<Entry>, undo: seq<Undo>, ghost n': Now)
      requires n.st != [] && Inv(g, n) && g.stat == stat && v in g.obs && v == Value(g, Top(n.st).value)
      requires n.cells == cells && n.counts == counts && n.result == result0
      requires st0 == Rest(n.st) && slot == Top(n.st).slot && obs == Marked(g.obs, n.fwd)
      modifies this`obs, this`cells, this`counts
      ensures Inv(g, n') && n' == Now(n'.fwd, n'.org, cells, counts, result, st)
      ensures obs == Marked(g.obs, n'.fwd) && UndoAll(obs, undo) == UndoAll(old(obs), undo0)
      ensures (n'.fwd == n.fwd && st == st0) || Unmarked(g.obs, n'.fwd) < Unmarked(g.obs, n.fwd)
    {
      hide Inv, UndoAll, Put, PutLocal, Clean, Live0, Pushes, MarkCell, Marked, Unmarked, Value, Fits;
      NextEntry(g, n);
      var r: Addr;
      r, st, undo := InternCell(v, st0, undo0);
      if v in n.fwd {
        ForwardStep(g, n, v);
        n' := Share(n, r);
      } else {
        CopyStep(g, n, v, r);
        MarkedNext(g.obs, n.fwd, v, r);
        n' := CopyNext(n, v, r, g.obs[v]);
      }
      result := Store(slot, r, result0);
    }

    /** One turn of the worklist loop. `n` is the state before the entry is popped. */
    method InternNext(obj: Addr, result0: Addr, st0: seq<Entry>, undo0: seq<Undo>, ghost g: Init, ghost n: Now)
      returns (result: Addr, st: seq<Entry>, undo: seq<Undo>, ghost n': Now)
      requires st0 != [] && Inv(g, n) && g.obj == obj && g.stat == stat
      requires n == Now(n.fwd, n.org, cells, counts, result0, st0) && obs == Marked(g.obs, n.fwd)
      modifies this`obs, this`cells, this`counts
      ensures Inv(g, n') && n' == Now(n'.fwd, n'.org, cells, counts, result, st)
      ensures obs == Marked(g.obs, n'.fwd) && UndoAll(obs, undo) == UndoAll(old(obs), undo0)
      ensures (n'.fwd == n.fwd && |st| < |st0|) || Unmarked(g.obs, n'.fwd) < Unmarked(g.obs, n.fwd)
    {
      hide Inv, UndoAll, Clean, Forwarded, Target, Marked, Unmarked;
      NextEntry(g, n);
      var e := st0[|st0| - 1];
      st := st0[..|st0| - 1];
      var v := if e.value.Local? then obj else obs[e.value.a].words[e.value.i];
      if v !in obs {
        KeepStep(g, n, v);
        n' := Keep(n, v);
        result, undo := result0, undo0;
        if !(v == NULL || v in stat) {
          counts := counts[v := counts[v] + 1];
        }
      } else {
        result, st, undo, n' := InternInto(v, e.slot, result0, st, undo0, g, n);
      }
    }

    /** *delayed.slot = w */
    method Store(slot: Loc, w: Addr, result0: Addr) returns (result: Addr)
      requires Fits(cells, slot)
      modifies this`cells
      ensures cells == Put(old(cells), slot, w) && result == PutLocal(result0, slot, w)
    {
      result := result0;
      match slot {
        case Local => result := w;
        case Field(a, i) => cells := cells[a := cells[a].(words := cells[a].words[i := w])];
      }
    }

    /** SKIP_intern_shared. Works on any graph, cyclic or not. */
    method InternShared(obj: Addr, ghost handles: multiset<Addr>)
      returns (result: Addr, ghost org: map<Addr, Addr>)
      requires Regions(obs, cells, stat) && Ledger(cells, counts, handles)
      requires obj == NULL || obj in obs || obj in cells || obj in stat
      modifies this`obs, this`cells, this`counts
      ensures obs == old(obs) && Regions(obs, cells, stat)
      ensures Ledger(cells, counts, Held(handles, cells, result))
      ensures obj == NULL ==> result == NULL && org == map[] && cells == old(cells) && counts == old(counts)
      ensures obj != NULL ==> Interned(Init(old(obs), old(cells), stat, obj, handles), org, cells, result)
      ensures Singles(obs, org, counts)
      ensures SameValue(Whole(old(obs), old(cells), stat), obj, Whole(obs, cells, stat), result)
    {
      hide Inv, Interned, Ledger, SameValue, Regions, Whole, Marked, Unmarked, Start;
      org := map[];
      if obj == NULL {
        result := NULL;
        HeldNull(handles, obs, cells, stat);
        return;
      }
      ghost var g := Init(obs, cells, stat, obj, handles);
      result := obj;
      var st := [Entry(Local, Local)];
      var undo: seq<Undo> := [];
      Begin(g, counts);
      ghost var n := Now(map[], map[], cells, counts, result, st);
      while st != []
        invariant Inv(g, n) && n == Now(n.fwd, n.org, cells, counts, result, st)
        invariant obs == Marked(g.obs, n.fwd) && UndoAll(obs, undo) == g.obs
        decreases Unmarked(g.obs, n.fwd), |st|
      {
        result, st, undo, n := InternNext(obj, result, st, undo, g, n);
      }
      Finished(g, n);
      org := n.org;
      Restore(undo);
      FinishedClosed(g, org, cells, result);
      InternedDenotes(g, org, cells, result);
    }

    /** The loop over the restore stack. */
    method Restore(undo0: seq<Undo>)
      modifies this`obs
      ensures obs == UndoAll(old(obs), undo0)
    {
      var undo := undo0;
      while undo != []
        invariant UndoAll(obs, undo) == UndoAll(old(obs), undo0)
      {
        obs := UndoOne(obs, undo[|undo| - 1]);
        undo := undo[..|undo| - 1];
      }
    }

    /** sk_free_obj: push the references of the cell, call an external pointer's destructor,
      * and give the memory back. */
    method FreeObj(st0: seq<Addr>, obj: Addr) returns (st: seq<Addr>)
      requires obj in cells && Clean(cells[obj])
      modifies this`cells, this`counts, this`finalized
      ensures cells == old(cells) - {obj} && counts == old(counts) - {obj}
      ensures st == st0 + Refs(old(cells)[obj])
      ensures finalized == if IsExternal(old(cells)[obj]) then old(finalized) + [obj] else old(finalized)
    {
      st := st0;
      var c := cells[obj];
      if c.String? {
        assert st == st0 + Refs(c);
      } else {
        var ty := c.vtable.ty;
        if ty.epointer {
          finalized := finalized + [obj];
        }
        st := ScanForFree(st, ty, c.len, c.words);
      }
      cells, counts := cells - {obj}, counts - {obj};
    }

    /** Take one reference from a persistent cell, and free it if that was the last. */
    method Release(st0: seq<Addr>, p: Addr, ghost before: map<Addr, Cell>, ghost base: seq<Addr>,
                   ghost gone: seq<Addr>, ghost handles: multiset<Addr>, ghost pend: multiset<Addr>)
      returns (st: seq<Addr>, ghost pushed: seq<Addr>, ghost gone': seq<Addr>)
      requires p in pend && p in cells && Draining(cells, counts, stat, handles, pend)
      requires Freed(before, cells, handles, gone) && finalized == base + Externals(before, gone)
      modifies this`cells, this`counts, this`finalized
      ensures st == st0 + pushed
      ensures Draining(cells, counts, stat, handles, pend - multiset{p} + multiset(pushed))
      ensures Freed(before, cells, handles, gone') && finalized == base + Externals(before, gone')
      ensures |cells| < |old(cells)| || (cells == old(cells) && pushed == [])
    {
      hide Draining, Freed, Externals, Refs, Clean, Balanced;
      DrainStep(cells, counts, stat, handles, pend, p);
      DrainBalanced(cells, counts, stat, handles, pend);
      counts := counts[p := counts[p] - 1];
      if counts[p] == 0 {
        FreedOne(before, cells, old(counts), handles, pend, gone, p);
        FreedCell(before, cells, handles, gone, p);
        ExternalsNext(before, gone, p);
        pushed, gone' := Refs(cells[p]), gone + [p];
        assert old(counts) - {p} == counts - {p};
        st := FreeObj(st0, p);
      } else {
        st, pushed, gone' := st0, [], gone;
        assert pend - multiset{p} + multiset(pushed) == pend - multiset{p};
      }
    }

    /** The worklist loop of sk_free_root and of sk_free_external_pointers. */
    method Drain(st0: seq<Addr>, ghost before: map<Addr, Cell>, ghost base: seq<Addr>, ghost gone0: seq<Addr>,
                 ghost handles: multiset<Addr>)
      returns (ghost gone: seq<Addr>)
      requires Draining(cells, counts, stat, handles, multiset(st0))
      requires Freed(before, cells, handles, gone0) && finalized == base + Externals(before, gone0)
      modifies this`cells, this`counts, this`finalized
      ensures Drained(before, cells, counts, stat, handles, gone)
      ensures finalized == base + Externals(before, gone)
    {
      hide Draining, Freed, Externals, Clean, Refs;
      var st := st0;
      gone := gone0;
      while st != []
        invariant Draining(cells, counts, stat, handles, multiset(st))
        invariant Freed(before, cells, handles, gone) && finalized == base + Externals(before, gone)
        decreases |cells|, |st|
      {
        ghost var pend := multiset(st);
        PopMultiset(st);
        var p := st[|st| - 1];
        st := st[..|st| - 1];
        DrainStep(cells, counts, stat, handles, pend, p);
        if p == NULL || p in stat {
          continue;
        }
        ghost var pushed: seq<Addr>;
        ghost var rest := st;
        st, pushed, gone := Release(st, p, before, base, gone, handles, pend);
        assert multiset(rest + pushed) == multiset(rest) + multiset(pushed);
      }
      DrainEnd(cells, counts, stat, handles);
    }

    /** sk_free_root. */
    method FreeRoot(obj: Addr, ghost handles: multiset<Addr>) returns (ghost gone: seq<Addr>)
      requires Exact(cells, counts, stat, handles) && (obj in handles || obj == NULL || obj in stat)
      modifies this`cells, this`counts, this`finalized
      ensures Drained(old(cells), cells, counts, stat, handles - multiset{obj}, gone)
      ensures finalized == old(finalized) + Externals(old(cells), gone)
    {
      DrainEnd(cells, counts, stat, handles);
      HandleToEntry(cells, counts, stat, handles, multiset{}, obj);
      assert multiset([obj]) == multiset{} + multiset{obj};
      FreedNone(cells, handles - multiset{obj});
      gone := Drain([obj], cells, finalized, [], handles - multiset{obj});
    }

    /** The ledger of the whole runtime, for the handles that callers hold. It says nothing of
      * the obstack, whose references into the persistent heap are not counted. */
    ghost predicate Valid(held: multiset<Addr>)
      reads this
    {
      Exact(cells, counts, stat, Roots(held, externals, context)) && StaticOk(stat)
    }

    /** Interning of something that is not static: the caller gains one reference. */
    method InternHeld(obj: Addr, ghost handles: multiset<Addr>) returns (result: Addr, ghost org: map<Addr, Addr>)
      requires Exact(cells, counts, stat, handles) && StaticOk(stat)
      requires Regions(obs, cells, stat) && (obj in obs || obj in cells)
      modifies this`obs, this`cells, this`counts
      ensures obs == old(obs) && Regions(obs, cells, stat) && SubHeap(old(cells), cells)
      ensures Interned(Init(old(obs), old(cells), stat, obj, handles), org, cells, result)
      ensures result in cells && Exact(cells, counts, stat, handles + multiset{result}) && result != NULL
      ensures SameValue(Whole(old(obs), old(cells), stat), obj, cells + stat, result)
    {
      hide Interned, Ledger, SameValue, Regions, Start, Whole, SubHeap, Held, Closed;
      ghost var g := Init(obs, cells, stat, obj, handles);
      NotNull(obs, cells, stat, obj);
      StartOf(g, counts);
      result, org := InternShared(obj, handles);
      ResultHeld(g, org, cells, counts, result);
      ResultValue(obs, cells, stat, result);
      SameValueChain(Whole(g.obs, g.cells, stat), obj, Whole(obs, cells, stat), result, cells + stat, result);
    }

    /** SKIP_create_external_pointer: the list holds the reference that interning returned. */
    method CreateExternalPointer(obj: Addr, ghost held: multiset<Addr>)
      returns (result: Addr, ghost org: map<Addr, Addr>)
      requires Valid(held) && Regions(obs, cells, stat) && (obj in obs || obj in cells)
      modifies this
      ensures Valid(held) && Regions(obs, cells, stat)
      ensures externals == [result] + old(externals) && context == old(context)
      ensures obs == old(obs) && SubHeap(old(cells), cells) && finalized == old(finalized)
      ensures Interned(Init(obs, old(cells), stat, obj, old(Roots(held, externals, context))), org, cells, result)
      ensures SameValue(Whole(old(obs), old(cells), stat), obj, cells + stat, result)
    {
      hide Exact, SameValue, Regions, Whole, SubHeap, Roots, StaticOk, Interned;
      result, org := InternHeld(obj, Roots(held, externals, context));
      externals := [result] + externals;
      RootsExternal(held, old(externals), context, result);
    }

    /** SKIP_context_init. A context that is already there is dropped without being freed: it
      * keeps a reference that nobody holds. */
    method ContextInit(obj: Addr, ghost held: multiset<Addr>) returns (ghost org: map<Addr, Addr>)
      requires Valid(held) && Regions(obs, cells, stat) && (obj in obs || obj in cells)
      modifies this
      ensures Valid(if old(context) == NULL then held else held + multiset{old(context)})
      ensures Regions(obs, cells, stat) && context in cells
      ensures externals == old(externals) && obs == old(obs) && SubHeap(old(cells), cells)
      ensures finalized == old(finalized)
      ensures Interned(Init(obs, old(cells), stat, obj, old(Roots(held, externals, context))), org, cells, context)
      ensures SameValue(Whole(old(obs), old(cells), stat), obj, cells + stat, context)
    {
      hide Exact, SameValue, Regions, Whole, SubHeap, Roots, StaticOk, Interned;
      var result;
      result, org := InternHeld(obj, Roots(held, externals, context));
      RootsContext(held, externals, context, result);
      context := result;
    }

    /** SKIP_context_get_unsafe. */
    method ContextGet(ghost held: multiset<Addr>) returns (root: Addr)
      requires Valid(held)
      modifies this`counts
      ensures root == context && (root != NULL ==> root in cells)
      ensures Valid(if root == NULL then held else held + multiset{root})
    {
      hide Exact, Roots;
      root := context;
      if context != NULL {
        ContextHeld(cells, counts, stat, held, externals, context);
        counts := counts[context := counts[context] + 1];
      }
    }

    /** The first loop of sk_free_external_pointers. */
    method ReleaseListed(list: seq<Addr>, ghost handles: multiset<Addr>)
      returns (st: seq<Addr>, ghost gone: seq<Addr>)
      requires Draining(cells, counts, stat, handles, multiset(list))
      requires forall p :: p in list ==> p in cells
      modifies this`cells, this`counts, this`finalized
      ensures Draining(cells, counts, stat, handles, multiset(st))
      ensures Freed(old(cells), cells, handles, gone)
      ensures finalized == old(finalized) + Externals(old(cells), gone)
    {
      hide Draining, Freed;
      ghost var before := cells;
      st, gone := [], [];
      FreedNone(cells, handles);
      var cursor := list;
      ListedNotStatic(cells, counts, stat, handles, list);
      assert multiset(st) + multiset(cursor) == multiset(list);
      while cursor != []
        invariant Draining(cells, counts, stat, handles, multiset(st) + multiset(cursor))
        invariant Freed(before, cells, handles, gone)
        invariant forall p :: p in cursor ==> !(p == NULL || p in stat)
        invariant finalized == old(finalized) + Externals(before, gone)
      {
        ghost var pend := multiset(st) + multiset(cursor);
        var p := cursor[0];
        assert p in cursor;
        CursorNext(cursor, multiset(st));
        DrainStep(cells, counts, stat, handles, pend, p);
        ghost var pushed: seq<Addr>;
        st, pushed, gone := Release(st, p, before, old(finalized), gone, handles, pend);
        cursor := cursor[1..];
        assert multiset(st) + multiset(cursor) == pend - multiset{p} + multiset(pushed);
      }
      assert multiset(st) + multiset(cursor) == multiset(st);
    }

    /** sk_free_external_pointers: every listed reference is dropped, then the worklist drains. */
    method FreeExternalPointers(ghost handles: multiset<Addr>) returns (ghost gone: seq<Addr>)
      requires Exact(cells, counts, stat, handles + multiset(externals))
      modifies this`cells, this`counts, this`finalized, this`externals
      ensures externals == [] && Drained(old(cells), cells, counts, stat, handles, gone)
      ensures finalized == old(finalized) + Externals(old(cells), gone)
    {
      hide Draining, Freed, Exact, Drained;
      HandlesToEntries(cells, counts, stat, handles, multiset(externals));
      var st;
      st, gone := ReleaseListed(externals, handles);
      externals := [];
      gone := Drain(st, old(cells), old(finalized), gone, handles);
    }

    /** sk_free_root on a handle that is given up: all others stay served. */
    method FreeHandle(p: Addr, ghost rest: multiset<Addr>) returns (ghost gone: seq<Addr>)
      requires Exact(cells, counts, stat, rest + One(p))
      modifies this`cells, this`counts, this`finalized
      ensures Drained(old(cells), cells, counts, stat, rest, gone)
      ensures finalized == old(finalized) + Externals(old(cells), gone)
    {
      NullNotHeld(cells, counts, stat, rest + One(p));
      DropOne(rest, p);
      gone := FreeRoot(p, rest + One(p));
    }

    /** The drops of a sync: the old root, the context's reference and the borrowed one to the
      * former root, and the external pointers. */
    method DropRoots(oldRoot: Addr, root: Addr, ghost keep: multiset<Addr>) returns (ghost gone: seq<Addr>)
      requires Exact(cells, counts, stat, keep + multiset(externals) + One(root) + One(root) + One(oldRoot))
      modifies this`cells, this`counts, this`finalized, this`externals
      ensures Drained(old(cells), cells, counts, stat, keep, gone) && externals == []
      ensures finalized == old(finalized) + Externals(old(cells), gone)
    {
      hide Exact, Freed, One, Externals;
      ghost var listed := multiset(externals);
      gone := FreeHandle(oldRoot, keep + listed + One(root) + One(root));
      ghost var m1 := cells;
      ghost var more := FreeHandle(root, keep + listed + One(root));
      FreedChain(old(cells), m1, cells, keep + listed + One(root) + One(root), keep + listed + One(root), gone, more);
      gone := gone + more;
      ghost var m2 := cells;
      more := FreeHandle(root, keep + listed);
      FreedChain(old(cells), m2, cells, keep + listed + One(root), keep + listed, gone, more);
      gone := gone + more;
      ghost var m3 := cells;
      more := FreeExternalPointers(keep);
      FreedChain(old(cells), m3, cells, keep + listed, keep, gone, more);
      gone := gone + more;
    }

    /** SKIP_context_sync_no_lock. `resolved` and `rtmp` are the obstack and the value that
      * SKIP_resolve_context leaves; the caller gives up its handle on `oldRoot`. The new root is
      * interned into `mid`, and the drops then free `gone` from it, which nobody holds. */
    method SyncNoLock(oldRoot: Addr, delta: Addr, resolved: map<Addr, Cell>, rtmp: Addr, ghost held: multiset<Addr>)
      returns (r: SyncResult, ghost org: map<Addr, Addr>, ghost mid: map<Addr, Cell>, ghost gone: seq<Addr>)
      requires Valid(held) && (oldRoot in held || oldRoot == NULL)
      requires Regions(resolved, cells, stat) && (rtmp in resolved || rtmp in cells)
      modifies this
      ensures old(context) == NULL ==> r == Failed(ERROR_CONTEXT_NOT_INITIALIZED) && Valid(held)
      ensures old(context) != NULL && (old(context) == delta || oldRoot == delta) ==>
        r == Failed(ERROR_SYNC_SAME_CONTEXT) && Valid(held + multiset{old(context)})
      ensures r.Failed? ==>
        && obs == old(obs) && cells == old(cells) && externals == old(externals) && context == old(context)
        && finalized == old(finalized)
      ensures old(context) != NULL && old(context) != delta && oldRoot != delta ==>
        && r == Synced(context) && context in cells && externals == []
        && Valid(held - multiset{oldRoot} + multiset{context})
        && obs == resolved && (Regions(obs, cells, stat) <==> NoneInto(obs, gone))
        && SameValue(Whole(resolved, old(cells), stat), rtmp, cells + stat, context)
      ensures r.Synced? ==>
        && Interned(Init(resolved, old(cells), stat, rtmp, old(Roots(held + multiset{context}, externals, context))),
                    org, mid, context)
        && Freed(mid, cells, held - multiset{oldRoot} + multiset{context}, gone)
        && finalized == old(finalized) + Externals(mid, gone)
        && Kept(old(cells), cells)
      ensures r.Synced? ==> forall q :: q in held - multiset{oldRoot} ==>
        q in cells && SameValue(old(cells) + stat, q, cells + stat, q)
    {
      hide Exact, SameValue, Regions, Whole, SubHeap, StaticOk, Roots, One, Interned, Freed, Externals, Kept, NoneInto;
      org, mid, gone := map[], cells, [];
      HeldNotNull(cells, counts, stat, held, externals, context);
      var root := ContextGet(held);
      if root == NULL {
        r := Failed(ERROR_CONTEXT_NOT_INITIALIZED);
        return;
      }
      if root == delta || oldRoot == delta {
        r := Failed(ERROR_SYNC_SAME_CONTEXT);
        return;
      }
      obs := resolved;
      var newRoot;
      newRoot, org := InternHeld(rtmp, Roots(held + multiset{root}, externals, context));
      mid := cells;
      ghost var rest := held - multiset{oldRoot};
      SyncRoots(held, externals, root, oldRoot, newRoot);
      context := newRoot;
      gone := DropRoots(oldRoot, root, rest + multiset{newRoot});
      NewRootSurvives(mid, obs, cells, counts, stat, rest, newRoot, gone);
      SameValueChain(Whole(resolved, old(cells), stat), rtmp, mid + stat, newRoot, cells + stat, newRoot);
      RegionsLeft(obs, mid, cells, counts, stat, rest + multiset{newRoot}, gone);
      OthersKept(old(cells), old(counts), old(externals), old(context), mid, obs, cells, counts, stat, held, oldRoot, newRoot, gone);
      counts := counts[newRoot := counts[newRoot] + 1];
      r := Synced(newRoot);
    }

    /** Interning and then freeing the result changes nothing at all, if there is no cycle. */
    method InternAndFree(obj: Addr, ghost handles: multiset<Addr>)
      requires Regions(obs, cells, stat) && Ledger(cells, counts, handles)
      requires obj == NULL || obj in obs || obj in cells || obj in stat
      requires Acyclic(Whole(obs, cells, stat))
      modifies this`obs, this`cells, this`counts, this`finalized
      ensures obs == old(obs) && cells == old(cells) && counts == old(counts)
    {
      hide Acyclic, Interned, Ledger, Closed, Regions, Start, SameValue, SubHeap, Held;
      ghost var g := Init(obs, cells, stat, obj, handles);
      ghost var counts0 := counts;
      if obj != NULL { StartOf(g, counts); }
      var result;
      ghost var org;
      result, org := InternShared(obj, handles);
      if obj == NULL { return; }
      ghost var copied := cells;
      ResultHeld(g, org, cells, counts, result);
      ghost var gone := FreeRoot(result, Held(handles, cells, result));
      InternThenFree(g, org, copied, result, counts0, cells, counts);
    }
  }
}
