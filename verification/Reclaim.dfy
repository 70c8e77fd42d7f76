/** Reclamation by counting: the ledger while entries wait on the free worklist, and the steps
  * that the worklist takes. `pend` is the multiset of the waiting entries. */
module Reclaim {
  import opened Heap
  import opened Counting

  /** The persistent heap between operations: closed, apart from static data, books exact. */
  ghost predicate Exact(cells: map<Addr, Cell>, counts: map<Addr, nat>, stat: map<Addr, Cell>,
                        handles: multiset<Addr>)
  {
    Closed(cells, stat) && NULL !in cells && cells.Keys !! stat.Keys && Ledger(cells, counts, handles)
  }

  /** Static data leads to static data. */
  ghost predicate StaticOk(stat: map<Addr, Cell>) {
    Closed(stat, stat) && NULL !in stat
  }

  /** Each waiting entry stands for a reference that its cell's count still includes. */
  ghost predicate Draining(cells: map<Addr, Cell>, counts: map<Addr, nat>, stat: map<Addr, Cell>,
                           handles: multiset<Addr>, pend: multiset<Addr>)
  {
    && Closed(cells, stat) && NULL !in cells && cells.Keys !! stat.Keys
    && Known(cells, stat, pend) && Balanced(cells, counts, handles, pend)
  }

  ghost predicate Known(cells: map<Addr, Cell>, stat: map<Addr, Cell>, pend: multiset<Addr>) {
    forall p :: p in pend ==> p == NULL || p in cells || p in stat
  }

  ghost predicate Balanced(cells: map<Addr, Cell>, counts: map<Addr, nat>, handles: multiset<Addr>,
                           pend: multiset<Addr>)
  {
    && counts.Keys == cells.Keys
    && (forall p :: p in handles ==> p in cells)
    && forall p :: p in cells ==> counts[p] > 0 && counts[p] == Edges(cells)[p] + handles[p] + pend[p]
  }

  /** A static or null entry is dropped; a reference to a shared cell is given back. */
  lemma DropReference(cells: map<Addr, Cell>, counts: map<Addr, nat>, stat: map<Addr, Cell>,
                      handles: multiset<Addr>, pend: multiset<Addr>, p: Addr)
    requires Draining(cells, counts, stat, handles, pend) && p in pend
    ensures p !in cells ==> Draining(cells, counts, stat, handles, pend - multiset{p})
    ensures p in cells && counts[p] > 1 ==>
      Draining(cells, counts[p := counts[p] - 1], stat, handles, pend - multiset{p})
  {
    hide Closed, Edges;
  }

  /** When the last reference to a cell is given back, no field, no handle and no other entry
    * holds it. */
  lemma NothingHolds(cells: map<Addr, Cell>, counts: map<Addr, nat>, handles: multiset<Addr>,
                     pend: multiset<Addr>, p: Addr)
    requires Balanced(cells, counts, handles, pend) && p in pend
    requires p in cells && counts[p] == 1
    ensures p !in Edges(cells) && p !in handles && p !in pend - multiset{p} && p !in Refs(cells[p])
  {
    EdgesRemove(cells, p);
  }

  lemma ClosedWithout(cells: map<Addr, Cell>, stat: map<Addr, Cell>, p: Addr)
    requires Closed(cells, stat) && p in cells && p !in Edges(cells)
    ensures Closed(cells - {p}, stat)
  {
    forall a | a in cells - {p} ensures ClosedCell((cells - {p}).Keys + stat.Keys, stat.Keys, cells[a]) {
      assert ClosedCell(cells.Keys + stat.Keys, stat.Keys, cells[a]);
      if cells[a].Object? {
        forall i | 0 <= i < |cells[a].words| && CountedAt(cells[a].vtable.ty, i) ensures cells[a].words[i] != p {
          EdgeCounted(cells, a, i);
        }
      }
    }
  }

  lemma RefsClosed(cells: map<Addr, Cell>, stat: map<Addr, Cell>, p: Addr)
    requires Closed(cells, stat) && p in cells
    ensures forall r :: r in Refs(cells[p]) ==> r == NULL || r in cells || r in stat
  {
    assert ClosedCell(cells.Keys + stat.Keys, stat.Keys, cells[p]);
    forall r | r in Refs(cells[p]) ensures r == NULL || r in cells || r in stat {
      var i := RefsSource(cells[p].vtable.ty, cells[p].words, |cells[p].words|, r);
    }
  }

  lemma FreeBalance(cells: map<Addr, Cell>, counts: map<Addr, nat>, handles: multiset<Addr>,
                    pend: multiset<Addr>, p: Addr)
    requires Balanced(cells, counts, handles, pend) && p in pend
    requires p in cells && p !in handles
    ensures Balanced(cells - {p}, counts - {p}, handles, pend - multiset{p} + multiset(Refs(cells[p])))
  {
    EdgesRemove(cells, p);
  }

  /** Without the cell the heap is still closed, and the references it held join the worklist. */
  lemma FreeCell(cells: map<Addr, Cell>, counts: map<Addr, nat>, stat: map<Addr, Cell>,
                 handles: multiset<Addr>, pend: multiset<Addr>, p: Addr)
    requires Draining(cells, counts, stat, handles, pend) && p in pend
    requires p in cells && counts[p] == 1
    ensures Draining(cells - {p}, counts - {p}, stat, handles, pend - multiset{p} + multiset(Refs(cells[p])))
  {
    NothingHolds(cells, counts, handles, pend, p);
    ClosedWithout(cells, stat, p);
    RefsClosed(cells, stat, p);
    FreeBalance(cells, counts, handles, pend, p);
  }

  /** A handle on a cell can be turned into an entry of the worklist. */
  lemma HandleToEntry(cells: map<Addr, Cell>, counts: map<Addr, nat>, stat: map<Addr, Cell>,
                      handles: multiset<Addr>, pend: multiset<Addr>, p: Addr)
    requires Draining(cells, counts, stat, handles, pend)
    requires p in handles || (p !in cells && (p == NULL || p in stat))
    ensures Draining(cells, counts, stat, handles - multiset{p}, pend + multiset{p})
  {
  }

  /** External pointers have a destructor to call when they are freed. */
  predicate IsExternal(c: Cell) {
    c.Object? && c.vtable.Type? && c.vtable.ty.epointer
  }

  /** `p` was freed when only the cells `earlier` were gone: no handle held it, and whatever
    * referred to it was gone. */
  ghost predicate Unheld(before: map<Addr, Cell>, handles: multiset<Addr>, earlier: seq<Addr>, p: Addr) {
    p !in handles && forall a :: a in before && p in Refs(before[a]) ==> a in earlier
  }

  /** `gone` lists every cell freed since `before`, each once, in the order of the frees; what is
    * left is unchanged. */
  ghost predicate Freed(before: map<Addr, Cell>, cells: map<Addr, Cell>, handles: multiset<Addr>, gone: seq<Addr>) {
    && SubHeap(cells, before)
    && (forall p :: p in gone <==> p in before && p !in cells)
    && (forall j, k :: 0 <= j < k < |gone| ==> gone[j] != gone[k])
    && (forall k :: 0 <= k < |gone| ==> Unheld(before, handles, gone[..k], gone[k]))
  }

  /** The external pointers in a list of cells: the destructors that freeing them calls. */
  ghost function Externals(before: map<Addr, Cell>, gone: seq<Addr>): seq<Addr> {
    if gone == [] then []
    else
      var p := gone[|gone| - 1];
      Externals(before, gone[..|gone| - 1]) + if p in before && IsExternal(before[p]) then [p] else []
  }

  lemma ExternalsNext(before: map<Addr, Cell>, gone: seq<Addr>, p: Addr)
    ensures Externals(before, gone + [p])
         == if p in before && IsExternal(before[p]) then Externals(before, gone) + [p] else Externals(before, gone)
  {
    assert (gone + [p])[..|gone|] == gone;
  }

  lemma ExternalsOfNone(before: map<Addr, Cell>)
    ensures Externals(before, []) == []
  {
  }

  lemma {:induction false} ExternalsConcat(before: map<Addr, Cell>, mid: map<Addr, Cell>, gone: seq<Addr>, more: seq<Addr>)
    requires SubHeap(mid, before) && forall p :: p in more ==> p in mid
    ensures Externals(before, gone + more) == Externals(before, gone) + Externals(mid, more)
  {
    hide Externals, IsExternal;
    if more == [] {
      ExternalsOfNone(mid);
      assert gone + more == gone;
    } else {
      var n := |more| - 1;
      var init, p := more[..n], more[n];
      ExternalsConcat(before, mid, gone, init);
      assert gone + more == (gone + init) + [p] && more == init + [p] && p in more;
      ExternalsNext(before, gone + init, p);
      ExternalsNext(mid, init, p);
    }
  }

  /** A destructor is called for exactly the external pointers that were freed, once for each. */
  lemma {:induction false} ExternalsOnce(before: map<Addr, Cell>, gone: seq<Addr>)
    requires forall j, k :: 0 <= j < k < |gone| ==> gone[j] != gone[k]
    ensures forall p :: p in Externals(before, gone) <==> p in gone && p in before && IsExternal(before[p])
    ensures forall j, k :: 0 <= j < k < |Externals(before, gone)| ==> Externals(before, gone)[j] != Externals(before, gone)[k]
  {
    if gone != [] {
      ExternalsOnce(before, gone[..|gone| - 1]);
      assert gone == gone[..|gone| - 1] + [gone[|gone| - 1]];
    }
  }

  /** What the drain of a worklist leaves behind. */
  ghost predicate Drained(before: map<Addr, Cell>, cells: map<Addr, Cell>, counts: map<Addr, nat>,
                          stat: map<Addr, Cell>, handles: multiset<Addr>, gone: seq<Addr>)
  {
    Exact(cells, counts, stat, handles) && Freed(before, cells, handles, gone)
  }

  lemma FreedNone(cells: map<Addr, Cell>, handles: multiset<Addr>)
    ensures Freed(cells, cells, handles, [])
  {
  }

  lemma NotReferred(cells: map<Addr, Cell>, p: Addr, a: Addr)
    requires p !in Edges(cells) && a in cells
    ensures p !in Refs(cells[a])
  {
    EdgesRemove(cells, a);
  }

  /** One more cell is freed, which nothing holds any more. */
  lemma FreedOne(before: map<Addr, Cell>, cells: map<Addr, Cell>, counts: map<Addr, nat>, handles: multiset<Addr>,
                 pend: multiset<Addr>, gone: seq<Addr>, p: Addr)
    requires Freed(before, cells, handles, gone)
    requires Balanced(cells, counts, handles, pend) && p in pend && p in cells && counts[p] == 1
    ensures Freed(before, cells - {p}, handles, gone + [p])
  {
    hide Refs, Edges, Balanced;
    NothingHolds(cells, counts, handles, pend, p);
    forall a | a in before && p in Refs(before[a]) ensures a in gone {
      if a in cells { NotReferred(cells, p, a); }
    }
    var g := gone + [p];
    forall k | 0 <= k < |g| ensures Unheld(before, handles, g[..k], g[k]) {
      if k < |gone| {
        assert g[..k] == gone[..k] && g[k] == gone[k];
        assert Unheld(before, handles, gone[..k], gone[k]);
      } else {
        assert g[..k] == gone;
      }
    }
  }

  lemma FewerHandles(before: map<Addr, Cell>, h: multiset<Addr>, h': multiset<Addr>, earlier: seq<Addr>, p: Addr)
    requires Unheld(before, h, earlier, p) && h' <= h
    ensures Unheld(before, h', earlier, p)
  {
  }

  lemma LaterUnheld(before: map<Addr, Cell>, mid: map<Addr, Cell>, h: multiset<Addr>, gone: seq<Addr>,
                    earlier: seq<Addr>, p: Addr)
    requires SubHeap(mid, before) && (forall a :: a in before && a !in mid ==> a in gone)
    requires Unheld(mid, h, earlier, p)
    ensures Unheld(before, h, gone + earlier, p)
  {
    hide Refs;
  }

  /** Frees one after the other, for handles that become fewer. */
  lemma FreedChain(before: map<Addr, Cell>, mid: map<Addr, Cell>, cells: map<Addr, Cell>, h: multiset<Addr>,
                   h': multiset<Addr>, gone: seq<Addr>, more: seq<Addr>)
    requires Freed(before, mid, h, gone) && Freed(mid, cells, h', more) && h' <= h
    ensures Freed(before, cells, h', gone + more)
    ensures Externals(before, gone + more) == Externals(before, gone) + Externals(mid, more)
  {
    hide Refs, Externals, Unheld;
    ExternalsConcat(before, mid, gone, more);
    var g := gone + more;
    forall p ensures p in g <==> p in before && p !in cells {
      assert p in g <==> p in gone || p in more;
    }
    forall j, k | 0 <= j < k < |g| ensures g[j] != g[k] {
      if j < |gone| <= k { assert gone[j] in gone && more[k - |gone|] in more; }
    }
    forall k | 0 <= k < |g| ensures Unheld(before, h', g[..k], g[k]) {
      if k < |gone| {
        assert g[..k] == gone[..k];
        FewerHandles(before, h, h', gone[..k], gone[k]);
      } else {
        var j := k - |gone|;
        assert g[..k] == gone + more[..j];
        assert Unheld(mid, h', more[..j], more[j]);
        LaterUnheld(before, mid, h', gone, more[..j], more[j]);
      }
    }
  }

  /** Which cells a free takes, in any graph, does not depend on how it goes about it: whatever
    * is freed by one way to serve the handles is freed by the other. */
  lemma FreedAlike(before: map<Addr, Cell>, stat: map<Addr, Cell>, handles: multiset<Addr>,
                   m1: map<Addr, Cell>, c1: map<Addr, nat>, g1: seq<Addr>,
                   m2: map<Addr, Cell>, c2: map<Addr, nat>, g2: seq<Addr>)
    requires Drained(before, m1, c1, stat, handles, g1) && Drained(before, m2, c2, stat, handles, g2)
    ensures m1 == m2 && c1 == c2
  {
    hide Refs, Edges, Closed;
    FreedToo(before, handles, m1, g1, m2, c2, |g1|);
    FreedToo(before, handles, m2, g2, m1, c1, |g2|);
    assert forall k :: 0 <= k < |g1| ==> g1[k] in g1;
    assert m1.Keys == m2.Keys;
    assert m1 == m2;
  }

  lemma InPrefix(s: seq<Addr>, n: nat)
    requires n <= |s|
    ensures forall a :: a in s[..n] ==> exists k :: 0 <= k < n && s[k] == a
  {
  }

  /** What lost its last reference with those cells has none in a heap without them. */
  lemma GoneToo(before: map<Addr, Cell>, handles: multiset<Addr>, earlier: seq<Addr>, p: Addr, m: map<Addr, Cell>)
    requires Unheld(before, handles, earlier, p) && SubHeap(m, before) && forall a :: a in earlier ==> a !in m
    ensures Edges(m)[p] == 0
  {
  }

  lemma {:induction false} FreedToo(before: map<Addr, Cell>, handles: multiset<Addr>, m1: map<Addr, Cell>, g1: seq<Addr>,
                                    m2: map<Addr, Cell>, c2: map<Addr, nat>, n: nat)
    requires Freed(before, m1, handles, g1) && SubHeap(m2, before) && Ledger(m2, c2, handles) && n <= |g1|
    ensures forall k :: 0 <= k < n ==> g1[k] !in m2
  {
    hide Refs, Edges;
    if n != 0 {
      FreedToo(before, handles, m1, g1, m2, c2, n - 1);
      var p := g1[n - 1];
      assert Unheld(before, handles, g1[..n - 1], p);
      InPrefix(g1, n - 1);
      GoneToo(before, handles, g1[..n - 1], p, m2);
    }
  }

  lemma {:induction false} HolderOf(m: map<Addr, Cell>, p: Addr) returns (a: Addr)
    requires Edges(m)[p] > 0
    ensures a in m && p in Refs(m[a])
    decreases |m|
  {
    hide Refs;
    a :| a in m && Edges(m) == multiset(Refs(m[a])) + Edges(m - {a});
    if p !in Refs(m[a]) {
      a := HolderOf(m - {a}, p);
    }
  }

  lemma PopMultiset(st: seq<Addr>)
    requires st != []
    ensures st[|st| - 1] in multiset(st)
    ensures multiset(st[..|st| - 1]) == multiset(st) - multiset{st[|st| - 1]}
  {
    assert st == st[..|st| - 1] + [st[|st| - 1]];
  }

  lemma EntryKnown(cells: map<Addr, Cell>, counts: map<Addr, nat>, stat: map<Addr, Cell>,
                   handles: multiset<Addr>, pend: multiset<Addr>, p: Addr)
    requires Draining(cells, counts, stat, handles, pend) && p in pend
    ensures counts.Keys == cells.Keys && (p in cells <==> !(p == NULL || p in stat))
    ensures p in cells ==> Clean(cells[p]) && counts[p] > 0
  {
    if p in cells { assert ClosedCell(cells.Keys + stat.Keys, stat.Keys, cells[p]); }
  }

  /** One turn: entry `p` gives its reference back, and its cell goes when it was the last. */
  lemma DrainStep(cells: map<Addr, Cell>, counts: map<Addr, nat>, stat: map<Addr, Cell>,
                  handles: multiset<Addr>, pend: multiset<Addr>, p: Addr)
    requires Draining(cells, counts, stat, handles, pend) && p in pend
    ensures var rest := pend - multiset{p};
      && counts.Keys == cells.Keys && (p in cells <==> !(p == NULL || p in stat))
      && (p !in cells ==> Draining(cells, counts, stat, handles, rest))
      && (p in cells ==>
            && Clean(cells[p]) && counts[p] > 0
            && (counts[p] > 1 ==> Draining(cells, counts[p := counts[p] - 1], stat, handles, rest))
            && (counts[p] == 1 ==>
                  Draining(cells - {p}, counts - {p}, stat, handles, rest + multiset(Refs(cells[p])))))
  {
    hide Draining, Refs, Clean;
    EntryKnown(cells, counts, stat, handles, pend, p);
    DropReference(cells, counts, stat, handles, pend, p);
    if p in cells && counts[p] == 1 {
      FreeCell(cells, counts, stat, handles, pend, p);
    }
  }

  /** Handles on cells turned into entries, several at once. */
  lemma HandlesToEntries(cells: map<Addr, Cell>, counts: map<Addr, nat>, stat: map<Addr, Cell>,
                         handles: multiset<Addr>, ps: multiset<Addr>)
    requires Exact(cells, counts, stat, handles + ps)
    ensures Draining(cells, counts, stat, handles, ps)
    ensures forall p :: p in ps ==> p in cells
  {
    forall p | p in ps ensures p in cells { assert p in handles + ps; }
    forall p | p in handles ensures p in cells { assert p in handles + ps; }
  }

  /** With an empty worklist the books are exact again. */
  lemma DrainEnd(cells: map<Addr, Cell>, counts: map<Addr, nat>, stat: map<Addr, Cell>, handles: multiset<Addr>)
    ensures Draining(cells, counts, stat, handles, multiset{})
       <==> Exact(cells, counts, stat, handles)
  {
  }

  /** What survives denotes what it denoted. */
  lemma SurvivorDenotes(before: map<Addr, Cell>, cells: map<Addr, Cell>, stat: map<Addr, Cell>, p: Addr)
    requires SubHeap(cells, before) && Closed(cells, stat) && Closed(stat, stat)
    requires before.Keys !! stat.Keys && (p in cells || p in stat || p == NULL)
    ensures SameValue(before + stat, p, cells + stat, p)
  {
    PartDenotes(before + stat, cells, stat, p);
  }
}
