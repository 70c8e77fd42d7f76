/** The ledger of reference counts of the persistent heap, and what it determines. */
module Counting {
  import opened Heap

  /** Every counted reference held by some cell of `m`, with its multiplicity. */
  ghost function Edges(m: map<Addr, Cell>): multiset<Addr> {
    if m == map[] then multiset{}
    else
      var a :| a in m;
      multiset(Refs(m[a])) + Edges(m - {a})
  }

  lemma {:induction false} EdgesRemove(m: map<Addr, Cell>, a: Addr)
    requires a in m
    ensures Edges(m) == multiset(Refs(m[a])) + Edges(m - {a})
    decreases |m|
  {
    hide Refs;
    assert m != map[];
    var b :| b in m && Edges(m) == multiset(Refs(m[b])) + Edges(m - {b});
    if a != b {
      EdgesRemove(m - {b}, a);
      EdgesRemove(m - {a}, b);
      assert m - {a} - {b} == m - {b} - {a};
    }
  }

  lemma EdgesAdd(m: map<Addr, Cell>, a: Addr, c: Cell)
    requires a !in m
    ensures Edges(m[a := c]) == Edges(m) + multiset(Refs(c))
  {
    hide Edges, Refs;
    EdgesRemove(m[a := c], a);
    assert m[a := c] - {a} == m;
  }

  /** Where a cell of `m` holds a counted reference to `p`, `Edges(m)` counts it. */
  lemma EdgeCounted(m: map<Addr, Cell>, a: Addr, i: nat)
    requires a in m && Clean(m[a]) && m[a].Object? && i < |m[a].words| && CountedAt(m[a].vtable.ty, i)
    ensures Edges(m)[m[a].words[i]] > 0
  {
    EdgesRemove(m, a);
    RefsHit(m[a].vtable.ty, m[a].words, |m[a].words|, i);
  }

  lemma {:induction false} RefsHit(ty: GcType, words: seq<Addr>, n: nat, i: nat)
    requires i < n <= |words| && CountedAt(ty, i)
    ensures words[i] in RefsUpTo(ty, words, n)
  {
    if i < n - 1 {
      RefsHit(ty, words, n - 1, i);
    }
  }

  /** Conversely, a counted reference to `p` sits in some cell. */
  lemma {:induction false} EdgeSource(m: map<Addr, Cell>, p: Addr) returns (a: Addr, i: nat)
    requires Edges(m)[p] > 0
    ensures a in m && m[a].Object? && m[a].vtable.Type? && i < |m[a].words|
    ensures CountedAt(m[a].vtable.ty, i) && m[a].words[i] == p
    decreases |m|
  {
    a :| a in m && Edges(m) == multiset(Refs(m[a])) + Edges(m - {a});
    if p in Refs(m[a]) {
      i := RefsSource(m[a].vtable.ty, m[a].words, |m[a].words|, p);
    } else {
      a, i := EdgeSource(m - {a}, p);
    }
  }

  lemma {:induction false} RefsSource(ty: GcType, words: seq<Addr>, n: nat, p: Addr) returns (i: nat)
    requires n <= |words| && p in RefsUpTo(ty, words, n)
    ensures i < n && CountedAt(ty, i) && words[i] == p
  {
    if CountedAt(ty, n - 1) && words[n - 1] == p {
      i := n - 1;
    } else {
      i := RefsSource(ty, words, n - 1, p);
    }
  }

  /** Overwriting one counted word overwrites one entry of the references. */
  lemma {:induction false} RefsUpdate(ty: GcType, words: seq<Addr>, i: nat, w: Addr, n: nat)
    requires i < n <= |words| && CountedAt(ty, i)
    ensures var j := |RefsUpTo(ty, words, i)|;
      && j < |RefsUpTo(ty, words, n)| && RefsUpTo(ty, words, n)[j] == words[i]
      && RefsUpTo(ty, words[i := w], n) == RefsUpTo(ty, words, n)[j := w]
  {
    if i == n - 1 {
      RefsPrefix(ty, words, words[i := w], i);
    } else {
      RefsUpdate(ty, words, i, w, n - 1);
    }
  }

  lemma {:induction false} RefsPrefix(ty: GcType, words: seq<Addr>, words': seq<Addr>, n: nat)
    requires n <= |words| && n <= |words'| && words[..n] == words'[..n]
    ensures RefsUpTo(ty, words, n) == RefsUpTo(ty, words', n)
  {
    if n != 0 {
      assert words[..n][..n - 1] == words[..n - 1] && words'[..n][..n - 1] == words'[..n - 1];
      assert words[..n][n - 1] == words'[..n][n - 1];
      RefsPrefix(ty, words, words', n - 1);
    }
  }

  lemma EdgesUpdate(m: map<Addr, Cell>, a: Addr, i: nat, w: Addr, p: Addr)
    requires a in m && m[a].Object? && m[a].vtable.Type? && i < |m[a].words|
    requires CountedAt(m[a].vtable.ty, i)
    ensures Edges(m[a := m[a].(words := m[a].words[i := w])])[p] + (if p == m[a].words[i] then 1 else 0)
         == Edges(m)[p] + (if p == w then 1 else 0)
  {
    var ty, words := m[a].vtable.ty, m[a].words;
    var m' := m[a := m[a].(words := words[i := w])];
    EdgesRemove(m, a);
    EdgesRemove(m', a);
    assert m' - {a} == m - {a};
    RefsUpdate(ty, words, i, w, |words|);
    UpdateMultiset(Refs(m[a]), |RefsUpTo(ty, words, i)|, w, p);
  }

  lemma UpdateMultiset(s: seq<Addr>, j: nat, w: Addr, p: Addr)
    requires j < |s|
    ensures multiset(s[j := w])[p] + (if p == s[j] then 1 else 0)
         == multiset(s)[p] + (if p == w then 1 else 0)
  {
    assert s == s[..j] + [s[j]] + s[j + 1..];
    assert s[j := w] == s[..j] + [w] + s[j + 1..];
  }

  /** The persistent heap is closed: counted words lead to its own cells, to static data or
    * nowhere; the uncounted reference of an external pointer leads to static data. */
  ghost predicate Closed(cells: map<Addr, Cell>, stat: map<Addr, Cell>) {
    forall a :: a in cells ==> ClosedCell(cells.Keys + stat.Keys, stat.Keys, cells[a])
  }

  ghost predicate ClosedCell(all: set<Addr>, stat: set<Addr>, c: Cell) {
    && Clean(c)
    && (c.Object? ==> forall i :: 0 <= i < |c.words| && RefAt(c.vtable.ty, i) ==>
          c.words[i] == NULL || c.words[i] in (if CountedAt(c.vtable.ty, i) then all else stat))
  }

  lemma ClosedWithin(cells: map<Addr, Cell>, stat: map<Addr, Cell>)
    requires Closed(cells, stat)
    ensures forall a :: a in cells ==> Within(cells.Keys + stat.Keys, cells[a])
  {
    forall a | a in cells ensures Within(cells.Keys + stat.Keys, cells[a]) {
      assert ClosedCell(cells.Keys + stat.Keys, stat.Keys, cells[a]);
    }
  }

  /** What lies in a closed part of the persistent heap, or is static, denotes the same there as
    * in any memory around it. */
  lemma PartDenotes(h: map<Addr, Cell>, cells: map<Addr, Cell>, stat: map<Addr, Cell>, p: Addr)
    requires Closed(cells, stat) && Closed(stat, stat) && cells.Keys !! stat.Keys
    requires SubHeap(cells, h) && SubHeap(stat, h) && (p == NULL || p in cells || p in stat)
    ensures SameValue(h, p, cells + stat, p)
  {
    ClosedWithin(cells, stat);
    ClosedWithin(stat, stat);
    var region := cells.Keys + stat.Keys;
    forall b | b in region ensures b in h && b in cells + stat && h[b] == (cells + stat)[b] && Within(region, h[b]) {
      if b in stat { assert Within(stat.Keys + stat.Keys, stat[b]); } else { assert Within(region, cells[b]); }
    }
    forall t ensures Denotes(h, p, t) <==> Denotes(cells + stat, p, t) {
      RegionDenotes(h, cells + stat, region, p, t);
    }
  }

  /** The reference-count ledger: a cell's count is the number of counted fields that hold it
    * plus the number of handles held outside the heap, and no allocated cell has count zero. */
  ghost predicate Ledger(cells: map<Addr, Cell>, counts: map<Addr, nat>, handles: multiset<Addr>) {
    && counts.Keys == cells.Keys
    && (forall p :: p in handles ==> p in cells)
    && forall p :: p in cells ==> counts[p] > 0 && counts[p] == Edges(cells)[p] + handles[p]
  }

  /** A rank that falls along every counted reference: its existence says there is no cycle. */
  ghost predicate Ranked(cells: map<Addr, Cell>, rank: map<Addr, nat>) {
    && cells.Keys <= rank.Keys
    && (forall a, i ::
          a in cells && cells[a].Object? && cells[a].vtable.Type? && 0 <= i < |cells[a].words|
          && CountedAt(cells[a].vtable.ty, i) && cells[a].words[i] in cells
          ==> rank[cells[a].words[i]] < rank[a])
  }

  ghost predicate Acyclic(cells: map<Addr, Cell>) {
    exists rank: map<Addr, nat> :: rank.Keys == cells.Keys && Ranked(cells, rank)
  }

  ghost predicate SubHeap(small: map<Addr, Cell>, big: map<Addr, Cell>) {
    small.Keys <= big.Keys && forall a :: a in small ==> small[a] == big[a]
  }

  /** In an acyclic heap the handles determine which cells survive: two exact ledgers over
    * parts of one heap that serve the same handles keep the same cells with the same counts. */
  lemma LedgerDeterminesHeap(big: map<Addr, Cell>, rank: map<Addr, nat>, stat: map<Addr, Cell>,
                             handles: multiset<Addr>,
                             m1: map<Addr, Cell>, c1: map<Addr, nat>,
                             m2: map<Addr, Cell>, c2: map<Addr, nat>)
    requires Ranked(big, rank) && SubHeap(m1, big) && SubHeap(m2, big)
    requires m1.Keys !! stat.Keys && m2.Keys !! stat.Keys && big.Keys !! stat.Keys
    requires NULL !in big
    requires Closed(m1, stat) && Ledger(m1, c1, handles)
    requires Closed(m2, stat) && Ledger(m2, c2, handles)
    ensures m1 == m2 && c1 == c2
  {
    hide Ranked, Closed, Edges, MaxRank;
    forall p | p in m1 ensures p in m2 {
      SurvivorKept(big, rank, stat, handles, m1, c1, m2, MaxRank(rank), p);
    }
    forall p | p in m2 ensures p in m1 {
      SurvivorKept(big, rank, stat, handles, m2, c2, m1, MaxRank(rank), p);
    }
    assert m1.Keys == m2.Keys;
    assert m1 == m2;
  }

  ghost function MaxRank(rank: map<Addr, nat>): (n: nat)
    ensures forall a :: a in rank ==> rank[a] <= n
  {
    if rank == map[] then 0
    else
      var a :| a in rank;
      var n := MaxRank(rank - {a});
      assert forall b :: b in rank && b != a ==> b in rank - {a} && rank[b] == (rank - {a})[b];
      if n < rank[a] then rank[a] else n
  }

  /** A cell with a positive count is held by a handle, or by a cell of higher rank. */
  lemma {:induction false} SurvivorKept(big: map<Addr, Cell>, rank: map<Addr, nat>, stat: map<Addr, Cell>,
                                        handles: multiset<Addr>, m1: map<Addr, Cell>, c1: map<Addr, nat>,
                                        m2: map<Addr, Cell>, top: nat, p: Addr)
    requires Ranked(big, rank) && SubHeap(m1, big) && SubHeap(m2, big)
    requires big.Keys !! stat.Keys && NULL !in big
    requires Closed(m1, stat) && Ledger(m1, c1, handles)
    requires Closed(m2, stat) && (forall q :: q in handles ==> q in m2)
    requires p in m1 && forall a :: a in rank ==> rank[a] <= top
    ensures p in m2
    decreases top - rank[p]
  {
    if p !in handles {
      assert Edges(m1)[p] > 0;
      var a, i := EdgeSource(m1, p);
      SurvivorKept(big, rank, stat, handles, m1, c1, m2, top, a);
      assert ClosedCell(m2.Keys + stat.Keys, stat.Keys, m2[a]);
      assert m2[a].words[i] == p;
    }
  }

  /** `a` holds a counted reference to `b`. */
  ghost predicate Refers(cells: map<Addr, Cell>, a: Addr, b: Addr) {
    && a in cells && cells[a].Object? && cells[a].vtable.Type?
    && exists i :: 0 <= i < |cells[a].words| && CountedAt(cells[a].vtable.ty, i) && cells[a].words[i] == b
  }

  /** A path along counted references. */
  ghost predicate Path(cells: map<Addr, Cell>, path: seq<Addr>) {
    path != [] && forall k :: 0 <= k < |path| - 1 ==> Refers(cells, path[k], path[k + 1])
  }

  /** In an acyclic heap with exact books nothing has leaked: every cell that is still allocated
    * is reached from a handle. */
  lemma {:induction false} NothingLeaked(cells: map<Addr, Cell>, counts: map<Addr, nat>, handles: multiset<Addr>,
                                         rank: map<Addr, nat>, top: nat, p: Addr) returns (path: seq<Addr>)
    requires Ranked(cells, rank) && Ledger(cells, counts, handles) && p in cells
    requires forall a :: a in rank ==> rank[a] <= top
    ensures Path(cells, path) && path[0] in handles && path[|path| - 1] == p
    decreases top - rank[p]
  {
    if p in handles {
      path := [p];
    } else {
      assert Edges(cells)[p] > 0;
      var a, i := EdgeSource(cells, p);
      var before := NothingLeaked(cells, counts, handles, rank, top, a);
      assert Refers(cells, a, p);
      path := before + [p];
      forall k | 0 <= k < |path| - 1 ensures Refers(cells, path[k], path[k + 1]) {
        if k < |before| - 1 { assert Refers(cells, before[k], before[k + 1]); }
      }
    }
  }
}
