/** What interning keeps while its worklist runs: which obstack cells are forwarded, which new
  * persistent cells copy them, which fields still wait, and how the counts stand. */
module Interning {
  import opened Heap
  import opened Counting

  /** A place that an entry of the worklist points to: a local variable of the caller's frame
    * (`obj` on the value side, `result` on the slot side), or word `i` of cell `a`. */
  datatype Loc = Local | Field(a: Addr, i: nat)
  datatype Entry = Entry(value: Loc, slot: Loc)

  /** Cells that get a forwarding pointer. A string shorter than a pointer has no room for one. */
  predicate Shareable(c: Cell) {
    c.String? ==> c.size >= WORD
  }

  /** The cell once a forwarding pointer has been written over its header. */
  function MarkCell(c: Cell, to: Addr): Cell {
    match c
    case Object(_, len, words) => Object(Forward(to), len, words)
    case String(hash, _, _, rest) => String(hash, MARK, Moved(to), rest)
  }

  /** The obstack while the cells of `fwd` are forwarded. */
  ghost function Marked(obs: map<Addr, Cell>, fwd: map<Addr, Addr>): map<Addr, Cell> {
    map a | a in obs :: if a in fwd then MarkCell(obs[a], fwd[a]) else obs[a]
  }

  /** What is fixed while the worklist runs: the state at the call. */
  datatype Init = Init(obs: map<Addr, Cell>, cells: map<Addr, Cell>, stat: map<Addr, Cell>,
                       obj: Addr, handles: multiset<Addr>)

  /** What moves. `org` maps each new persistent cell to the obstack cell it copies. */
  datatype Now = Now(fwd: map<Addr, Addr>, org: map<Addr, Addr>, cells: map<Addr, Cell>,
                     counts: map<Addr, nat>, result: Addr, st: seq<Entry>)

  /** The three regions are disjoint, and obstack references lead into them. */
  ghost predicate Regions(obs: map<Addr, Cell>, cells: map<Addr, Cell>, stat: map<Addr, Cell>) {
    && obs.Keys !! cells.Keys && obs.Keys !! stat.Keys && cells.Keys !! stat.Keys
    && NULL !in obs && NULL !in cells && NULL !in stat
    && Closed(cells, stat) && Closed(stat, stat)
    && forall a :: a in obs ==> ClosedCell(obs.Keys + cells.Keys + stat.Keys, stat.Keys, obs[a])
  }

  ghost predicate Start(g: Init) {
    && Regions(g.obs, g.cells, g.stat)
    && g.obj != NULL && (g.obj in g.obs || g.obj in g.cells || g.obj in g.stat)
    && forall p :: p in g.handles ==> p in g.cells
  }

  /** The word that an entry's value side points to. Marking does not touch words. */
  ghost function Value(g: Init, l: Loc): Addr {
    match l
    case Local => g.obj
    case Field(a, i) =>
      if a in g.obs && g.obs[a].Object? && i < |g.obs[a].words| then g.obs[a].words[i] else NULL
  }

  /** The values still waiting on the worklist. */
  ghost function Values(g: Init, st: seq<Entry>): seq<Addr> {
    if st == [] then [] else Values(g, st[..|st| - 1]) + [Value(g, st[|st| - 1].value)]
  }

  ghost function Due(g: Init, st: seq<Entry>): multiset<Addr> {
    multiset(Values(g, st))
  }

  /** Word `w` of a copy stands for word `v` of the original. */
  ghost predicate Settled(g: Init, org: map<Addr, Addr>, v: Addr, w: Addr) {
    if v in g.obs then w in org && org[w] == v else w == v
  }

  ghost predicate Maps(g: Init, n: Now) {
    && (forall a :: a in n.fwd ==>
          a in g.obs && Shareable(g.obs[a]) && n.fwd[a] in n.org && n.org[n.fwd[a]] == a)
    && (forall r :: r in n.org ==>
          && n.org[r] in g.obs && r != NULL && r !in g.obs && r !in g.stat && r !in g.cells
          && (Shareable(g.obs[n.org[r]]) ==> n.org[r] in n.fwd && n.fwd[n.org[r]] == r))
    && n.cells.Keys == g.cells.Keys + n.org.Keys
    && SubHeap(g.cells, n.cells)
  }

  /** `c` copies `o`: the counted words outside `waiting` are settled, all others are equal. */
  ghost predicate CopyOf(g: Init, org: map<Addr, Addr>, o: Cell, c: Cell, waiting: set<nat>) {
    if o.String? then c == o
    else
      && o.vtable.Type? && c.Object? && c.vtable == o.vtable && c.len == o.len && |c.words| == |o.words|
      && forall i :: 0 <= i < |o.words| ==>
           if CountedAt(o.vtable.ty, i) && i !in waiting then Settled(g, org, o.words[i], c.words[i])
           else c.words[i] == o.words[i]
  }

  /** The fields of copy `r` that still wait. */
  ghost function Waiting(st: seq<Entry>, r: Addr): set<nat> {
    set e | e in st && e.slot.Field? && e.slot.a == r :: e.slot.i
  }

  ghost predicate Copies(g: Init, n: Now)
    requires Maps(g, n)
  {
    forall r :: r in n.org ==> CopyOf(g, n.org, g.obs[n.org[r]], n.cells[r], Waiting(n.st, r))
  }

  ghost predicate EntryOk(g: Init, n: Now, e: Entry) {
    || e == Entry(Local, Local)
    || (&& e.slot.Field? && e.slot.a in n.org && n.org[e.slot.a] in g.obs
        && e.value == Field(n.org[e.slot.a], e.slot.i)
        && var o := g.obs[n.org[e.slot.a]];
           o.Object? && o.vtable.Type? && e.slot.i < |o.words| && o.words[e.slot.i] != NULL
           && CountedAt(o.vtable.ty, e.slot.i))
  }

  ghost predicate Entries(g: Init, n: Now) {
    (forall e :: e in n.st ==> EntryOk(g, n, e)) && Distinct(n.st)
  }

  ghost predicate Distinct(st: seq<Entry>) {
    forall j, k :: 0 <= j < k < |st| ==> st[j].slot != st[k].slot
  }

  ghost predicate RootOk(g: Init, n: Now) {
    if Entry(Local, Local) in n.st then n.result == g.obj
    else Settled(g, n.org, g.obj, n.result)
  }

  /** A count falls short of the references by the entries that still wait. */
  ghost predicate Books(g: Init, n: Now) {
    && n.counts.Keys == n.cells.Keys
    && forall p :: p in n.cells ==>
         n.counts[p] + Due(g, n.st)[p] == Edges(n.cells)[p] + g.handles[p] + if p == n.result then 1 else 0
  }

  ghost predicate Core(g: Init, n: Now) {
    Start(g) && Maps(g, n) && Copies(g, n) && Entries(g, n) && RootOk(g, n) && Books(g, n)
  }

  /** No count is zero, and the copy of a string without room for a forwarding pointer has one. */
  ghost predicate Live(g: Init, n: Now)
    requires Maps(g, n)
  {
    && (forall p :: p in n.counts ==> n.counts[p] > 0)
    && forall r :: r in n.org && r in n.counts && !Shareable(g.obs[n.org[r]]) ==> n.counts[r] == 1
  }

  /** Following counted references through the obstack leads from the argument to `v`. */
  ghost predicate Met(g: Init, v: Addr) {
    exists path :: Path(g.obs, path) && path[0] == g.obj && path[|path| - 1] == v
  }

  /** Only what the argument leads to has been copied. */
  ghost predicate Traced(g: Init, n: Now) {
    forall r :: r in n.org ==> Met(g, n.org[r])
  }

  ghost predicate Inv(g: Init, n: Now) {
    Core(g, n) && Live(g, n) && Traced(g, n)
  }

  lemma MetNext(g: Init, a: Addr, b: Addr)
    requires Met(g, a) && Refers(g.obs, a, b)
    ensures Met(g, b)
  {
    hide Refers;
    var path :| Path(g.obs, path) && path[0] == g.obj && path[|path| - 1] == a;
    var more := path + [b];
    forall k | 0 <= k < |more| - 1 ensures Refers(g.obs, more[k], more[k + 1]) {
      if k < |path| - 1 { assert Refers(g.obs, path[k], path[k + 1]); }
    }
    assert Path(g.obs, more);
  }

  /** The value of an entry is the argument, or a field of a cell that has been copied. */
  lemma EntryMet(g: Init, n: Now)
    requires Traced(g, n) && n.st != [] && EntryOk(g, n, Top(n.st))
    ensures Met(g, Value(g, Top(n.st).value))
  {
    hide Met, Clean, CountedAt;
    var e := Top(n.st);
    if e.slot.Local? {
      MetFirst(g);
    } else {
      var a := n.org[e.slot.a];
      assert Refers(g.obs, a, g.obs[a].words[e.slot.i]);
      MetNext(g, a, g.obs[a].words[e.slot.i]);
    }
  }

  lemma MetFirst(g: Init)
    ensures Met(g, g.obj)
  {
    assert Path(g.obs, [g.obj]);
  }

  function Rest(st: seq<Entry>): seq<Entry>
    requires st != []
  {
    st[..|st| - 1]
  }

  function Top(st: seq<Entry>): Entry
    requires st != []
  {
    st[|st| - 1]
  }

  lemma PopMembers(st: seq<Entry>)
    requires st != [] && Distinct(st)
    ensures forall e :: e in st <==> e in Rest(st) || e == Top(st)
    ensures forall e :: e in Rest(st) ==> e.slot != Top(st).slot
    ensures Distinct(Rest(st))
  {
    assert st == Rest(st) + [Top(st)];
  }

  /** Popping an entry ends the wait of its own slot only. */
  lemma WaitingPop(st: seq<Entry>, r: Addr)
    requires st != [] && Distinct(st)
    ensures var e := Top(st);
      Waiting(Rest(st), r) == Waiting(st, r) - (if e.slot.Field? && e.slot.a == r then {e.slot.i} else {})
  {
    PopMembers(st);
  }

  predicate Fits(cells: map<Addr, Cell>, l: Loc) {
    l.Field? ==> l.a in cells && cells[l.a].Object? && l.i < |cells[l.a].words|
  }

  /** Store `w` at a place of the persistent heap. */
  function Put(cells: map<Addr, Cell>, l: Loc, w: Addr): map<Addr, Cell>
    requires Fits(cells, l)
  {
    match l
    case Local => cells
    case Field(a, i) => cells[a := cells[a].(words := cells[a].words[i := w])]
  }

  /** The local `result` after a store. */
  function PutLocal(result: Addr, l: Loc, w: Addr): Addr {
    if l.Local? then w else result
  }

  /** Pop the top entry and settle its slot with the copy `w`, which gains a reference. */
  function Share(n: Now, w: Addr): Now
    requires n.st != [] && w in n.counts && Fits(n.cells, Top(n.st).slot)
  {
    Now(n.fwd, n.org, Put(n.cells, Top(n.st).slot, w), n.counts[w := n.counts[w] + 1],
        PutLocal(n.result, Top(n.st).slot, w), Rest(n.st))
  }

  lemma TopOk(g: Init, n: Now)
    requires Core(g, n) && n.st != []
    ensures var e := Top(n.st);
      && EntryOk(g, n, e)
      && Fits(n.cells, e.slot)
      && (e.slot.Field? ==>
            && e.slot.a in n.org && e.slot.a !in g.cells && e.slot.a !in g.obs && n.org[e.slot.a] in g.obs
            && n.cells[e.slot.a].vtable == g.obs[n.org[e.slot.a]].vtable
            && n.cells[e.slot.a].vtable.Type? && CountedAt(n.cells[e.slot.a].vtable.ty, e.slot.i)
            && n.cells[e.slot.a].words[e.slot.i] == Value(g, e.value))
      && (e.slot.Local? ==> n.result == g.obj == Value(g, e.value))
      && Value(g, e.value) != NULL
  {
    var e := Top(n.st);
    assert EntryOk(g, n, e);
    if e.slot.Field? {
      assert e.slot.i in Waiting(n.st, e.slot.a);
      assert CopyOf(g, n.org, g.obs[n.org[e.slot.a]], n.cells[e.slot.a], Waiting(n.st, e.slot.a));
    }
  }

  lemma EntriesPop(g: Init, n: Now, n': Now)
    requires Entries(g, n) && n.st != [] && n'.st == Rest(n.st) && n'.org == n.org
    ensures Entries(g, n')
  {
    PopMembers(n.st);
    forall e | e in n'.st ensures EntryOk(g, n', e) {
      assert EntryOk(g, n, e);
    }
  }

  /** A copy with one wait less, its word settled. */
  lemma CopySettles(g: Init, org: map<Addr, Addr>, o: Cell, c: Cell, waiting: set<nat>, i: nat, w: Addr)
    requires CopyOf(g, org, o, c, waiting) && o.Object? && i < |o.words|
    requires Settled(g, org, o.words[i], w) && CountedAt(o.vtable.ty, i)
    ensures CopyOf(g, org, o, c.(words := c.words[i := w]), waiting - {i})
  {
  }

  lemma ShareMaps(g: Init, n: Now, w: Addr)
    requires Maps(g, n) && n.st != [] && w in n.counts && EntryOk(g, n, Top(n.st)) && Fits(n.cells, Top(n.st).slot)
    ensures Maps(g, Share(n, w))
  {
    hide Shareable, RefAt;
  }

  lemma ShareCopies(g: Init, n: Now, w: Addr)
    requires Maps(g, n) && Copies(g, n) && Entries(g, n) && n.st != []
    requires w in n.counts && w in n.org && EntryOk(g, n, Top(n.st)) && Fits(n.cells, Top(n.st).slot)
    requires Value(g, Top(n.st).value) in g.obs && n.org[w] == Value(g, Top(n.st).value)
    ensures Maps(g, Share(n, w)) && Copies(g, Share(n, w))
  {
    hide Shareable, SubHeap, Settled, RefAt;
    ShareMaps(g, n, w);
    var n' := Share(n, w);
    var e := Top(n.st);
    forall r | r in n.org ensures CopyOf(g, n.org, g.obs[n.org[r]], n'.cells[r], Waiting(n'.st, r)) {
      assert CopyOf(g, n.org, g.obs[n.org[r]], n.cells[r], Waiting(n.st, r));
      WaitingPop(n.st, r);
      if e.slot.Field? && e.slot.a == r {
        CopySettles(g, n.org, g.obs[n.org[r]], n.cells[r], Waiting(n.st, r), e.slot.i, w);
      }
    }
  }

  lemma ShareRoot(g: Init, n: Now, w: Addr)
    requires Entries(g, n) && RootOk(g, n) && n.st != []
    requires w in n.counts && w in n.org && EntryOk(g, n, Top(n.st)) && Fits(n.cells, Top(n.st).slot)
    requires Value(g, Top(n.st).value) in g.obs && n.org[w] == Value(g, Top(n.st).value)
    ensures RootOk(g, Share(n, w))
  {
    PopMembers(n.st);
  }

  /** What ShareBooks knows about the top entry. */
  ghost predicate TopHeld(g: Init, n: Now)
    requires n.st != [] && Fits(n.cells, Top(n.st).slot)
  {
    var l, v := Top(n.st).slot, Value(g, Top(n.st).value);
    && v !in n.cells
    && (l.Local? ==> n.result == v)
    && (l.Field? ==> n.cells[l.a].vtable.Type? && CountedAt(n.cells[l.a].vtable.ty, l.i)
                     && n.cells[l.a].words[l.i] == v)
  }

  lemma DuePop(g: Init, st: seq<Entry>, p: Addr)
    requires st != []
    ensures Due(g, st)[p] == Due(g, Rest(st))[p] + if p == Value(g, Top(st).value) then 1 else 0
  {
    hide Value;
  }

  lemma ShareBook(g: Init, n: Now, w: Addr, p: Addr)
    requires Books(g, n) && n.st != [] && w in n.counts && p in n.cells
    requires Fits(n.cells, Top(n.st).slot) && TopHeld(g, n)
    ensures var n' := Share(n, w);
      n'.counts[p] + Due(g, n'.st)[p] == Edges(n'.cells)[p] + g.handles[p] + if p == n'.result then 1 else 0
  {
    hide Edges, Due, Value, RefAt;
    var l := Top(n.st).slot;
    DuePop(g, n.st, p);
    if l.Field? {
      EdgesUpdate(n.cells, l.a, l.i, w, p);
    }
  }

  lemma ShareBooks(g: Init, n: Now, w: Addr)
    requires Books(g, n) && n.st != [] && w in n.counts
    requires Fits(n.cells, Top(n.st).slot) && TopHeld(g, n)
    ensures Books(g, Share(n, w))
  {
    hide TopHeld, Edges, Due;
    forall p | p in n.cells
      ensures var n' := Share(n, w);
        n'.counts[p] + Due(g, n'.st)[p] == Edges(n'.cells)[p] + g.handles[p] + if p == n'.result then 1 else 0
    {
      ShareBook(g, n, w, p);
    }
  }

  /** A reference to a cell that has its copy already: the copy is counted once more. */
  lemma ShareStep(g: Init, n: Now, w: Addr)
    requires Core(g, n) && n.st != [] && w in n.counts && w in n.org
    requires Value(g, Top(n.st).value) in g.obs && n.org[w] == Value(g, Top(n.st).value)
    ensures Fits(n.cells, Top(n.st).slot) && Core(g, Share(n, w))
  {
    TopOk(g, n);
    ShareCopies(g, n, w);
    ShareRoot(g, n, w);
    ShareBooks(g, n, w);
    EntriesPop(g, n, Share(n, w));
  }

  /** A reference out of the obstack: a persistent target is counted once more, static data is
    * not counted, and the slot already holds the right address. */
  function Keep(n: Now, v: Addr): Now
    requires n.st != []
  {
    n.(st := Rest(n.st), counts := if v in n.counts then n.counts[v := n.counts[v] + 1] else n.counts)
  }

  lemma KeepCopies(g: Init, n: Now, n': Now)
    requires Maps(g, n) && Copies(g, n) && Entries(g, n) && n.st != []
    requires EntryOk(g, n, Top(n.st)) && Value(g, Top(n.st).value) !in g.obs
    requires n'.fwd == n.fwd && n'.org == n.org && n'.cells == n.cells && n'.st == Rest(n.st)
    ensures Maps(g, n') && Copies(g, n')
  {
    var e := Top(n.st);
    forall r | r in n.org ensures CopyOf(g, n.org, g.obs[n.org[r]], n.cells[r], Waiting(n'.st, r)) {
      assert CopyOf(g, n.org, g.obs[n.org[r]], n.cells[r], Waiting(n.st, r));
      WaitingPop(n.st, r);
      if e.slot.Field? && e.slot.a == r {
        var o, c := g.obs[n.org[r]], n.cells[r];
        CopySettles(g, n.org, o, c, Waiting(n.st, r), e.slot.i, c.words[e.slot.i]);
        assert c.(words := c.words[e.slot.i := c.words[e.slot.i]]) == c;
      }
    }
  }

  lemma KeptMaps(g: Init, n: Now, v: Addr)
    requires Maps(g, n) && n.st != []
    ensures Maps(g, Keep(n, v))
  {
    hide Shareable, SubHeap;
  }

  lemma KeepLive(g: Init, n: Now, v: Addr)
    requires Maps(g, n) && Live(g, n) && Start(g) && n.st != [] && EntryOk(g, n, Top(n.st))
    requires v == Value(g, Top(n.st).value) && v !in g.obs
    ensures Maps(g, Keep(n, v)) && Live(g, Keep(n, v))
  {
    hide Start, EntryOk, Value, Shareable, SubHeap, MarkCell;
    KeptIsOld(g, n, v);
    KeptMaps(g, n, v);
  }

  /** A word of the obstack or the argument is no copy. */
  lemma KeptIsOld(g: Init, n: Now, v: Addr)
    requires Maps(g, n) && Start(g) && n.st != [] && EntryOk(g, n, Top(n.st)) && v == Value(g, Top(n.st).value)
    ensures v !in n.org
  {
  }

  lemma KeepBooks(g: Init, n: Now, v: Addr)
    requires Books(g, n) && n.st != [] && v == Value(g, Top(n.st).value)
    ensures Books(g, Keep(n, v))
  {
  }

  lemma KeepStep(g: Init, n: Now, v: Addr)
    requires Inv(g, n) && n.st != [] && v == Value(g, Top(n.st).value) && v !in g.obs
    ensures Inv(g, Keep(n, v))
  {
    TopOk(g, n);
    EntriesPop(g, n, Keep(n, v));
    PopMembers(n.st);
    KeepCopies(g, n, Keep(n, v));
    KeepBooks(g, n, v);
    KeepLive(g, n, v);
    assert Traced(g, Keep(n, v));
  }

  /** The counted words below `n` that are not null. */
  function LiveIndices(ty: GcType, words: seq<Addr>, n: nat): (s: seq<nat>)
    requires n <= |words|
    ensures forall k :: 0 <= k < |s| ==> s[k] < n && CountedAt(ty, s[k]) && words[s[k]] != NULL
    ensures forall i :: 0 <= i < n && CountedAt(ty, i) && words[i] != NULL ==> i in s
    ensures forall j, k :: 0 <= j < k < |s| ==> s[j] < s[k]
  {
    if n == 0 then []
    else LiveIndices(ty, words, n - 1) + if CountedAt(ty, n - 1) && words[n - 1] != NULL then [n - 1] else []
  }

  function Live0(c: Cell): seq<nat> {
    if c.Object? && c.vtable.Type? then LiveIndices(c.vtable.ty, c.words, |c.words|) else []
  }

  /** What the scan of object `v` pushes for its copy `r`. */
  function Pushes(v: Addr, r: Addr, idx: seq<nat>): seq<Entry> {
    seq(|idx|, k requires 0 <= k < |idx| => Entry(Field(v, idx[k]), Field(r, idx[k])))
  }

  /** A new copy `r` of obstack cell `v`, not yet referenced; its fields wait below the top. */
  function Alloc(n: Now, v: Addr, r: Addr, c: Cell): Now
    requires n.st != []
  {
    n.(fwd := if Shareable(c) then n.fwd[v := r] else n.fwd, org := n.org[r := v],
       cells := n.cells[r := c], counts := n.counts[r := 0],
       st := Rest(n.st) + Pushes(v, r, Live0(c)) + [Top(n.st)])
  }

  ghost predicate Fresh(g: Init, n: Now, r: Addr) {
    r != NULL && r !in g.obs && r !in g.stat && r !in n.cells
  }

  lemma ValuesSnoc(g: Init, st: seq<Entry>, e: Entry)
    ensures Values(g, st + [e]) == Values(g, st) + [Value(g, e.value)]
  {
    assert (st + [e])[..|st|] == st;
  }

  lemma {:induction false} ValuesAppend(g: Init, st: seq<Entry>, es: seq<Entry>)
    ensures Values(g, st + es) == Values(g, st) + Values(g, es)
  {
    hide Value, Values;
    if es == [] {
      assert st + es == st;
      ValuesNone(g);
    } else {
      var e, before := Top(es), Rest(es);
      ValuesAppend(g, st, before);
      ValuesSnoc(g, st + before, e);
      ValuesSnoc(g, before, e);
      assert before + [e] == es && st + before + [e] == st + es;
    }
  }

  lemma ValuesNone(g: Init)
    ensures Values(g, []) == []
  {
  }

  function Pick(words: seq<Addr>, idx: seq<nat>): seq<Addr>
    requires forall k :: 0 <= k < |idx| ==> idx[k] < |words|
  {
    if idx == [] then [] else Pick(words, idx[..|idx| - 1]) + [words[idx[|idx| - 1]]]
  }

  function NonNull(s: seq<Addr>): seq<Addr> {
    if s == [] then []
    else NonNull(s[..|s| - 1]) + if s[|s| - 1] != NULL then [s[|s| - 1]] else []
  }

  lemma {:induction false} NonNullCount(s: seq<Addr>, p: Addr)
    requires p != NULL
    ensures multiset(NonNull(s))[p] == multiset(s)[p]
  {
    if s != [] {
      NonNullCount(s[..|s| - 1], p);
      assert s == s[..|s| - 1] + [s[|s| - 1]];
    }
  }

  /** The live words of an object are its references, null ones apart. */
  lemma {:induction false} PickLive(ty: GcType, words: seq<Addr>, n: nat)
    requires n <= |words|
    ensures Pick(words, LiveIndices(ty, words, n)) == NonNull(RefsUpTo(ty, words, n))
  {
    hide Pick, NonNull, CountedAt;
    PickEmpty(words);
    if n != 0 {
      PickLive(ty, words, n - 1);
      var idx, refs := LiveIndices(ty, words, n - 1), RefsUpTo(ty, words, n - 1);
      assert idx + [] == idx && refs + [] == refs;
      if CountedAt(ty, n - 1) {
        NonNullSnoc(refs, words[n - 1]);
        PickSnoc(words, idx, n - 1);
      }
    }
  }

  lemma PickEmpty(words: seq<Addr>)
    ensures Pick(words, []) == [] && NonNull([]) == []
  {
  }

  lemma NonNullSnoc(s: seq<Addr>, x: Addr)
    ensures NonNull(s + [x]) == NonNull(s) + if x != NULL then [x] else []
  {
    assert (s + [x])[..|s|] == s;
  }

  lemma PickSnoc(words: seq<Addr>, idx: seq<nat>, i: nat)
    requires i < |words| && forall k :: 0 <= k < |idx| ==> idx[k] < |words|
    ensures Pick(words, idx + [i]) == Pick(words, idx) + [words[i]]
  {
    assert (idx + [i])[..|idx|] == idx;
  }

  lemma {:induction false} PushesValues(g: Init, v: Addr, r: Addr, idx: seq<nat>)
    requires v in g.obs && g.obs[v].Object? && forall k :: 0 <= k < |idx| ==> idx[k] < |g.obs[v].words|
    ensures Values(g, Pushes(v, r, idx)) == Pick(g.obs[v].words, idx)
  {
    if idx != [] {
      var before := idx[..|idx| - 1];
      PushesValues(g, v, r, before);
      assert Rest(Pushes(v, r, idx)) == Pushes(v, r, before);
    }
  }

  lemma AllocDue(g: Init, st: seq<Entry>, v: Addr, r: Addr, p: Addr)
    requires st != [] && v in g.obs && Clean(g.obs[v]) && p != NULL
    ensures Due(g, Rest(st) + Pushes(v, r, Live0(g.obs[v])) + [Top(st)])[p]
         == Due(g, st)[p] + multiset(Refs(g.obs[v]))[p]
  {
    var c := g.obs[v];
    var ps := Pushes(v, r, Live0(c));
    ValuesAppend(g, Rest(st), ps);
    assert Rest(Rest(st) + ps + [Top(st)]) == Rest(st) + ps;
    if c.Object? {
      PushesValues(g, v, r, Live0(c));
      PickLive(c.vtable.ty, c.words, |c.words|);
      NonNullCount(Refs(c), p);
    }
  }

  lemma AllocOrg(g: Init, n: Now, v: Addr, r: Addr, q: Addr)
    requires Maps(g, n) && n.st != [] && v in g.obs && v !in n.fwd && Fresh(g, n, r)
    ensures r !in n.org
    ensures var n' := Alloc(n, v, r, g.obs[v]);
      q in n'.org ==>
        && n'.org[q] in g.obs && q != NULL && q !in g.obs && q !in g.stat && q !in g.cells
        && (Shareable(g.obs[n'.org[q]]) ==> n'.org[q] in n'.fwd && n'.fwd[n'.org[q]] == q)
  {
    hide Live0, Pushes, Shareable, SubHeap;
  }

  lemma AllocFwd(g: Init, n: Now, v: Addr, r: Addr, a: Addr)
    requires Maps(g, n) && n.st != [] && v in g.obs && r !in n.org
    ensures var n' := Alloc(n, v, r, g.obs[v]);
      a in n'.fwd ==> a in g.obs && Shareable(g.obs[a]) && n'.fwd[a] in n'.org && n'.org[n'.fwd[a]] == a
  {
    hide Live0, Pushes, Shareable, SubHeap;
  }

  lemma AllocKeys(g: Init, n: Now, v: Addr, r: Addr)
    requires Maps(g, n) && n.st != [] && v in g.obs && v !in n.fwd && Fresh(g, n, r)
    ensures var n' := Alloc(n, v, r, g.obs[v]);
      n'.cells.Keys == g.cells.Keys + n'.org.Keys && SubHeap(g.cells, n'.cells) && r !in n.org
  {
    hide Live0, Pushes, Shareable, SubHeap;
    AllocSubHeap(g.cells, n.cells, r, g.obs[v]);
    AllocOrg(g, n, v, r, r);
  }

  lemma AllocMaps(g: Init, n: Now, v: Addr, r: Addr)
    requires Maps(g, n) && n.st != [] && v in g.obs && v !in n.fwd && Fresh(g, n, r)
    ensures Maps(g, Alloc(n, v, r, g.obs[v]))
  {
    hide Live0, Pushes, Shareable, SubHeap, Clean;
    var n' := Alloc(n, v, r, g.obs[v]);
    AllocKeys(g, n, v, r);
    forall q | q in n'.org { AllocOrg(g, n, v, r, q); }
    forall a | a in n'.fwd { AllocFwd(g, n, v, r, a); }
  }

  lemma AllocSubHeap(small: map<Addr, Cell>, big: map<Addr, Cell>, r: Addr, c: Cell)
    requires SubHeap(small, big) && r !in big
    ensures SubHeap(small, big[r := c])
  {
  }

  /** The entries after a copy: those before, and those of the scan. */
  lemma AllocMembers(st: seq<Entry>, v: Addr, r: Addr, idx: seq<nat>)
    requires st != []
    ensures forall e :: e in Rest(st) + Pushes(v, r, idx) + [Top(st)] <==>
      e in st || (e.slot.Field? && e.slot.a == r && e.slot.i in idx && e.value == Field(v, e.slot.i))
  {
    var ps := Pushes(v, r, idx);
    assert st == Rest(st) + [Top(st)];
    forall i | i in idx ensures Entry(Field(v, i), Field(r, i)) in ps {
      var k :| 0 <= k < |idx| && idx[k] == i;
      assert ps[k] == Entry(Field(v, i), Field(r, i));
    }
  }

  lemma AllocWaiting(st: seq<Entry>, v: Addr, r: Addr, idx: seq<nat>, q: Addr)
    requires st != [] && forall e :: e in st && e.slot.Field? ==> e.slot.a != r
    ensures var st' := Rest(st) + Pushes(v, r, idx) + [Top(st)];
      && (q != r ==> Waiting(st', q) == Waiting(st, q))
      && (forall i :: i in Waiting(st', r) <==> i in idx)
  {
    var st' := Rest(st) + Pushes(v, r, idx) + [Top(st)];
    AllocMembers(st, v, r, idx);
    forall i | i in idx ensures i in Waiting(st', r) {
      assert Entry(Field(v, i), Field(r, i)) in st';
    }
  }

  lemma AllocDistinct(st: seq<Entry>, v: Addr, r: Addr, idx: seq<nat>)
    requires st != [] && Distinct(st) && forall e :: e in st && e.slot.Field? ==> e.slot.a != r
    requires forall j, k :: 0 <= j < k < |idx| ==> idx[j] < idx[k]
    ensures Distinct(Rest(st) + Pushes(v, r, idx) + [Top(st)])
  {
  }

  /** A plain copy of a clean cell, all of whose live counted words wait. */
  lemma PlainCopy(g: Init, org: map<Addr, Addr>, o: Cell, waiting: set<nat>)
    requires Clean(o) && NULL !in g.obs && forall i :: i in waiting <==> i in Live0(o)
    ensures CopyOf(g, org, o, o, waiting)
  {
  }

  lemma CopyOfGrows(g: Init, org: map<Addr, Addr>, o: Cell, c: Cell, waiting: set<nat>, r: Addr, v: Addr)
    requires CopyOf(g, org, o, c, waiting) && r !in org
    ensures CopyOf(g, org[r := v], o, c, waiting)
  {
  }

  lemma SlotsElsewhere(g: Init, n: Now, r: Addr)
    requires Entries(g, n) && r !in n.org
    ensures forall e :: e in n.st && e.slot.Field? ==> e.slot.a != r
  {
    forall e | e in n.st && e.slot.Field? ensures e.slot.a != r {
      assert EntryOk(g, n, e);
    }
  }

  lemma AllocCopies(g: Init, n: Now, v: Addr, r: Addr)
    requires NULL !in g.obs && Maps(g, n) && Copies(g, n) && Entries(g, n) && n.st != []
    requires v in g.obs && Clean(g.obs[v]) && v !in n.fwd && Fresh(g, n, r)
    ensures var n' := Alloc(n, v, r, g.obs[v]); Maps(g, n') && Copies(g, n')
  {
    var n' := Alloc(n, v, r, g.obs[v]);
    AllocMaps(g, n, v, r);
    assert r !in n.org;
    SlotsElsewhere(g, n, r);
    forall q | q in n'.org ensures CopyOf(g, n'.org, g.obs[n'.org[q]], n'.cells[q], Waiting(n'.st, q)) {
      AllocWaiting(n.st, v, r, Live0(g.obs[v]), q);
      if q == r {
        PlainCopy(g, n'.org, g.obs[v], Waiting(n'.st, r));
      } else {
        assert CopyOf(g, n.org, g.obs[n.org[q]], n.cells[q], Waiting(n.st, q));
        CopyOfGrows(g, n.org, g.obs[n.org[q]], n.cells[q], Waiting(n.st, q), r, v);
      }
    }
  }

  lemma AllocEntries(g: Init, n: Now, v: Addr, r: Addr)
    requires Entries(g, n) && n.st != [] && r !in n.org && v in g.obs && Clean(g.obs[v])
    ensures Entries(g, Alloc(n, v, r, g.obs[v]))
  {
    var n' := Alloc(n, v, r, g.obs[v]);
    SlotsElsewhere(g, n, r);
    AllocMembers(n.st, v, r, Live0(g.obs[v]));
    AllocDistinct(n.st, v, r, Live0(g.obs[v]));
    forall e | e in n'.st ensures EntryOk(g, n', e) {
      if e in n.st { assert EntryOk(g, n, e); }
    }
  }

  lemma AllocRoot(g: Init, n: Now, v: Addr, r: Addr)
    requires RootOk(g, n) && n.st != [] && r !in n.org && v in g.obs
    ensures RootOk(g, Alloc(n, v, r, g.obs[v]))
  {
    AllocMembers(n.st, v, r, Live0(g.obs[v]));
  }

  /** Where words that are references may lead while interning runs. */
  ghost predicate Mapped(g: Init, n: Now, p: Addr) {
    p == NULL || p in g.obs || p in n.cells || p in g.stat
  }

  lemma ValueMapped(g: Init, n: Now, e: Entry)
    requires Start(g) && Maps(g, n) && EntryOk(g, n, e)
    ensures Mapped(g, n, Value(g, e.value))
  {
    if e.slot.Field? {
      assert ClosedCell(g.obs.Keys + g.cells.Keys + g.stat.Keys, g.stat.Keys, g.obs[n.org[e.slot.a]]);
    }
  }

  lemma WordMapped(g: Init, n: Now, a: Addr, i: nat)
    requires Start(g) && Maps(g, n) && Copies(g, n)
    requires a in n.cells && n.cells[a].Object? && n.cells[a].vtable.Type? && i < |n.cells[a].words|
    requires CountedAt(n.cells[a].vtable.ty, i)
    ensures Mapped(g, n, n.cells[a].words[i])
  {
    if a in n.org {
      assert CopyOf(g, n.org, g.obs[n.org[a]], n.cells[a], Waiting(n.st, a));
      assert ClosedCell(g.obs.Keys + g.cells.Keys + g.stat.Keys, g.stat.Keys, g.obs[n.org[a]]);
    } else {
      assert ClosedCell(g.cells.Keys + g.stat.Keys, g.stat.Keys, g.cells[a]);
    }
  }

  /** Nothing refers to a fresh address. */
  lemma FreshEdges(g: Init, n: Now, r: Addr)
    requires Start(g) && Maps(g, n) && Copies(g, n) && Fresh(g, n, r)
    ensures Edges(n.cells)[r] == 0
  {
    if Edges(n.cells)[r] > 0 {
      var a, i := EdgeSource(n.cells, r);
      WordMapped(g, n, a, i);
    }
  }

  lemma {:induction false} FreshDue(g: Init, n: Now, r: Addr, k: nat)
    requires Start(g) && Maps(g, n) && Entries(g, n) && Fresh(g, n, r) && k <= |n.st|
    ensures Due(g, n.st[..k])[r] == 0
  {
    if k != 0 {
      FreshDue(g, n, r, k - 1);
      assert n.st[..k][..k - 1] == n.st[..k - 1];
      ValueMapped(g, n, n.st[k - 1]);
    }
  }

  lemma FreshRefs(g: Init, n: Now, v: Addr, r: Addr)
    requires Start(g) && Maps(g, n) && v in g.obs && Fresh(g, n, r)
    ensures r !in Refs(g.obs[v])
  {
    var c := g.obs[v];
    assert ClosedCell(g.obs.Keys + g.cells.Keys + g.stat.Keys, g.stat.Keys, c);
    if r in Refs(g.obs[v]) {
      var i := RefsSource(c.vtable.ty, c.words, |c.words|, r);
    }
  }

  lemma AllocBook(g: Init, n: Now, v: Addr, r: Addr, p: Addr)
    requires Books(g, n) && n.st != [] && v in g.obs && Clean(g.obs[v]) && r !in n.cells
    requires p != NULL && (p in n.cells || p == r)
    requires Edges(n.cells)[r] == 0 && Due(g, n.st)[r] == 0 && r !in Refs(g.obs[v])
    requires r !in g.handles && r != n.result
    ensures var n' := Alloc(n, v, r, g.obs[v]);
      n'.counts[p] + Due(g, n'.st)[p] == Edges(n'.cells)[p] + g.handles[p] + if p == n'.result then 1 else 0
  {
    EdgesAdd(n.cells, r, g.obs[v]);
    AllocDue(g, n.st, v, r, p);
  }

  lemma AllocBooks(g: Init, n: Now, v: Addr, r: Addr)
    requires Books(g, n) && n.st != [] && v in g.obs && Clean(g.obs[v]) && r !in n.cells
    requires NULL !in n.cells && r != NULL
    requires Edges(n.cells)[r] == 0 && Due(g, n.st)[r] == 0 && r !in Refs(g.obs[v])
    requires r !in g.handles && r != n.result
    ensures Books(g, Alloc(n, v, r, g.obs[v]))
  {
    hide Live0, Pushes, Shareable, Edges, Due, Refs, Clean;
    var n' := Alloc(n, v, r, g.obs[v]);
    forall p | p in n'.cells
      ensures n'.counts[p] + Due(g, n'.st)[p] == Edges(n'.cells)[p] + g.handles[p] + if p == n'.result then 1 else 0
    {
      AllocBook(g, n, v, r, p);
    }
  }

  lemma AllocFacts(g: Init, n: Now, v: Addr, r: Addr)
    requires Start(g) && Maps(g, n) && RootOk(g, n) && v in g.obs && Fresh(g, n, r)
    ensures Clean(g.obs[v]) && r !in n.org && r !in g.handles && r != n.result
    ensures NULL !in g.obs && NULL !in n.cells && r !in n.cells
  {
    assert ClosedCell(g.obs.Keys + g.cells.Keys + g.stat.Keys, g.stat.Keys, g.obs[v]);
  }

  lemma AllocStep(g: Init, n: Now, v: Addr, r: Addr)
    requires Core(g, n) && n.st != [] && v in g.obs && v !in n.fwd && Fresh(g, n, r)
    ensures Core(g, Alloc(n, v, r, g.obs[v]))
  {
    hide Copies, Entries, RootOk, Books, Alloc, Clean, Edges, Due, Refs, Settled, Regions;
    AllocFacts(g, n, v, r);
    AllocCopies(g, n, v, r);
    AllocEntries(g, n, v, r);
    AllocRoot(g, n, v, r);
    FreshEdges(g, n, r);
    FreshDue(g, n, r, |n.st|);
    assert n.st[..|n.st|] == n.st;
    FreshRefs(g, n, v, r);
    AllocBooks(g, n, v, r);
  }

  /** The state after a cell has been copied and its first reference settled. */
  function CopyNext(n: Now, v: Addr, r: Addr, c: Cell): Now
    requires n.st != [] && Fits(n.cells[r := c], Top(n.st).slot)
  {
    Now(if Shareable(c) then n.fwd[v := r] else n.fwd, n.org[r := v],
        Put(n.cells[r := c], Top(n.st).slot, r), n.counts[r := 1],
        PutLocal(n.result, Top(n.st).slot, r), Rest(n.st) + Pushes(v, r, Live0(c)))
  }

  lemma AllocThenShare(n: Now, v: Addr, r: Addr, c: Cell)
    requires n.st != [] && Fits(n.cells[r := c], Top(n.st).slot)
    ensures var n1 := Alloc(n, v, r, c);
      && n1.st != [] && Top(n1.st) == Top(n.st) && r in n1.counts && r in n1.org && n1.org[r] == v
      && Fits(n1.cells, Top(n1.st).slot) && Share(n1, r) == CopyNext(n, v, r, c)
  {
    hide Live0, Pushes, Shareable, Put, PutLocal;
    var n1 := Alloc(n, v, r, c);
    assert Top(n1.st) == Top(n.st) && Rest(n1.st) == Rest(n.st) + Pushes(v, r, Live0(c));
    assert n.counts[r := 0][r := 1] == n.counts[r := 1];
  }

  lemma CopyLive(g: Init, n: Now, v: Addr, r: Addr)
    requires Maps(g, n) && Live(g, n) && n.st != [] && v in g.obs && Fits(n.cells[r := g.obs[v]], Top(n.st).slot)
    requires Maps(g, CopyNext(n, v, r, g.obs[v])) && r !in n.org
    ensures Live(g, CopyNext(n, v, r, g.obs[v]))
  {
  }

  /** An obstack cell is met for the first time, or is a string too short to be marked. */
  lemma CopyStep(g: Init, n: Now, v: Addr, r: Addr)
    requires Inv(g, n) && n.st != [] && v == Value(g, Top(n.st).value)
    requires v in g.obs && v !in n.fwd && Fresh(g, n, r)
    ensures Fits(n.cells, Top(n.st).slot) && Fits(n.cells[r := g.obs[v]], Top(n.st).slot)
    ensures Top(n.st).slot.Field? ==> Top(n.st).slot.a != r
    ensures Inv(g, CopyNext(n, v, r, g.obs[v]))
    ensures !Shareable(g.obs[v]) ==> Pushes(v, r, Live0(g.obs[v])) == []
  {
    hide Start, Maps, Copies, Entries, RootOk, Books, Live, Alloc, Live0, LiveIndices, Met;
    TopOk(g, n);
    EntryMet(g, n);
    AllocFacts(g, n, v, r);
    AllocStep(g, n, v, r);
    AllocThenShare(n, v, r, g.obs[v]);
    ShareStep(g, Alloc(n, v, r, g.obs[v]), r);
    CopyLive(g, n, v, r);
    ShortString(v, r, g.obs[v]);
  }

  lemma ShortString(v: Addr, r: Addr, c: Cell)
    ensures !Shareable(c) ==> Pushes(v, r, Live0(c)) == []
  {
  }

  lemma ForwardLive(g: Init, n: Now, v: Addr)
    requires Maps(g, n) && Live(g, n) && n.st != [] && Fits(n.cells, Top(n.st).slot)
    requires v in n.fwd && n.fwd[v] in n.counts
    requires Maps(g, Share(n, n.fwd[v]))
    ensures Live(g, Share(n, n.fwd[v]))
  {
  }

  /** A forwarded cell is met again. */
  lemma ForwardStep(g: Init, n: Now, v: Addr)
    requires Inv(g, n) && n.st != [] && v == Value(g, Top(n.st).value) && v in n.fwd
    ensures n.fwd[v] in n.counts && Fits(n.cells, Top(n.st).slot) && Inv(g, Share(n, n.fwd[v]))
  {
    TopOk(g, n);
    ShareStep(g, n, n.fwd[v]);
    ForwardLive(g, n, v);
  }

  predicate Forwarded(c: Cell) {
    match c
    case Object(vt, _, _) => vt.Forward?
    case String(_, size, head, _) => size == MARK && head.Moved?
  }

  function Target(c: Cell): Addr
    requires Forwarded(c)
  {
    if c.Object? then c.vtable.to else c.head.to
  }

  /** What the loop finds at obstack address `v`. */
  lemma MarkedCell(g: Init, n: Now, v: Addr)
    requires Start(g) && Maps(g, n) && n.counts.Keys == n.cells.Keys && v in g.obs
    ensures var c := Marked(g.obs, n.fwd)[v];
      if v in n.fwd then Forwarded(c) && Target(c) == n.fwd[v] && Target(c) in n.counts
      else c == g.obs[v] && Clean(c) && !Forwarded(c)
  {
    assert ClosedCell(g.obs.Keys + g.cells.Keys + g.stat.Keys, g.stat.Keys, g.obs[v]);
  }

  /** What the loop may rely on when it takes the top entry. */
  lemma NextEntry(g: Init, n: Now)
    requires Inv(g, n) && n.st != []
    ensures n.counts.Keys == n.cells.Keys && n.fwd.Keys <= g.obs.Keys == Marked(g.obs, n.fwd).Keys
    ensures var e, obs := Top(n.st), Marked(g.obs, n.fwd);
      var v := Value(g, e.value);
      && Fits(n.cells, e.slot)
      && (e.value.Field? ==> e.value.a in obs && obs[e.value.a].Object? && e.value.i < |obs[e.value.a].words|
                             && obs[e.value.a].words[e.value.i] == v)
      && (v !in g.obs ==> (v in n.counts <==> !(v == NULL || v in g.stat)))
      && (v in n.fwd ==> v in g.obs && Forwarded(obs[v]) && Target(obs[v]) == n.fwd[v] && n.fwd[v] in n.counts)
      && (v in g.obs && v !in n.fwd ==> obs[v] == g.obs[v] && Clean(obs[v]) && !Forwarded(obs[v]))
  {
    hide Copies, RootOk, Books, Start, Maps, Entries, Live, Clean, Forwarded, Target, MarkCell;
    TopOk(g, n);
    CoreFacts(g, n);
    var v := Value(g, Top(n.st).value);
    ValueMapped(g, n, Top(n.st));
    if v in g.obs { MarkedCell(g, n, v); }
    var l := Top(n.st).value;
    if l.Field? { MarkedWords(g.obs, n.fwd, l.a); }
  }

  lemma MarkedWords(obs: map<Addr, Cell>, fwd: map<Addr, Addr>, a: Addr)
    requires a in obs && obs[a].Object?
    ensures var m := Marked(obs, fwd); a in m && m[a].Object? && m[a].words == obs[a].words
  {
  }

  lemma CoreFacts(g: Init, n: Now)
    requires Core(g, n)
    ensures n.counts.Keys == n.cells.Keys && n.fwd.Keys <= g.obs.Keys == Marked(g.obs, n.fwd).Keys
    ensures g.obs.Keys !! n.cells.Keys && n.cells.Keys !! g.stat.Keys && NULL !in n.cells && NULL !in g.obs
  {
    hide Copies, Entries, RootOk, CopyOf, Due, Edges, SubHeap, Shareable, MarkCell, Closed, ClosedCell;
  }

  /** The obstack cells without a forwarding pointer: how often the worklist can still grow. */
  ghost function Unmarked(obs: map<Addr, Cell>, fwd: map<Addr, Addr>): nat {
    |obs.Keys - fwd.Keys|
  }

  lemma MarkedNext(obs: map<Addr, Cell>, fwd: map<Addr, Addr>, v: Addr, r: Addr)
    requires v in obs && v !in fwd
    ensures Marked(obs, fwd[v := r]) == Marked(obs, fwd)[v := MarkCell(obs[v], r)]
    ensures Unmarked(obs, fwd[v := r]) < Unmarked(obs, fwd)
  {
    assert obs.Keys - fwd[v := r].Keys == (obs.Keys - fwd.Keys) - {v};
  }

  lemma BeginBooks(g: Init, n: Now)
    requires Ledger(g.cells, n.counts, g.handles)
    requires n.cells == g.cells && n.st == [Entry(Local, Local)] && n.result == g.obj
    ensures Books(g, n)
  {
    assert n.st[..0] == [];
    assert Values(g, n.st) == [] + [g.obj];
    assert Due(g, n.st) == multiset{g.obj};
  }

  lemma HeldNull(handles: multiset<Addr>, obs: map<Addr, Cell>, cells: map<Addr, Cell>, stat: map<Addr, Cell>)
    requires Regions(obs, cells, stat)
    ensures Held(handles, cells, NULL) == handles
    ensures SameValue(Whole(obs, cells, stat), NULL, Whole(obs, cells, stat), NULL)
  {
  }

  lemma BeginCore(g: Init, counts: map<Addr, nat>)
    requires Start(g) && Ledger(g.cells, counts, g.handles)
    ensures Core(g, Now(map[], map[], g.cells, counts, g.obj, [Entry(Local, Local)]))
  {
    hide Start, Books, Settled, Ledger;
    var n := Now(map[], map[], g.cells, counts, g.obj, [Entry(Local, Local)]);
    BeginBooks(g, n);
    assert forall e :: e in n.st ==> e == Entry(Local, Local);
  }

  lemma Begin(g: Init, counts: map<Addr, nat>)
    requires Regions(g.obs, g.cells, g.stat) && Ledger(g.cells, counts, g.handles)
    requires g.obj != NULL && (g.obj in g.obs || g.obj in g.cells || g.obj in g.stat)
    ensures Start(g)
    ensures Marked(g.obs, map[]) == g.obs
    ensures Inv(g, Now(map[], map[], g.cells, counts, g.obj, [Entry(Local, Local)]))
  {
    hide Regions, Maps, Copies, Entries, RootOk, Books, Edges, Closed;
    BeginCore(g, counts);
    BeginLive(g, counts);
  }

  lemma BeginLive(g: Init, counts: map<Addr, nat>)
    requires Ledger(g.cells, counts, g.handles)
    requires Maps(g, Now(map[], map[], g.cells, counts, g.obj, [Entry(Local, Local)]))
    ensures Live(g, Now(map[], map[], g.cells, counts, g.obj, [Entry(Local, Local)]))
    ensures Marked(g.obs, map[]) == g.obs
  {
    hide Edges, Maps;
  }

  // ------------------------------------------------------------------------------------------
  // What the invariant says once the worklist is empty
  // ------------------------------------------------------------------------------------------

  /** `org` describes a finished copy: every counted word of a new cell is settled, every other
    * word and every string is the original's, and shareable cells were copied once. */
  ghost predicate Interned(g: Init, org: map<Addr, Addr>, cells: map<Addr, Cell>, result: Addr) {
    && cells.Keys == g.cells.Keys + org.Keys && SubHeap(g.cells, cells)
    && (forall r :: r in org ==>
          && org[r] in g.obs && r != NULL && r !in g.obs && r !in g.stat && r !in g.cells
          && CopyOf(g, org, g.obs[org[r]], cells[r], {}))
    && (forall r, s :: r in org && s in org && org[r] == org[s] && Shareable(g.obs[org[r]]) ==> r == s)
    && (forall r :: r in org ==> Met(g, org[r]))
    && Settled(g, org, g.obj, result)
  }

  lemma MetInside(g: Init, v: Addr)
    requires Met(g, v) && v in g.obs
    ensures g.obj in g.obs
  {
    var path :| Path(g.obs, path) && path[0] == g.obj && path[|path| - 1] == v;
    assert 0 < |path| - 1 ==> Refers(g.obs, path[0], path[1]);
  }

  /** What lies outside the obstack is returned as it is, and nothing is allocated. */
  lemma NothingToCopy(g: Init, org: map<Addr, Addr>, cells: map<Addr, Cell>, result: Addr)
    requires Interned(g, org, cells, result) && g.obj !in g.obs
    ensures result == g.obj && org == map[] && cells == g.cells
  {
    if r :| r in org {
      MetInside(g, org[r]);
    }
    assert org.Keys == {};
  }

  ghost predicate Mapped0(g: Init, v: Addr) {
    v == NULL || v in g.obs || v in g.cells || v in g.stat
  }

  /** Outside the obstack the heap after the copy denotes what it denoted before. */
  lemma FrameDenotes(g: Init, org: map<Addr, Addr>, cells: map<Addr, Cell>, result: Addr, v: Addr)
    requires Start(g) && Interned(g, org, cells, result) && Mapped0(g, v) && v !in g.obs
    ensures SameValue(Whole(g.obs, g.cells, g.stat), v, Whole(g.obs, cells, g.stat), v)
  {
    PartDenotes(Whole(g.obs, g.cells, g.stat), g.cells, g.stat, v);
    PartDenotes(Whole(g.obs, cells, g.stat), g.cells, g.stat, v);
  }

  /** An obstack cell and its settled copy. */
  lemma SettledCell(g: Init, org: map<Addr, Addr>, cells: map<Addr, Cell>, result: Addr, v: Addr, w: Addr)
    requires Start(g) && Interned(g, org, cells, result) && v in g.obs && Settled(g, org, v, w)
    ensures v != NULL && w != NULL && w in cells && w !in g.obs && w !in g.stat && Clean(g.obs[v])
    ensures v !in g.cells && v !in g.stat && CopyOf(g, org, g.obs[v], cells[w], {})
    ensures ClosedCell(g.obs.Keys + g.cells.Keys + g.stat.Keys, g.stat.Keys, g.obs[v])
  {
  }

  lemma FieldMapped(g: Init, o: Cell, i: nat)
    requires ClosedCell(g.obs.Keys + g.cells.Keys + g.stat.Keys, g.stat.Keys, o)
    requires o.Object? && o.vtable.Type? && i < |o.words| && RefAt(o.vtable.ty, i)
    ensures Mapped0(g, o.words[i])
  {
  }

  /** A settled word denotes what the original's word denoted. */
  lemma {:induction false} SettledDenotes(g: Init, org: map<Addr, Addr>, cells: map<Addr, Cell>, result: Addr,
                                          v: Addr, w: Addr, t: Tree)
    requires Start(g) && Interned(g, org, cells, result) && Mapped0(g, v) && Settled(g, org, v, w)
    ensures Denotes(Whole(g.obs, g.cells, g.stat), v, t) <==> Denotes(Whole(g.obs, cells, g.stat), w, t)
    decreases t
  {
    hide Start, Interned, ClosedCell;
    var h, h' := Whole(g.obs, g.cells, g.stat), Whole(g.obs, cells, g.stat);
    if v !in g.obs {
      FrameDenotes(g, org, cells, result, v);
    } else {
      SettledCell(g, org, cells, result, v, w);
      var o, c := h[v], h'[w];
      assert o == g.obs[v] && c == cells[w];
      if t.Record? && o.Object? && o.vtable.ty == t.ty && |t.fields| == |o.words| {
        forall i | 0 <= i < |t.fields|
          ensures DenotesPart(h, t.ty, i, o.words[i], t.fields[i]) <==> DenotesPart(h', t.ty, i, c.words[i], t.fields[i])
        {
          if RefAt(t.ty, i) && t.fields[i].Sub? {
            FieldMapped(g, o, i);
            SettledWord(g, org, o, c, i);
            SettledDenotes(g, org, cells, result, o.words[i], c.words[i], t.fields[i].t);
          }
        }
      }
    }
  }

  /** A reference of a copy is settled; one that is not counted stays static. */
  lemma SettledWord(g: Init, org: map<Addr, Addr>, o: Cell, c: Cell, i: nat)
    requires CopyOf(g, org, o, c, {}) && Start(g)
    requires o.Object? && o.vtable.Type? && i < |o.words| && c.Object? && |c.words| == |o.words| && RefAt(o.vtable.ty, i)
    requires ClosedCell(g.obs.Keys + g.cells.Keys + g.stat.Keys, g.stat.Keys, o)
    ensures Settled(g, org, o.words[i], c.words[i])
  {
  }

  lemma InternedDenotes(g: Init, org: map<Addr, Addr>, cells: map<Addr, Cell>, result: Addr)
    requires Start(g) && Interned(g, org, cells, result)
    ensures SameValue(Whole(g.obs, g.cells, g.stat), g.obj, Whole(g.obs, cells, g.stat), result)
  {
    forall t ensures Denotes(Whole(g.obs, g.cells, g.stat), g.obj, t) <==> Denotes(Whole(g.obs, cells, g.stat), result, t) {
      SettledDenotes(g, org, cells, result, g.obj, result, t);
    }
  }

  /** The handles once the caller holds `result`. */
  function Held(handles: multiset<Addr>, cells: map<Addr, Cell>, result: Addr): multiset<Addr> {
    if result in cells then handles + multiset{result} else handles
  }

  lemma FinishedClosed(g: Init, org: map<Addr, Addr>, cells: map<Addr, Cell>, result: Addr)
    requires Start(g) && Interned(g, org, cells, result)
    ensures Regions(g.obs, cells, g.stat)
  {
    forall a | a in cells ensures ClosedCell(cells.Keys + g.stat.Keys, g.stat.Keys, cells[a]) {
      if a in org {
        assert ClosedCell(g.obs.Keys + g.cells.Keys + g.stat.Keys, g.stat.Keys, g.obs[org[a]]);
        assert CopyOf(g, org, g.obs[org[a]], cells[a], {});
      } else {
        assert ClosedCell(g.cells.Keys + g.stat.Keys, g.stat.Keys, g.cells[a]);
      }
    }
    forall a | a in g.obs ensures ClosedCell(g.obs.Keys + cells.Keys + g.stat.Keys, g.stat.Keys, g.obs[a]) {
      assert ClosedCell(g.obs.Keys + g.cells.Keys + g.stat.Keys, g.stat.Keys, g.obs[a]);
    }
  }

  lemma FinishedCopy(g: Init, n: Now)
    requires Maps(g, n) && Copies(g, n) && RootOk(g, n) && Traced(g, n) && n.st == []
    ensures Interned(g, n.org, n.cells, n.result)
  {
    hide Met, SubHeap, Settled, Shareable;
    forall r | r in n.org ensures CopyOf(g, n.org, g.obs[n.org[r]], n.cells[r], {}) {
      assert CopyOf(g, n.org, g.obs[n.org[r]], n.cells[r], Waiting(n.st, r));
      assert Waiting(n.st, r) == {};
    }
  }

  lemma FinishedBooks(g: Init, n: Now)
    requires Books(g, n) && n.st == [] && (forall p :: p in n.counts ==> n.counts[p] > 0)
    requires forall p :: p in g.handles ==> p in n.cells
    ensures Ledger(n.cells, n.counts, Held(g.handles, n.cells, n.result))
  {
    hide Edges;
    assert Values(g, n.st) == [];
  }

  lemma Finished(g: Init, n: Now)
    requires Inv(g, n) && n.st == []
    ensures Interned(g, n.org, n.cells, n.result)
    ensures Ledger(n.cells, n.counts, Held(g.handles, n.cells, n.result))
    ensures Singles(g.obs, n.org, n.counts)
  {
    hide Copies, Entries, RootOk, Books, Interned, Ledger, Settled, Traced;
    CoreFacts(g, n);
    FinishedCopy(g, n);
    FinishedBooks(g, n);
  }

  /** A copy of a string too short to be marked belongs to one reference. */
  ghost predicate Singles(obs: map<Addr, Cell>, org: map<Addr, Addr>, counts: map<Addr, nat>) {
    forall r :: r in org ==> org[r] in obs && r in counts && (!Shareable(obs[org[r]]) ==> counts[r] == 1)
  }

  /** A rank for the heap after the copy: a copy ranks as its original. */
  ghost function CopyRank(rank: map<Addr, nat>, org: map<Addr, Addr>): map<Addr, nat>
    requires forall r :: r in org ==> org[r] in rank
  {
    rank + map r | r in org :: rank[org[r]]
  }

  /** Interning an acyclic graph into an acyclic heap leaves an acyclic heap. */
  lemma InternedRanked(g: Init, org: map<Addr, Addr>, cells: map<Addr, Cell>, result: Addr, rank: map<Addr, nat>)
    requires Start(g) && Interned(g, org, cells, result)
    requires Ranked(Whole(g.obs, g.cells, g.stat), rank) && rank.Keys == Whole(g.obs, g.cells, g.stat).Keys
    ensures Ranked(cells, CopyRank(rank, org))
  {
    var rank' := CopyRank(rank, org);
    forall a, i | a in cells && cells[a].Object? && cells[a].vtable.Type? && 0 <= i < |cells[a].words|
                  && CountedAt(cells[a].vtable.ty, i) && cells[a].words[i] in cells
      ensures rank'[cells[a].words[i]] < rank'[a]
    {
      RankFalls(g, org, cells, result, rank, a, i);
    }
  }

  lemma RankFalls(g: Init, org: map<Addr, Addr>, cells: map<Addr, Cell>, result: Addr, rank: map<Addr, nat>,
                  a: Addr, i: nat)
    requires Start(g) && Interned(g, org, cells, result)
    requires Ranked(Whole(g.obs, g.cells, g.stat), rank) && rank.Keys == Whole(g.obs, g.cells, g.stat).Keys
    requires a in cells && cells[a].Object? && cells[a].vtable.Type? && i < |cells[a].words|
    requires CountedAt(cells[a].vtable.ty, i) && cells[a].words[i] in cells
    ensures CopyRank(rank, org)[cells[a].words[i]] < CopyRank(rank, org)[a]
  {
    var h := Whole(g.obs, g.cells, g.stat);
    if a in org {
      assert CopyOf(g, org, g.obs[org[a]], cells[a], {});
      assert h[org[a]] == g.obs[org[a]];
      assert ClosedCell(g.obs.Keys + g.cells.Keys + g.stat.Keys, g.stat.Keys, g.obs[org[a]]);
    } else {
      assert ClosedCell(g.cells.Keys + g.stat.Keys, g.stat.Keys, g.cells[a]);
      assert h[a] == cells[a];
    }
  }

  lemma StartOf(g: Init, counts: map<Addr, nat>)
    requires Regions(g.obs, g.cells, g.stat) && Ledger(g.cells, counts, g.handles)
    requires g.obj != NULL && (g.obj in g.obs || g.obj in g.cells || g.obj in g.stat)
    ensures Start(g)
  {
  }

  lemma ResultValue(obs: map<Addr, Cell>, cells: map<Addr, Cell>, stat: map<Addr, Cell>, result: Addr)
    requires Regions(obs, cells, stat) && result in cells
    ensures SameValue(Whole(obs, cells, stat), result, cells + stat, result)
  {
    PartDenotes(Whole(obs, cells, stat), cells, stat, result);
  }

  /** The result is a cell on which the caller holds one reference, or static. */
  lemma ResultHeld(g: Init, org: map<Addr, Addr>, cells: map<Addr, Cell>, counts: map<Addr, nat>, result: Addr)
    requires Start(g) && Interned(g, org, cells, result)
    requires Regions(g.obs, cells, g.stat) && Ledger(cells, counts, Held(g.handles, cells, result))
    ensures Closed(cells, g.stat) && NULL !in cells && cells.Keys !! g.stat.Keys
    ensures result in Held(g.handles, cells, result) || result in g.stat
    ensures g.obj !in g.stat ==> result in cells && Held(g.handles, cells, result) == g.handles + multiset{result}
    ensures SubHeap(g.cells, cells)
    ensures Held(g.handles, cells, result) - multiset{result} == g.handles
  {
    hide CopyOf, Closed, ClosedCell, Edges, Shareable, SubHeap, Held;
    ResultPlace(g, org, cells, result);
    HeldDrop(g.handles, cells, result);
  }

  /** The result is static exactly when the argument is. */
  lemma ResultPlace(g: Init, org: map<Addr, Addr>, cells: map<Addr, Cell>, result: Addr)
    requires Start(g) && Interned(g, org, cells, result)
    ensures result in cells || result in g.stat
    ensures g.obj !in g.stat ==> result in cells
    ensures forall p :: p in g.handles ==> p in cells
  {
    hide CopyOf, Closed, ClosedCell, Edges, Shareable;
  }

  lemma HeldDrop(handles: multiset<Addr>, cells: map<Addr, Cell>, result: Addr)
    requires forall p :: p in handles ==> p in cells
    ensures Held(handles, cells, result) - multiset{result} == handles
    ensures result in cells ==> Held(handles, cells, result) == handles + multiset{result}
  {
  }

  /** Interning, then dropping the one reference that was returned, is the identity on the
    * persistent heap: whatever sub-heap still balances its books for the old handles is the
    * heap, and the counts, from before. */
  lemma InternThenFree(g: Init, org: map<Addr, Addr>, cells: map<Addr, Cell>, result: Addr,
                       counts0: map<Addr, nat>, after: map<Addr, Cell>, countsAfter: map<Addr, nat>)
    requires Start(g) && Interned(g, org, cells, result)
    requires Acyclic(Whole(g.obs, g.cells, g.stat))
    requires Ledger(g.cells, counts0, g.handles)
    requires SubHeap(after, cells) && Closed(after, g.stat) && Ledger(after, countsAfter, g.handles)
    ensures after == g.cells && countsAfter == counts0
  {
    var h := Whole(g.obs, g.cells, g.stat);
    var rank: map<Addr, nat> :| rank.Keys == h.Keys && Ranked(h, rank);
    InternedRanked(g, org, cells, result, rank);
    FinishedClosed(g, org, cells, result);
    LedgerDeterminesHeap(cells, CopyRank(rank, org), g.stat, g.handles, after, countsAfter, g.cells, counts0);
  }
}
