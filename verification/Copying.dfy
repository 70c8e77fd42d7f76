/** Evacuation of a value from pages that are about to be destroyed: small cells are copied out,
  * a cell that has a large page to itself stays where it is, and its page is kept. */
module Copying {
  import opened Heap
  import opened Counting
  import opened Interning
  import opened Restoring
  import opened Scanning

  /** The state at the call: the obstack, everything outside it, the cells that lie in the pages
    * to destroy, and those of them that have a large page of their own. */
  datatype Origin = Origin(mem: map<Addr, Cell>, ext: map<Addr, Cell>, child: set<Addr>, large: set<Addr>, obj: Addr)

  /** What moves. `data` is the obstack without forwarding pointers; `org` inverts `fwd`. */
  datatype State = State(fwd: map<Addr, Addr>, org: map<Addr, Addr>, data: map<Addr, Cell>,
                         result: Addr, st: seq<Entry>)

  predicate Empty(c: Cell) {
    c.String? && c.size == 0
  }

  /** Older pages and what lies outside the obstack do not lead into the pages to destroy. */
  ghost predicate Layout(g: Origin) {
    && g.child <= g.mem.Keys && g.large <= g.child && g.mem.Keys !! g.ext.Keys
    && NULL !in g.mem && NULL !in g.ext
    && (forall a :: a in g.mem ==> Clean(g.mem[a]) && Within(g.mem.Keys + g.ext.Keys, g.mem[a]))
    && (forall a :: a in g.mem && a !in g.child ==> Within(g.mem.Keys - g.child + g.ext.Keys, g.mem[a]))
    && (forall a :: a in g.ext ==> Clean(g.ext[a]) && Within(g.ext.Keys, g.ext[a]))
    && (forall a :: a in g.large ==> !Empty(g.mem[a]))
    && g.obj != NULL && (g.obj in g.mem || g.obj in g.ext)
  }

  /** Word `w` of the result stands for word `v` of the original. */
  ghost predicate Sent(g: Origin, fwd: map<Addr, Addr>, v: Addr, w: Addr) {
    if v in g.child then v in fwd && w == fwd[v] else w == v
  }

  ghost predicate Routes(g: Origin, n: State) {
    && (forall v :: v in n.fwd ==>
          && v in g.child && v in g.mem && n.fwd[v] in n.org && n.org[n.fwd[v]] == v
          && (if v in g.large then n.fwd[v] == v
              else n.fwd[v] != NULL && n.fwd[v] !in g.mem && n.fwd[v] !in g.ext))
    && (forall r :: r in n.org ==> n.org[r] in n.fwd && n.fwd[n.org[r]] == r)
    && n.data.Keys == g.mem.Keys + n.org.Keys
    && (forall a :: a in g.mem && a !in n.org ==> n.data[a] == g.mem[a] || (a in n.fwd && Empty(g.mem[a])))
  }

  /** `c` is the evacuated `o`: references outside `waiting` are sent on, all else is equal. */
  ghost predicate Evacuated(g: Origin, fwd: map<Addr, Addr>, o: Cell, c: Cell, waiting: set<nat>) {
    if o.String? then c == o
    else
      && o.vtable.Type? && c.Object? && c.vtable == o.vtable && c.len == o.len && |c.words| == |o.words|
      && forall i :: 0 <= i < |o.words| ==>
           if RefAt(o.vtable.ty, i) && i !in waiting then Sent(g, fwd, o.words[i], c.words[i])
           else c.words[i] == o.words[i]
  }

  ghost predicate AllEvacuated(g: Origin, n: State) {
    forall r :: r in n.org ==> EvacuatedAt(g, n, r)
  }

  ghost predicate EvacuatedAt(g: Origin, n: State, r: Addr) {
    && r in n.org && n.org[r] in g.mem && r in n.data
    && Evacuated(g, n.fwd, g.mem[n.org[r]], n.data[r], Waiting(n.st, r))
  }

  ghost predicate EntryFits(g: Origin, n: State, e: Entry) {
    || e == Entry(Local, Local)
    || (&& e.slot.Field? && e.slot.a in n.org && n.org[e.slot.a] in g.mem
        && e.value == Field(n.org[e.slot.a], e.slot.i)
        && var o := g.mem[n.org[e.slot.a]];
           o.Object? && o.vtable.Type? && e.slot.i < |o.words| && o.words[e.slot.i] != NULL
           && RefAt(o.vtable.ty, e.slot.i))
  }

  ghost predicate EntriesFit(g: Origin, n: State) {
    (forall e :: e in n.st ==> EntryFits(g, n, e)) && Distinct(n.st)
  }

  ghost predicate RootSent(g: Origin, n: State) {
    if Entry(Local, Local) in n.st then n.result == g.obj else Sent(g, n.fwd, g.obj, n.result)
  }

  ghost predicate Moving(g: Origin, n: State) {
    Layout(g) && Routes(g, n) && AllEvacuated(g, n) && EntriesFit(g, n) && RootSent(g, n)
  }

  ghost function Original(g: Origin, l: Loc): Addr {
    match l
    case Local => g.obj
    case Field(a, i) =>
      if a in g.mem && g.mem[a].Object? && i < |g.mem[a].words| then g.mem[a].words[i] else NULL
  }

  /** The live references of a cell. Copying scans external pointers like any other object. */
  function LiveRefs(c: Cell): seq<nat> {
    if c.Object? && c.vtable.Type?
    then LiveIndices(c.vtable.ty.(epointer := false), c.words, |c.words|) else []
  }

  lemma TopFits(g: Origin, n: State)
    requires Moving(g, n) && n.st != []
    ensures var e := Top(n.st);
      && EntryFits(g, n, e) && Fits(n.data, e.slot)
      && (e.slot.Local? ==> n.result == g.obj)
      && (e.slot.Field? ==>
            && e.slot.a in n.org && n.org[e.slot.a] in g.mem && n.data[e.slot.a].words[e.slot.i] == Original(g, e.value)
            && n.org[e.slot.a] in n.data && n.data[n.org[e.slot.a]].Object?
            && e.slot.i < |n.data[n.org[e.slot.a]].words|
            && n.data[n.org[e.slot.a]].words[e.slot.i] == Original(g, e.value))
      && Original(g, e.value) != NULL
      && (Original(g, e.value) in g.mem || Original(g, e.value) in g.ext)
  {
    var e := Top(n.st);
    assert EntryFits(g, n, e);
    if e.slot.Field? {
      assert e.slot.i in Waiting(n.st, e.slot.a);
      var v := n.org[e.slot.a];
      assert EvacuatedAt(g, n, e.slot.a);
      assert Within(g.mem.Keys + g.ext.Keys, g.mem[v]);
      if v in n.org { assert v == e.slot.a; }
    }
  }

  /** Pop the top entry and write `w` to its slot. */
  function Settle(n: State, w: Addr): State
    requires n.st != [] && Fits(n.data, Top(n.st).slot)
  {
    State(n.fwd, n.org, Put(n.data, Top(n.st).slot, w), PutLocal(n.result, Top(n.st).slot, w), Rest(n.st))
  }

  lemma EvacuatedSettles(g: Origin, fwd: map<Addr, Addr>, o: Cell, c: Cell, waiting: set<nat>, i: nat, w: Addr)
    requires Evacuated(g, fwd, o, c, waiting) && o.Object? && i < |o.words|
    requires Sent(g, fwd, o.words[i], w) && RefAt(o.vtable.ty, i)
    ensures Evacuated(g, fwd, o, c.(words := c.words[i := w]), waiting - {i})
  {
  }

  lemma SettleRoutes(g: Origin, n: State, w: Addr)
    requires Routes(g, n) && n.st != [] && Fits(n.data, Top(n.st).slot) && EntryFits(g, n, Top(n.st))
    ensures Routes(g, Settle(n, w))
  {
  }

  lemma SettleEvacuated(g: Origin, n: State, w: Addr)
    requires Routes(g, n) && AllEvacuated(g, n) && EntriesFit(g, n) && n.st != []
    requires EntryFits(g, n, Top(n.st)) && Fits(n.data, Top(n.st).slot) && Sent(g, n.fwd, Original(g, Top(n.st).value), w)
    requires Routes(g, Settle(n, w))
    ensures AllEvacuated(g, Settle(n, w))
  {
    hide Routes, Sent, Layout;
    var n', e := Settle(n, w), Top(n.st);
    forall r | r in n.org ensures EvacuatedAt(g, n', r) {
      assert EvacuatedAt(g, n, r);
      WaitingPop(n.st, r);
      if e.slot.Field? && e.slot.a == r {
        EvacuatedSettles(g, n.fwd, g.mem[n.org[r]], n.data[r], Waiting(n.st, r), e.slot.i, w);
      }
    }
  }

  /** An entry whose target is in place: outside the pages, kept, or copied already. */
  lemma SettleStep(g: Origin, n: State, w: Addr)
    requires Moving(g, n) && n.st != [] && Sent(g, n.fwd, Original(g, Top(n.st).value), w)
    ensures Fits(n.data, Top(n.st).slot) && Moving(g, Settle(n, w))
  {
    hide Layout, Routes, AllEvacuated, Sent;
    TopFits(g, n);
    SettleRoutes(g, n, w);
    SettleEvacuated(g, n, w);
    PopMembers(n.st);
    forall e | e in Rest(n.st) ensures EntryFits(g, Settle(n, w), e) {
      assert EntryFits(g, n, e);
    }
  }

  /** A cell met for the first time. `r` is the address of its copy, or its own in a large page. */
  function Enter(g: Origin, n: State, v: Addr, r: Addr): State
    requires n.st != [] && v in g.mem
  {
    State(n.fwd[v := r], n.org[r := v], n.data[r := g.mem[v]], n.result,
          Rest(n.st) + Pushes(v, r, LiveRefs(g.mem[v])) + [Top(n.st)])
  }

  ghost predicate Place(g: Origin, n: State, v: Addr, r: Addr) {
    if v in g.large then r == v else r != NULL && r !in n.data && r !in g.ext
  }

  lemma PlaceFresh(g: Origin, n: State, v: Addr, r: Addr)
    requires Routes(g, n) && v in g.child && v !in n.fwd && Place(g, n, v, r) && g.large <= g.child <= g.mem.Keys
    ensures r !in n.org
  {
  }

  lemma EnterRoutes(g: Origin, n: State, v: Addr, r: Addr)
    requires Routes(g, n) && n.st != [] && v in g.mem && v in g.child && v !in n.fwd && Place(g, n, v, r) && r !in n.org
    ensures Routes(g, Enter(g, n, v, r))
  {
    hide LiveRefs, Pushes, Empty;
  }

  lemma EvacuatedGrows(g: Origin, fwd: map<Addr, Addr>, o: Cell, c: Cell, waiting: set<nat>, v: Addr, r: Addr)
    requires Evacuated(g, fwd, o, c, waiting) && v !in fwd
    ensures Evacuated(g, fwd[v := r], o, c, waiting)
  {
  }

  lemma PlainEvacuated(g: Origin, fwd: map<Addr, Addr>, o: Cell, waiting: set<nat>)
    requires Clean(o) && NULL !in g.mem && g.child <= g.mem.Keys && forall i :: i in waiting <==> i in LiveRefs(o)
    ensures Evacuated(g, fwd, o, o, waiting)
  {
  }

  lemma EntrySlots(g: Origin, n: State, r: Addr)
    requires EntriesFit(g, n) && r !in n.org
    ensures forall e :: e in n.st && e.slot.Field? ==> e.slot.a != r
  {
    forall e | e in n.st && e.slot.Field? ensures e.slot.a != r { assert EntryFits(g, n, e); }
  }

  lemma EnterEvacuated(g: Origin, n: State, v: Addr, r: Addr)
    requires Layout(g) && Routes(g, n) && AllEvacuated(g, n) && EntriesFit(g, n) && n.st != []
    requires v in g.child && v in g.mem && v !in n.fwd && r !in n.org
    requires Routes(g, Enter(g, n, v, r))
    ensures AllEvacuated(g, Enter(g, n, v, r))
  {
    hide Routes, LiveRefs, Pushes, Evacuated;
    var n' := Enter(g, n, v, r);
    assert Clean(g.mem[v]);
    EntrySlots(g, n, r);
    forall q | q in n'.org ensures EvacuatedAt(g, n', q) {
      AllocWaiting(n.st, v, r, LiveRefs(g.mem[v]), q);
      if q == r {
        PlainEvacuated(g, n'.fwd, g.mem[v], Waiting(n'.st, r));
      } else {
        assert EvacuatedAt(g, n, q);
        EvacuatedGrows(g, n.fwd, g.mem[n.org[q]], n.data[q], Waiting(n.st, q), v, r);
      }
    }
  }

  lemma EnterEntries(g: Origin, n: State, v: Addr, r: Addr)
    requires EntriesFit(g, n) && n.st != [] && r !in n.org && v in g.mem && Clean(g.mem[v])
    ensures EntriesFit(g, Enter(g, n, v, r))
  {
    var n' := Enter(g, n, v, r);
    EntrySlots(g, n, r);
    AllocMembers(n.st, v, r, LiveRefs(g.mem[v]));
    AllocDistinct(n.st, v, r, LiveRefs(g.mem[v]));
    forall e | e in n'.st ensures EntryFits(g, n', e) {
      if e in n.st { assert EntryFits(g, n, e); }
    }
  }

  lemma EnterRoot(g: Origin, n: State, v: Addr, r: Addr)
    requires RootSent(g, n) && n.st != [] && v in g.mem && v !in n.fwd
    ensures RootSent(g, Enter(g, n, v, r))
  {
    hide LiveRefs, Empty;
    AllocMembers(n.st, v, r, LiveRefs(g.mem[v]));
  }

  lemma LayoutClean(g: Origin, v: Addr)
    requires Layout(g) && v in g.mem
    ensures Clean(g.mem[v]) && g.large <= g.child <= g.mem.Keys
  {
  }

  lemma EnterStep(g: Origin, n: State, v: Addr, r: Addr)
    requires Moving(g, n) && n.st != [] && v in g.child && v in g.mem && v !in n.fwd && Place(g, n, v, r)
    ensures Moving(g, Enter(g, n, v, r))
  {
    hide Layout, Routes, AllEvacuated, EntriesFit, RootSent, Evacuated, LiveRefs, Clean, Enter, Place;
    LayoutClean(g, v);
    PlaceFresh(g, n, v, r);
    EnterRoutes(g, n, v, r);
    EnterEvacuated(g, n, v, r);
    EnterEntries(g, n, v, r);
    EnterRoot(g, n, v, r);
  }

  // ------------------------------------------------------------------------------------------
  // What is visited, and what that leaves behind
  // ------------------------------------------------------------------------------------------

  /** A reference word of `a` holds `b`. */
  ghost predicate Leads(mem: map<Addr, Cell>, a: Addr, b: Addr) {
    && a in mem && mem[a].Object? && mem[a].vtable.Type?
    && exists i :: 0 <= i < |mem[a].words| && RefAt(mem[a].vtable.ty, i) && mem[a].words[i] == b
  }

  ghost predicate Route(mem: map<Addr, Cell>, path: seq<Addr>) {
    path != [] && forall k :: 0 <= k < |path| - 1 ==> Leads(mem, path[k], path[k + 1])
  }

  ghost predicate Reached(mem: map<Addr, Cell>, obj: Addr, v: Addr) {
    exists path :: Route(mem, path) && path[0] == obj && path[|path| - 1] == v
  }

  /** What becomes of a cell that stays behind: an empty string that was visited keeps the mark. */
  function Left(g: Origin, fwd: map<Addr, Addr>, a: Addr): Cell
    requires a in g.mem
  {
    if a in fwd && Empty(g.mem[a]) then g.mem[a].(size := MARK) else g.mem[a]
  }

  /** Only reached cells are visited, and all cells that stay behind are as Left says. */
  ghost predicate Trail(g: Origin, n: State) {
    && (forall v :: v in n.fwd ==> Reached(g.mem, g.obj, v))
    && (forall a :: a in g.mem && a !in n.org ==> a in n.data && n.data[a] == Left(g, n.fwd, a))
  }

  lemma ReachedNext(mem: map<Addr, Cell>, obj: Addr, a: Addr, b: Addr)
    requires Reached(mem, obj, a) && Leads(mem, a, b)
    ensures Reached(mem, obj, b)
  {
    var path :| Route(mem, path) && path[0] == obj && path[|path| - 1] == a;
    var longer := path + [b];
    forall k | 0 <= k < |longer| - 1 ensures Leads(mem, longer[k], longer[k + 1]) {
      if k < |path| - 1 { assert Leads(mem, path[k], path[k + 1]); }
    }
    assert Route(mem, longer) && longer[0] == obj && longer[|longer| - 1] == b;
  }

  /** The cell that the next entry leads to is reached. */
  lemma TopReached(g: Origin, n: State)
    requires Moving(g, n) && Trail(g, n) && n.st != []
    ensures Reached(g.mem, g.obj, Original(g, Top(n.st).value))
  {
    var e := Top(n.st);
    assert EntryFits(g, n, e);
    if e == Entry(Local, Local) {
      assert Route(g.mem, [g.obj]);
    } else {
      var a := n.org[e.slot.a];
      assert a in n.fwd;
      assert Leads(g.mem, a, Original(g, e.value));
      ReachedNext(g.mem, g.obj, a, Original(g, e.value));
    }
  }

  lemma SettleTrail(g: Origin, n: State, w: Addr)
    requires Moving(g, n) && Trail(g, n) && n.st != [] && Fits(n.data, Top(n.st).slot)
    ensures Trail(g, Settle(n, w))
  {
    hide Reached, Layout, Routes, AllEvacuated, Left, RefAt;
    assert EntryFits(g, n, Top(n.st));
  }

  lemma EnteredLeft(g: Origin, n: State, v: Addr, r: Addr, a: Addr)
    requires n.st != [] && v in g.mem && v !in n.fwd && n.data.Keys == g.mem.Keys + n.org.Keys
    requires a in g.mem && a !in n.org && a != r && n.data[a] == Left(g, n.fwd, a)
    ensures var n' := Entered(g, n, v, r); a in n'.data && n'.data[a] == Left(g, n'.fwd, a)
  {
    hide LiveRefs, Pushes;
  }

  lemma EnteredTrail(g: Origin, n: State, v: Addr, r: Addr)
    requires Moving(g, n) && Trail(g, n) && n.st != [] && v in g.child && v in g.mem && v !in n.fwd && Place(g, n, v, r)
    requires Reached(g.mem, g.obj, v)
    ensures Trail(g, Entered(g, n, v, r))
  {
    hide Reached, Layout, AllEvacuated, EntriesFit, RootSent, LiveRefs, Pushes, Left, Empty;
    var n' := Entered(g, n, v, r);
    assert n'.fwd == n.fwd[v := r] && n'.org == n.org[r := v];
    forall a | a in g.mem && a !in n'.org ensures a in n'.data && n'.data[a] == Left(g, n'.fwd, a) {
      EnteredLeft(g, n, v, r, a);
    }
  }

  /** Every reached cell of the pages was visited. */
  lemma {:induction false} AllVisited(g: Origin, n: State, path: seq<Addr>)
    requires Moving(g, n) && n.st == [] && Route(g.mem, path) && path[0] == g.obj && path[|path| - 1] in g.child
    ensures path[|path| - 1] in n.fwd
    decreases |path|
  {
    var v := path[|path| - 1];
    if |path| > 1 {
      var a, before := path[|path| - 2], path[..|path| - 1];
      assert Leads(g.mem, a, path[|path| - 2 + 1]);
      var i :| 0 <= i < |g.mem[a].words| && RefAt(g.mem[a].vtable.ty, i) && g.mem[a].words[i] == v;
      ChildFromChild(g, a, i);
      assert Route(g.mem, before) by {
        forall k | 0 <= k < |before| - 1 ensures Leads(g.mem, before[k], before[k + 1]) {
          assert Leads(g.mem, path[k], path[k + 1]);
        }
      }
      AllVisited(g, n, before);
      WordSent(g, n, a, i);
    }
  }

  /** Only the pages themselves lead into the pages. */
  lemma ChildFromChild(g: Origin, a: Addr, i: nat)
    requires Layout(g) && a in g.mem && g.mem[a].Object? && g.mem[a].vtable.Type? && i < |g.mem[a].words|
    requires RefAt(g.mem[a].vtable.ty, i) && g.mem[a].words[i] in g.child
    ensures a in g.child
  {
    if a !in g.child { OlderStaysOut(g, a, i); }
  }

  lemma OlderStaysOut(g: Origin, a: Addr, i: nat)
    requires Layout(g) && a in g.mem && a !in g.child && g.mem[a].Object? && g.mem[a].vtable.Type?
    requires i < |g.mem[a].words| && RefAt(g.mem[a].vtable.ty, i)
    ensures g.mem[a].words[i] !in g.child
  {
    FieldWithin(g.mem.Keys - g.child + g.ext.Keys, g.mem[a], i);
  }

  lemma WordSent(g: Origin, n: State, a: Addr, i: nat)
    requires Moving(g, n) && n.st == [] && a in n.fwd && a in g.mem && g.mem[a].Object? && i < |g.mem[a].words|
    requires g.mem[a].vtable.Type? && RefAt(g.mem[a].vtable.ty, i) && g.mem[a].words[i] in g.child
    ensures g.mem[a].words[i] in n.fwd
  {
    assert EvacuatedAt(g, n, n.fwd[a]) && Waiting(n.st, n.fwd[a]) == {};
  }

  /** The visited cells are exactly the reached ones. */
  lemma VisitedIsReached(g: Origin, n: State, v: Addr)
    requires Moving(g, n) && Trail(g, n) && n.st == [] && v in g.child
    ensures v in n.fwd <==> Reached(g.mem, g.obj, v)
  {
    if Reached(g.mem, g.obj, v) {
      var path :| Route(g.mem, path) && path[0] == g.obj && path[|path| - 1] == v;
      AllVisited(g, n, path);
    }
  }

  /** A copy leaves all cells that stay behind as they were exactly when it reaches no empty
    * string. */
  lemma LeftAsBefore(g: Origin, n: State)
    requires Moving(g, n) && Trail(g, n) && n.st == []
    ensures (forall a :: a in g.mem && a !in n.org ==> a in n.data && n.data[a] == g.mem[a])
       <==> (forall v :: v in g.child && Reached(g.mem, g.obj, v) ==> !Empty(g.mem[v]))
  {
    forall v | v in g.child && Reached(g.mem, g.obj, v) && Empty(g.mem[v])
      ensures v in g.mem && v !in n.org && v in n.data && n.data[v] != g.mem[v]
    {
      VisitedIsReached(g, n, v);
      EmptyStays(g, n, v);
    }
    forall a | a in g.mem && a !in n.org && n.data[a] != g.mem[a]
      ensures a in g.child && Reached(g.mem, g.obj, a) && Empty(g.mem[a])
    {
      assert n.data[a] == Left(g, n.fwd, a);
    }
  }

  lemma EmptyStays(g: Origin, n: State, v: Addr)
    requires Moving(g, n) && v in n.fwd && v in g.mem && Empty(g.mem[v])
    ensures v !in n.org
  {
  }

  /** A region that holds one empty string. */
  function OneEmpty(): Origin {
    Origin(map[8 := String(0, 0, Chars([]), [])], map[], {8}, {}, 8)
  }

  /** However it is copied, its size is no longer zero. */
  lemma EmptyStringMarked(n: State)
    ensures Layout(OneEmpty())
    ensures Moving(OneEmpty(), n) && Trail(OneEmpty(), n) && n.st == [] ==>
      8 in n.data && n.data[8].String? && n.data[8].size == MARK != 0
  {
  }

  // ------------------------------------------------------------------------------------------
  // What is left when the worklist is empty
  // ------------------------------------------------------------------------------------------

  /** The obstack once the pages that hold no kept cell are gone. */
  function Remaining(g: Origin, n: State): map<Addr, Cell> {
    n.data - (g.child - n.org.Keys)
  }

  lemma RemainingIs(g: Origin, n: State)
    requires Layout(g) && Routes(g, n)
    ensures var m := Remaining(g, n);
      && m.Keys == (g.mem.Keys - g.child) + n.org.Keys
      && (forall a :: a in g.mem && a !in g.child ==> a in m && m[a] == g.mem[a])
      && (forall r :: r in n.org ==> r in m && m[r] == n.data[r])
      && m.Keys !! g.ext.Keys
  {
  }

  /** A cell that went and its evacuated self. */
  lemma SentCell(g: Origin, n: State, v: Addr, w: Addr)
    requires Layout(g) && Routes(g, n) && AllEvacuated(g, n) && n.st == []
    requires v in g.child && Sent(g, n.fwd, v, w)
    ensures v != NULL && w != NULL && v in g.mem && w in Remaining(g, n) && v !in g.ext && w !in g.ext
    ensures Evacuated(g, n.fwd, g.mem[v], Remaining(g, n)[w], {})
    ensures Within(g.mem.Keys + g.ext.Keys, g.mem[v]) && Clean(g.mem[v])
  {
    RemainingIs(g, n);
    assert EvacuatedAt(g, n, w) && Waiting(n.st, w) == {};
  }

  /** The evacuated word of a field denotes what the field denoted. */
  lemma {:induction false} SentDenotes(g: Origin, n: State, v: Addr, w: Addr, t: Tree)
    requires Layout(g) && Routes(g, n) && AllEvacuated(g, n) && n.st == []
    requires (v == NULL || v in g.mem || v in g.ext) && Sent(g, n.fwd, v, w)
    ensures Denotes(g.mem + g.ext, v, t) <==> Denotes(Remaining(g, n) + g.ext, w, t)
    decreases t
  {
    hide Layout, Routes, AllEvacuated, Remaining, Within;
    var h, h' := g.mem + g.ext, Remaining(g, n) + g.ext;
    if v !in g.child {
      OutsideDenotes(g, n, v, t);
    } else {
      SentCell(g, n, v, w);
      var o, c := h[v], h'[w];
      assert o == g.mem[v] && c == Remaining(g, n)[w];
      if t.Record? && o.Object? && o.vtable == Type(t.ty) && |t.fields| == |o.words| {
        forall i | 0 <= i < |t.fields|
          ensures DenotesPart(h, t.ty, i, o.words[i], t.fields[i]) <==> DenotesPart(h', t.ty, i, c.words[i], t.fields[i])
        {
          if RefAt(t.ty, i) && t.fields[i].Sub? {
            FieldWithin(g.mem.Keys + g.ext.Keys, o, i);
            SentDenotes(g, n, o.words[i], c.words[i], t.fields[i].t);
          }
        }
      }
    }
  }

  lemma FieldWithin(region: set<Addr>, c: Cell, i: nat)
    requires Within(region, c) && c.Object? && c.vtable.Type? && i < |c.words| && RefAt(c.vtable.ty, i)
    ensures c.words[i] == NULL || c.words[i] in region
  {
  }

  lemma OutsideDenotes(g: Origin, n: State, v: Addr, t: Tree)
    requires Layout(g) && Routes(g, n) && (v == NULL || v in g.mem || v in g.ext) && v !in g.child
    ensures Denotes(g.mem + g.ext, v, t) <==> Denotes(Remaining(g, n) + g.ext, v, t)
  {
    RemainingIs(g, n);
    var h, h', region := g.mem + g.ext, Remaining(g, n) + g.ext, g.mem.Keys - g.child + g.ext.Keys;
    forall b | b in region ensures b in h && b in h' && h[b] == h'[b] && Within(region, h[b]) {
      if b in g.ext { assert Within(g.ext.Keys, g.ext[b]); }
      else { assert Within(g.mem.Keys - g.child + g.ext.Keys, g.mem[b]); }
    }
    RegionDenotes(h, h', region, v, t);
  }

  /** No reference of what remains leads into a page that is gone. */
  lemma RemainingWithin(g: Origin, n: State, a: Addr)
    requires Layout(g) && Routes(g, n) && AllEvacuated(g, n) && n.st == [] && a in Remaining(g, n)
    ensures Within(Remaining(g, n).Keys + g.ext.Keys, Remaining(g, n)[a]) && Clean(Remaining(g, n)[a])
  {
    RemainingIs(g, n);
    var m := Remaining(g, n);
    if a in n.org {
      assert EvacuatedAt(g, n, a) && Waiting(n.st, a) == {};
      var v := n.org[a];
      assert Within(g.mem.Keys + g.ext.Keys, g.mem[v]) && Clean(g.mem[v]);
      if m[a].Object? {
        forall i | 0 <= i < |m[a].words| && RefAt(m[a].vtable.ty, i)
          ensures m[a].words[i] == NULL || m[a].words[i] in m.Keys + g.ext.Keys
        {
          assert Sent(g, n.fwd, g.mem[v].words[i], m[a].words[i]);
        }
      }
    } else {
      assert Within(g.mem.Keys - g.child + g.ext.Keys, g.mem[a]) && Clean(g.mem[a]);
    }
  }

  // ------------------------------------------------------------------------------------------
  // The forwarding pointers
  // ------------------------------------------------------------------------------------------

  /** The memory and the restore stack that go with a state. */
  ghost predicate Tracks(g: Origin, n: State, mem: map<Addr, Cell>, undo: seq<Undo>) {
    && mem == Marked(n.data, n.fwd) && UndoAll(mem, undo) == n.data
    && forall k :: 0 <= k < |undo| ==> undo[k].at in n.fwd
  }

  /** An empty string keeps its mark: a saved size of zero is not written back. */
  function Entered(g: Origin, n: State, v: Addr, r: Addr): State
    requires n.st != [] && v in g.mem
  {
    var n' := Enter(g, n, v, r);
    if Empty(g.mem[v]) then n'.(data := n'.data[v := g.mem[v].(size := MARK)]) else n'
  }

  lemma EnteredMoving(g: Origin, n: State, v: Addr, r: Addr)
    requires Moving(g, n) && n.st != [] && v in g.child && v in g.mem && v !in n.fwd && Place(g, n, v, r)
    ensures Moving(g, Entered(g, n, v, r))
  {
    EnterStep(g, n, v, r);
    var n1, n2 := Enter(g, n, v, r), Entered(g, n, v, r);
    if Empty(g.mem[v]) {
      MarkedEmpty(g, n1, v, n2.data[v]);
    }
  }

  lemma MarkedRoutes(g: Origin, n: State, v: Addr, c: Cell)
    requires Layout(g) && Routes(g, n) && v in n.fwd && Empty(g.mem[v])
    ensures v !in n.org && Routes(g, n.(data := n.data[v := c]))
  {
    hide Clean, Within;
  }

  /** What a dead empty string looks like does not matter. */
  lemma MarkedEmpty(g: Origin, n: State, v: Addr, c: Cell)
    requires Moving(g, n) && v in n.fwd && v in g.mem && Empty(g.mem[v])
    ensures Moving(g, n.(data := n.data[v := c]))
  {
    hide Evacuated, EntryFits, Distinct, Layout, Routes, Empty, Sent;
    var n' := n.(data := n.data[v := c]);
    MarkedRoutes(g, n, v, c);
    forall r | r in n.org ensures EvacuatedAt(g, n', r) { assert EvacuatedAt(g, n, r); }
    EntriesSame(g, n, n');
  }

  lemma EntriesSame(g: Origin, n: State, n': State)
    requires EntriesFit(g, n) && n'.st == n.st && n'.org == n.org
    ensures EntriesFit(g, n')
  {
    forall e | e in n'.st ensures EntryFits(g, n', e) { assert EntryFits(g, n, e); }
  }

  lemma FirstVisit(g: Origin, n: State, v: Addr)
    requires Moving(g, n) && v in g.child && v !in n.fwd
    ensures v in g.mem && v in n.data && n.data[v] == g.mem[v] && Clean(g.mem[v]) && v !in n.org
  {
  }

  /** The memory after a cell has been copied (unless it stays) and marked. */
  function EnteredMem(mem: map<Addr, Cell>, v: Addr, r: Addr): map<Addr, Cell>
    requires v in mem
  {
    mem[r := mem[v]][v := MarkCell(mem[v], r)]
  }

  lemma EnteredMarked(g: Origin, n: State, v: Addr, r: Addr)
    requires v in g.mem && v in n.data && n.data[v] == g.mem[v] && v !in n.fwd && n.st != [] && (r == v || r !in n.data)
    requires forall a :: a in n.fwd ==> a in n.data
    ensures EnteredMem(Marked(n.data, n.fwd), v, r) == Marked(Entered(g, n, v, r).data, n.fwd[v := r])
  {
  }

  lemma UndoEntered(mem: map<Addr, Cell>, v: Addr, r: Addr)
    requires v in mem && Clean(mem[v])
    ensures var back := if Empty(mem[v]) then mem[v].(size := MARK) else mem[v];
      UndoOne(EnteredMem(mem, v, r), Saved(v, mem[v])) == mem[r := mem[v]][v := back]
  {
  }

  lemma EnteredUndo(g: Origin, n: State, mem: map<Addr, Cell>, undo: seq<Undo>, v: Addr, r: Addr)
    requires Tracks(g, n, mem, undo) && n.st != [] && v in g.mem && v !in n.fwd && v in mem && mem[v] == g.mem[v]
    requires r !in n.fwd && Clean(g.mem[v])
    ensures UndoAll(EnteredMem(mem, v, r), undo + [Saved(v, g.mem[v])]) == Entered(g, n, v, r).data
  {
    hide UndoAll, UndoOne, EnteredMem, Clean, Marked, LiveRefs, Pushes;
    var c := g.mem[v];
    var back := if Empty(c) then c.(size := MARK) else c;
    UndoSnoc(EnteredMem(mem, v, r), undo, Saved(v, c));
    UndoEntered(mem, v, r);
    UndoElsewhere(mem[r := c], undo, v, back);
    UndoElsewhere(mem, undo, r, c);
    UndoElsewhere(mem, undo, v, mem[v]);
    assert mem[v := mem[v]] == mem;
    assert n.data[v := c] == n.data;
  }

  lemma EnteredTracks(g: Origin, n: State, mem: map<Addr, Cell>, undo: seq<Undo>, v: Addr, r: Addr)
    requires Moving(g, n) && Tracks(g, n, mem, undo) && n.st != []
    requires v in g.child && v in g.mem && v !in n.fwd && Place(g, n, v, r)
    ensures v in mem && mem[v] == g.mem[v]
    ensures Tracks(g, Entered(g, n, v, r), EnteredMem(mem, v, r), undo + [Saved(v, g.mem[v])])
  {
    hide Moving, UndoAll, Clean, LiveRefs, Pushes, Empty;
    FirstVisit(g, n, v);
    FwdInData(g, n);
    PlaceIsNew(g, n, v, r);
    UnmarkedCell(n.data, n.fwd, v);
    EnteredMarked(g, n, v, r);
    EnteredUndo(g, n, mem, undo, v, r);
    assert Entered(g, n, v, r).fwd == n.fwd[v := r];
  }

  lemma PlaceIsNew(g: Origin, n: State, v: Addr, r: Addr)
    requires Moving(g, n) && Place(g, n, v, r) && v in g.child && v !in n.fwd
    ensures r !in n.fwd && (r == v || r !in n.data)
  {
    hide AllEvacuated, EntriesFit, RootSent;
  }

  lemma UnmarkedCell(data: map<Addr, Cell>, fwd: map<Addr, Addr>, v: Addr)
    requires v in data && v !in fwd
    ensures v in Marked(data, fwd) && Marked(data, fwd)[v] == data[v]
  {
  }

  lemma FwdInData(g: Origin, n: State)
    requires Moving(g, n)
    ensures forall a :: a in n.fwd ==> a in n.data && a in g.child
    ensures forall a :: a in n.data ==> a in g.mem || a in n.org
  {
  }

  /** Settling a slot commutes with marking and with restoring. */
  lemma SettleTracks(g: Origin, n: State, mem: map<Addr, Cell>, undo: seq<Undo>, w: Addr)
    requires Tracks(g, n, mem, undo) && n.st != [] && Fits(n.data, Top(n.st).slot)
    ensures Fits(mem, Top(n.st).slot)
    ensures Tracks(g, Settle(n, w), Put(mem, Top(n.st).slot, w), undo)
  {
    match Top(n.st).slot {
      case Local =>
      case Field(a, i) => UndoBesideWords(mem, undo, a, i, w);
    }
  }

  lemma EnteredStack(g: Origin, n: State, v: Addr, r: Addr)
    requires n.st != [] && v in g.mem
    ensures var n1 := Entered(g, n, v, r);
      && n1.st != [] && Top(n1.st) == Top(n.st) && Rest(n1.st) == Rest(n.st) + Pushes(v, r, LiveRefs(g.mem[v]))
      && n1.fwd == n.fwd[v := r] && n1.result == n.result
  {
    hide LiveRefs, Pushes, Empty;
    assert Rest(Entered(g, n, v, r).st) == Rest(n.st) + Pushes(v, r, LiveRefs(g.mem[v]));
  }

  lemma TracksKeys(g: Origin, n: State, mem: map<Addr, Cell>, undo: seq<Undo>)
    requires Tracks(g, n, mem, undo)
    ensures mem.Keys == n.data.Keys
  {
  }

  lemma EnterAll(g: Origin, n: State, mem: map<Addr, Cell>, undo: seq<Undo>, v: Addr, r: Addr)
    requires Moving(g, n) && Tracks(g, n, mem, undo) && n.st != [] && v in g.child && v in g.mem && v !in n.fwd
    requires if v in g.large then r == v else r != NULL && r !in mem && r !in g.ext
    ensures v in mem && mem[v] == g.mem[v] && n.st != []
    ensures var n1 := Entered(g, n, v, r);
      && Moving(g, n1)
      && Tracks(g, n1, EnteredMem(mem, v, r), undo + [Saved(v, mem[v])])
      && n1.st != [] && Top(n1.st) == Top(n.st) && Rest(n1.st) == Rest(n.st) + Pushes(v, r, LiveRefs(mem[v]))
      && n1.fwd == n.fwd[v := r] && n1.result == n.result
  {
    hide Moving, Tracks, Entered, LiveRefs, Pushes, MarkCell, Saved, Empty, Clean;
    TracksKeys(g, n, mem, undo);
    EnteredMoving(g, n, v, r);
    EnteredTracks(g, n, mem, undo, v, r);
    EnteredStack(g, n, v, r);
  }

  lemma FewerUnmarked(g: Origin, n: State, n': State, v: Addr)
    requires v in g.mem && v !in n.fwd && n'.fwd.Keys == n.fwd.Keys + {v}
    ensures Unmarked(g.mem, n'.fwd) < Unmarked(g.mem, n.fwd)
  {
    assert g.mem.Keys - n'.fwd.Keys == (g.mem.Keys - n.fwd.Keys) - {v};
  }

  lemma FirstState(g: Origin)
    requires Layout(g)
    ensures var n := State(map[], map[], g.mem, g.obj, [Entry(Local, Local)]);
      Moving(g, n) && Tracks(g, n, g.mem, [])
  {
  }

  /** The cells on large pages that the value reaches. */
  ghost function Visited(g: Origin): set<Addr> {
    set v | v in g.large && Reached(g.mem, g.obj, v)
  }

  /** What a copy makes of a cell that stays behind. */
  ghost function Behind(g: Origin, a: Addr): Cell
    requires a in g.mem
  {
    if a in g.child && Empty(g.mem[a]) && Reached(g.mem, g.obj, a) then g.mem[a].(size := MARK) else g.mem[a]
  }

  lemma FirstTrail(g: Origin)
    ensures Trail(g, State(map[], map[], g.mem, g.obj, [Entry(Local, Local)]))
  {
  }

  /** The visited cells are the reached ones, which tells what is kept and what is left behind. */
  lemma LeftBehind(g: Origin, n: State)
    requires Moving(g, n) && Trail(g, n) && n.st == []
    ensures n.fwd.Keys * g.large == Visited(g)
    ensures forall a :: a in g.mem && a !in n.org ==> a in n.data && n.data[a] == Behind(g, a)
  {
    assert n.fwd.Keys <= g.child && g.large <= g.child;
    hide Moving, Reached;
    forall v | v in g.child ensures v in n.fwd <==> Reached(g.mem, g.obj, v) {
      VisitedIsReached(g, n, v);
    }
  }

  lemma LastState(g: Origin, n: State, mem: map<Addr, Cell>, undo: seq<Undo>)
    requires Tracks(g, n, mem, undo)
    ensures UndoAll(mem, undo) == n.data
  {
  }

  lemma KeptIsOrg(g: Origin, n: State, kept: set<Addr>)
    requires Layout(g) && Routes(g, n) && kept == n.fwd.Keys * g.large
    ensures g.child * n.org.Keys == kept && g.child <= g.mem.Keys
  {
    hide Clean, Within;
  }

  lemma RootKnown(g: Origin)
    requires Layout(g)
    ensures g.obj in g.mem || g.obj in g.ext
  {
  }

  /** What destroying the pages leaves. */
  lemma Destroyed(g: Origin, n: State, mem: map<Addr, Cell>, kept: set<Addr>)
    requires Moving(g, n) && Trail(g, n) && n.st == [] && kept == n.fwd.Keys * g.large
    requires mem == n.data - (g.child - kept)
    ensures Evacuation(g, n.fwd, mem, n.result)
    ensures SameValue(g.mem + g.ext, g.obj, mem + g.ext, n.result)
    ensures forall a :: a in mem ==> Within(mem.Keys + g.ext.Keys, mem[a]) && Clean(mem[a])
    ensures forall a :: a in g.mem && a !in g.child ==> a in mem && mem[a] == g.mem[a]
    ensures mem.Keys * g.child == kept
  {
    hide Evacuation, Trail, Reached, Layout, Routes, AllEvacuated, EntriesFit, Within, Clean, Denotes;
    KeptIsOrg(g, n, kept);
    assert g.child - kept == g.child - n.org.Keys;
    RootKnown(g);
    assert mem == Remaining(g, n);
    Evacuates(g, n, mem);
    RemainingIs(g, n);
    forall t ensures Denotes(g.mem + g.ext, g.obj, t) <==> Denotes(mem + g.ext, n.result, t) {
      SentDenotes(g, n, g.obj, n.result, t);
    }
    forall a | a in mem ensures Within(mem.Keys + g.ext.Keys, mem[a]) && Clean(mem[a]) {
      RemainingWithin(g, n, a);
    }
  }

  /** `fwd` says where each reached cell of the pages is now: a cell on a large page is where it was,
    * any other has one copy at a new address, and nothing else is allocated. The result and all
    * references of the evacuated cells go where `fwd` says, or stay as they were. */
  ghost predicate Evacuation(g: Origin, fwd: map<Addr, Addr>, mem: map<Addr, Cell>, result: Addr) {
    && (forall v :: v in fwd <==> v in g.child && Reached(g.mem, g.obj, v))
    && (forall v, w :: v in fwd && w in fwd && fwd[v] == fwd[w] ==> v == w)
    && (forall v :: v in fwd ==>
          if v in g.large then fwd[v] == v else fwd[v] != NULL && fwd[v] !in g.mem && fwd[v] !in g.ext)
    && mem.Keys == (g.mem.Keys - g.child) + fwd.Values
    && Sent(g, fwd, g.obj, result)
    && (forall v :: v in fwd ==> v in g.mem && fwd[v] in mem && Evacuated(g, fwd, g.mem[v], mem[fwd[v]], {}))
  }

  lemma FwdIsOrg(g: Origin, n: State)
    requires Moving(g, n)
    ensures n.fwd.Values == n.org.Keys
    ensures forall v, w :: v in n.fwd && w in n.fwd && n.fwd[v] == n.fwd[w] ==> v == w
    ensures forall v :: v in n.fwd ==>
      && v in g.child && v in g.mem && n.fwd[v] in n.org && n.org[n.fwd[v]] == v
      && if v in g.large then n.fwd[v] == v else n.fwd[v] != NULL && n.fwd[v] !in g.mem && n.fwd[v] !in g.ext
  {
    hide AllEvacuated, EntriesFit, Layout, RootSent;
    forall r | r in n.org ensures r in n.fwd.Values { assert n.fwd[n.org[r]] == r; }
  }

  /** A finished copy is an evacuation once the pages are gone. */
  lemma Evacuates(g: Origin, n: State, mem: map<Addr, Cell>)
    requires Moving(g, n) && Trail(g, n) && n.st == [] && mem == Remaining(g, n)
    ensures Evacuation(g, n.fwd, mem, n.result)
  {
    FwdIsOrg(g, n);
    RemainingIs(g, n);
    forall v ensures v in n.fwd <==> v in g.child && Reached(g.mem, g.obj, v) {
      if v in g.child { VisitedIsReached(g, n, v); }
    }
    forall v | v in n.fwd ensures n.fwd[v] in mem && Evacuated(g, n.fwd, g.mem[v], mem[n.fwd[v]], {}) {
      EvacuatedNow(g, n, v);
    }
  }

  lemma EvacuatedNow(g: Origin, n: State, v: Addr)
    requires Layout(g) && Routes(g, n) && AllEvacuated(g, n) && n.st == [] && v in n.fwd
    ensures n.fwd[v] in Remaining(g, n) && Evacuated(g, n.fwd, g.mem[v], Remaining(g, n)[n.fwd[v]], {})
  {
    SentCell(g, n, v, n.fwd[v]);
  }

  /** Sharing is kept: two references are equal after an evacuation exactly when they were. */
  lemma SharingKept(g: Origin, fwd: map<Addr, Addr>, mem: map<Addr, Cell>, result: Addr,
                    v: Addr, w: Addr, v': Addr, w': Addr)
    requires Layout(g) && Evacuation(g, fwd, mem, result) && Sent(g, fwd, v, v') && Sent(g, fwd, w, w')
    requires (v == NULL || v in g.mem || v in g.ext) && (w == NULL || w in g.mem || w in g.ext)
    ensures v' == w' <==> v == w
  {
    hide Evacuated, Reached, Within, Clean;
  }

  /** What one turn may rely on. */
  lemma NextCell(g: Origin, n: State, mem: map<Addr, Cell>, undo: seq<Undo>)
    requires Moving(g, n) && Tracks(g, n, mem, undo) && n.st != []
    ensures var e := Top(n.st);
      var v := Original(g, e.value);
      && Fits(n.data, e.slot)
      && (e.value.Field? ==> e.value.a in mem && mem[e.value.a].Object? && e.value.i < |mem[e.value.a].words|
                             && mem[e.value.a].words[e.value.i] == v)
      && v != NULL
      && (v in g.child && v in n.fwd ==> v in mem && Forwarded(mem[v]) && Target(mem[v]) == n.fwd[v])
      && (v in g.child && v !in n.fwd ==> v in g.mem && v in mem && mem[v] == g.mem[v] && Clean(mem[v]) && !Forwarded(mem[v]))
      && (v !in g.child || (v in g.large && v in n.fwd) ==> Sent(g, n.fwd, v, v))
  {
    var v := Original(g, Top(n.st).value);
    TopFits(g, n);
    if v in g.child && v !in n.fwd { FirstVisit(g, n, v); } else { VisitedMark(g, n, mem, undo, v); }
  }

  /** A visited cell leads on to where it went. */
  lemma VisitedMark(g: Origin, n: State, mem: map<Addr, Cell>, undo: seq<Undo>, v: Addr)
    requires Moving(g, n) && Tracks(g, n, mem, undo)
    ensures v in g.child && v in n.fwd ==> v in mem && Forwarded(mem[v]) && Target(mem[v]) == n.fwd[v]
    ensures v !in g.child || (v in g.large && v in n.fwd) ==> Sent(g, n.fwd, v, v)
  {
    hide AllEvacuated, EntriesFit, RootSent, Layout, UndoAll, Clean;
  }

  lemma SameWord(mem: map<Addr, Cell>, a: Addr, i: nat, w: Addr)
    requires a in mem && mem[a].Object? && i < |mem[a].words| && mem[a].words[i] == w
    ensures Put(mem, Field(a, i), w) == mem
  {
    assert mem[a].words[i := w] == mem[a].words;
    assert mem[a].(words := mem[a].words) == mem[a];
  }

  /** The turn that finds nothing to do leaves the slot as it is. */
  lemma SettleSame(g: Origin, n: State, mem: map<Addr, Cell>, undo: seq<Undo>)
    requires Moving(g, n) && n.st != [] && Tracks(g, n, mem, undo)
    ensures Fits(mem, Top(n.st).slot)
    ensures Put(mem, Top(n.st).slot, Original(g, Top(n.st).value)) == mem
    ensures PutLocal(n.result, Top(n.st).slot, Original(g, Top(n.st).value)) == n.result
  {
    TopFits(g, n);
    match Top(n.st).slot {
      case Local =>
      case Field(a, i) => SameWord(mem, a, i, Original(g, Top(n.st).value));
    }
  }

  class Obstack {
    var mem: map<Addr, Cell>     // the cells of all pages
    var child: set<Addr>         // those in the pages that the copy reads from
    var kept: set<Addr>          // those whose large page has been visited
    const large: set<Addr>       // those that have a large page of their own
    const ext: map<Addr, Cell>   // persistent and static cells

    /** SKIP_Obstack_alloc in the page that stays. */
    method Alloc() returns (r: Addr)
      ensures r != NULL && r !in mem && r !in ext
    {
      FreshExists(mem.Keys + ext.Keys);
      r :| r != NULL && r !in mem.Keys + ext.Keys;
    }

    /** shallow_copy: a cell in a large page stays, any other is copied. */
    method ShallowCopy(v: Addr) returns (r: Addr)
      requires v in mem
      modifies this`mem
      ensures mem == old(mem)[r := old(mem)[v]]
      ensures if v in large then r == v else r != NULL && r !in old(mem) && r !in ext
    {
      if v in large {
        r := v;
        assert mem == mem[v := mem[v]];
      } else {
        r := Alloc();
        mem := mem[r := mem[v]];
      }
    }

    /** The first visit to a cell: copy it, scan it, save its header and mark it. */
    method CopyCell(v: Addr, st0: seq<Entry>, undo0: seq<Undo>)
      returns (r: Addr, st: seq<Entry>, undo: seq<Undo>)
      requires v in mem && Clean(mem[v])
      modifies this`mem
      ensures var c := old(mem)[v];
        && mem == EnteredMem(old(mem), v, r)
        && st == st0 + Pushes(v, r, LiveRefs(c)) && undo == undo0 + [Saved(v, c)]
      ensures if v in large then r == v else r != NULL && r !in old(mem) && r !in ext
    {
      var c := mem[v];
      r := ShallowCopy(v);
      st := st0;
      if c.Object? {
        st := ScanForCopy(st, v, r, c.vtable.ty.(epointer := false), c.len, c.words);
      } else {
        assert st == st0 + Pushes(v, r, []);
      }
      undo := undo0 + [Saved(v, c)];
      mem := mem[v := MarkCell(c, r)];
    }

    /** *delayed.slot = w */
    method Store(slot: Loc, w: Addr, result0: Addr) returns (result: Addr)
      requires Fits(mem, slot)
      modifies this`mem
      ensures mem == Put(old(mem), slot, w) && result == PutLocal(result0, slot, w)
    {
      result := result0;
      match slot {
        case Local => result := w;
        case Field(a, i) => mem := mem[a := mem[a].(words := mem[a].words[i := w])];
      }
    }

    /** The cell that stands for `v`: the copy found through the forwarding pointer, or a new one. */
    method CopyOrForward(v: Addr, st0: seq<Entry>, undo0: seq<Undo>)
      returns (r: Addr, st: seq<Entry>, undo: seq<Undo>)
      requires v in mem && (Clean(mem[v]) || Forwarded(mem[v]))
      modifies this`mem
      ensures var c := old(mem)[v];
        if Forwarded(c) then r == Target(c) && mem == old(mem) && st == st0 && undo == undo0
        else
          && mem == EnteredMem(old(mem), v, r)
          && st == st0 + Pushes(v, r, LiveRefs(c)) && undo == undo0 + [Saved(v, c)]
          && if v in large then r == v else r != NULL && r !in old(mem) && r !in ext
    {
      hide LiveRefs, Pushes, Saved;
      st, undo := st0, undo0;
      if mem[v].String? {
        if mem[v].size == MARK {
          r := mem[v].head.to;
          return;
        }
        r, st, undo := CopyCell(v, st0, undo0);
      } else if mem[v].vtable.Type? {
        r, st, undo := CopyCell(v, st0, undo0);
      } else {
        r := mem[v].vtable.to;
      }
    }

    /** The turn of the worklist loop for an entry that leads to cell `v` of a page. */
    method CopyInto(v: Addr, slot: Loc, result0: Addr, st0: seq<Entry>, undo0: seq<Undo>, ghost g: Origin, ghost n: State)
      returns (result: Addr, st: seq<Entry>, undo: seq<Undo>, ghost n': State)
      requires n.st != [] && Moving(g, n) && Trail(g, n) && Tracks(g, n, mem, undo0)
      requires v == Original(g, Top(n.st).value)
      requires g.large == large && g.ext == ext && v in g.child && n.result == result0
      requires st0 == Rest(n.st) && slot == Top(n.st).slot
      modifies this`mem
      ensures Moving(g, n') && Trail(g, n') && Tracks(g, n', mem, undo) && n'.result == result && n'.st == st
      ensures n'.fwd.Keys == n.fwd.Keys + {v}
      ensures (n'.fwd == n.fwd && st == st0) || v !in n.fwd
    {
      hide Moving, Clean, LiveRefs, Put, PutLocal, Fits, Forwarded, Target, Saved, Pushes, Tracks, MarkCell, Enter, Original,
           Trail, Reached;
      NextCell(g, n, mem, undo0);
      var r: Addr;
      ghost var mem0 := mem;
      r, st, undo := CopyOrForward(v, st0, undo0);
      ghost var n1 := n;
      if v !in n.fwd {
        EnterAll(g, n, mem0, undo0, v, r);
        TracksKeys(g, n, mem0, undo0);
        TopReached(g, n);
        EnteredTrail(g, n, v, r);
        n1 := Entered(g, n, v, r);
      }
      SettleStep(g, n1, r);
      SettleTrail(g, n1, r);
      SettleTracks(g, n1, mem, undo, r);
      n' := Settle(n1, r);
      result := Store(slot, r, result0);
    }

    /** One turn of the worklist loop. */
    method CopyNext(obj: Addr, result0: Addr, st0: seq<Entry>, undo0: seq<Undo>, ghost g: Origin, ghost n: State)
      returns (result: Addr, st: seq<Entry>, undo: seq<Undo>, ghost n': State)
      requires st0 != [] && Moving(g, n) && Trail(g, n) && Tracks(g, n, mem, undo0)
      requires n.result == result0 && n.st == st0
      requires g.obj == obj && g.large == large && g.ext == ext && g.child == child
      requires kept == n.fwd.Keys * large
      modifies this`mem, this`kept
      ensures Moving(g, n') && Trail(g, n') && Tracks(g, n', mem, undo) && n'.result == result && n'.st == st
      ensures kept == n'.fwd.Keys * large
      ensures (n'.fwd == n.fwd && |st| < |st0|) || Unmarked(g.mem, n'.fwd) < Unmarked(g.mem, n.fwd)
    {
      hide Moving, Tracks, Trail, Clean, Forwarded, Target, Unmarked, Sent;
      NextCell(g, n, mem, undo0);
      var e := st0[|st0| - 1];
      st := st0[..|st0| - 1];
      var v := if e.value.Local? then obj else mem[e.value.a].words[e.value.i];
      if !(v in child && v !in kept) {
        SettleSame(g, n, mem, undo0);
        SettleStep(g, n, v);
        SettleTrail(g, n, v);
        SettleTracks(g, n, mem, undo0, v);
        n' := Settle(n, v);
        result, undo := result0, undo0;
        return;
      }
      if v in large {
        kept := kept + {v};
      }
      result, st, undo, n' := CopyInto(v, e.slot, result0, st, undo0, g, n);
      if v !in n.fwd { FewerUnmarked(g, n, n', v); }
    }

    /** SKIP_copy_with_pages. `n` describes what was moved where. Exactly the reached large pages
      * are kept. The cells that stay behind are as before, but that an empty string keeps the mark
      * when it is reached. */
    method CopyWithPages(obj: Addr) returns (result: Addr, ghost n: State)
      requires obj == NULL || Layout(Origin(mem, ext, child, large, obj))
      modifies this`mem, this`kept
      ensures obj == NULL ==> result == NULL && mem == old(mem) && kept == {}
      ensures obj != NULL ==>
        var g := Origin(old(mem), ext, child, large, obj);
        && Moving(g, n) && Trail(g, n) && n.st == [] && n.result == result && n.data == mem
        && kept == n.fwd.Keys * large && kept == Visited(g)
      ensures obj != NULL ==>
        forall a :: a in old(mem) && a !in n.org ==> a in mem && mem[a] == Behind(Origin(old(mem), ext, child, large, obj), a)
    {
      hide Moving, Tracks, Trail, Layout, Unmarked, Reached;
      kept := {};
      n := State(map[], map[], map[], NULL, []);
      if obj == NULL { return NULL, n; }
      ghost var g := Origin(mem, ext, child, large, obj);
      result := obj;
      var st := [Entry(Local, Local)];
      var undo: seq<Undo> := [];
      n := State(map[], map[], mem, result, st);
      FirstState(g);
      FirstTrail(g);
      while st != []
        invariant Moving(g, n) && Trail(g, n) && Tracks(g, n, mem, undo) && n.result == result && n.st == st
        invariant kept == n.fwd.Keys * large
        decreases Unmarked(g.mem, n.fwd), |st|
      {
        result, st, undo, n := CopyNext(obj, result, st, undo, g, n);
      }
      LastState(g, n, mem, undo);
      while undo != []
        invariant UndoAll(mem, undo) == n.data && kept == n.fwd.Keys * large
      {
        mem := UndoOne(mem, undo[|undo| - 1]);
        undo := undo[..|undo| - 1];
      }
      LeftBehind(g, n);
    }

    /** SKIP_destroy_Obstack_with_value, once the saved page is current again: copy the value, then
      * free every page but the large ones that the value reaches. `fwd` is where the cells went. */
    method DestroyWithValue(obj: Addr) returns (result: Addr, ghost fwd: map<Addr, Addr>)
      requires obj == NULL || Layout(Origin(mem, ext, child, large, obj))
      requires child <= mem.Keys && large <= child
      modifies this
      ensures obj == NULL ==> result == NULL && mem == old(mem) - old(child)
      ensures obj !in old(child) && obj != NULL ==> result == obj
      ensures obj != NULL ==> Evacuation(Origin(old(mem), ext, old(child), large, obj), fwd, mem, result)
      ensures SameValue(old(mem) + ext, obj, mem + ext, result)
      ensures obj != NULL ==> forall a :: a in mem ==> Within(mem.Keys + ext.Keys, mem[a]) && Clean(mem[a])
      ensures forall a :: a in old(mem) && a !in old(child) ==> a in mem && mem[a] == old(mem)[a]
      ensures mem.Keys * old(child) == kept && child == {}
      ensures kept == if obj == NULL then {} else Visited(Origin(old(mem), ext, old(child), large, obj))
    {
      hide Moving, Trail, Layout, Reached, Within, Clean, Evacuation;
      ghost var g := Origin(mem, ext, child, large, obj);
      ghost var n;
      result, n := CopyWithPages(obj);
      mem := mem - (child - kept);
      fwd := n.fwd;
      if obj != NULL {
        Destroyed(g, n, mem, kept);
        RootStays(g, n, mem);
      }
      child := {};
    }
  }

  lemma RootStays(g: Origin, n: State, mem: map<Addr, Cell>)
    requires Evacuation(g, n.fwd, mem, n.result)
    ensures g.obj !in g.child ==> n.result == g.obj
  {
  }
}
