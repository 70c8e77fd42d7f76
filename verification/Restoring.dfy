/** The restore stack: every header that is overwritten with a forwarding pointer is saved first,
  * and written back when the worklist is empty. */
module Restoring {
  import opened Heap
  import opened Interning

  /** One entry of the restore stack: where a header was overwritten and what it held. For a
    * string that is its first word and its size. */
  datatype Undo = UndoHeader(at: Addr, vtable: VTable) | UndoString(at: Addr, head: Head, size: nat)

  /** Write one saved header back. A saved size of zero is not written back. */
  function UndoOne(obs: map<Addr, Cell>, u: Undo): map<Addr, Cell> {
    if u.at !in obs then obs
    else match u
      case UndoHeader(at, vt) => if obs[at].Object? then obs[at := obs[at].(vtable := vt)] else obs
      case UndoString(at, head, size) =>
        if obs[at].String?
        then obs[at := obs[at].(head := head, size := if size != 0 then size else obs[at].size)]
        else obs
  }

  /** Write all saved headers back, last one first. */
  function UndoAll(obs: map<Addr, Cell>, st: seq<Undo>): map<Addr, Cell> {
    if st == [] then obs else UndoAll(UndoOne(obs, st[|st| - 1]), st[..|st| - 1])
  }

  /** What has to be saved before `c` at `a` is forwarded. */
  function Saved(a: Addr, c: Cell): Undo {
    match c
    case Object(vt, _, _) => UndoHeader(a, vt)
    case String(_, size, head, _) => UndoString(a, head, size)
  }

  lemma UndoSnoc(obs: map<Addr, Cell>, st: seq<Undo>, u: Undo)
    ensures UndoAll(obs, st + [u]) == UndoAll(UndoOne(obs, u), st)
  {
    assert (st + [u])[..|st|] == st;
  }

  lemma SavedUndoes(obs: map<Addr, Cell>, a: Addr, to: Addr, st: seq<Undo>)
    requires a in obs && (obs[a].String? ==> obs[a].size != 0)
    ensures UndoAll(obs[a := MarkCell(obs[a], to)], st + [Saved(a, obs[a])]) == UndoAll(obs, st)
  {
    var st' := st + [Saved(a, obs[a])];
    assert st'[..|st|] == st;
    assert UndoOne(obs[a := MarkCell(obs[a], to)], Saved(a, obs[a])) == obs;
  }

  /** Restoring does not notice a cell it has no entry for. */
  lemma {:induction false} UndoElsewhere(obs: map<Addr, Cell>, st: seq<Undo>, a: Addr, c: Cell)
    requires forall k :: 0 <= k < |st| ==> st[k].at != a
    ensures UndoAll(obs[a := c], st) == UndoAll(obs, st)[a := c]
    decreases |st|
  {
    if st != [] {
      var u := st[|st| - 1];
      assert UndoOne(obs[a := c], u) == UndoOne(obs, u)[a := c];
      UndoElsewhere(UndoOne(obs, u), st[..|st| - 1], a, c);
    }
  }

  /** Restoring commutes with a store to a word: headers and words do not overlap. */
  lemma {:induction false} UndoBesideWords(obs: map<Addr, Cell>, st: seq<Undo>, a: Addr, i: nat, w: Addr)
    requires a in obs && obs[a].Object? && i < |obs[a].words|
    ensures var u := UndoAll(obs, st);
      && a in u && u[a].Object? && u[a].words == obs[a].words
      && UndoAll(obs[a := obs[a].(words := obs[a].words[i := w])], st) == u[a := u[a].(words := u[a].words[i := w])]
    decreases |st|
  {
    if st != [] {
      var u := st[|st| - 1];
      var obs' := obs[a := obs[a].(words := obs[a].words[i := w])];
      var o := UndoOne(obs, u);
      assert UndoOne(obs', u) == o[a := o[a].(words := o[a].words[i := w])];
      UndoBesideWords(o, st[..|st| - 1], a, i, w);
    }
  }
}
