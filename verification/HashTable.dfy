/** The open-addressing table of the runtime. Removed keys leave a tombstone; adding takes an
  * empty slot or the tombstone of the same key. */
module HashTable {
  import opened Powers
  import opened Probing

  const TOMB: nat := 0xFFFF_FFFF_FFFF_FFFF

  /** A cell; key 0 means unused. */
  datatype Slot = Slot(key: nat, value: nat)

  predicate Live(s: Slot) {
    s.key != 0 && s.value != TOMB
  }

  /** The first `n` slots of the probe sequence of `k` are used by other keys. */
  ghost predicate Blocked(data: seq<Slot>, k: nat, n: nat)
    requires |data| > 0
  {
    forall j: nat :: j < n ==> Blocks(data, k, Probe(k, |data|, j))
  }

  ghost predicate Blocks(data: seq<Slot>, k: nat, i: nat) {
    i < |data| && data[i].key != 0 && data[i].key != k
  }

  /** Key `k` reaches slot `i` after `n` steps, through used slots of other keys. */
  ghost predicate Chain(data: seq<Slot>, k: nat, i: nat, n: nat)
    requires |data| > 0
  {
    Probe(k, |data|, n) == i && Blocked(data, k, n)
  }

  /** Every used slot can be found from its key. */
  ghost predicate Reachable(data: seq<Slot>)
    requires |data| > 0
  {
    forall i :: 0 <= i < |data| && data[i].key != 0 ==> exists n: nat :: Chain(data, data[i].key, i, n)
  }

  /** The live slots hold exactly the bindings of `model`. */
  ghost predicate Represents(data: seq<Slot>, model: map<nat, nat>) {
    && (forall i :: 0 <= i < |data| && Live(data[i]) ==> data[i].key in model && model[data[i].key] == data[i].value)
    && (forall k :: k in model ==> exists i :: 0 <= i < |data| && data[i] == Slot(k, model[k]) && Live(data[i]))
  }

  ghost function Used(data: seq<Slot>): set<nat> {
    set i: nat | i < |data| && data[i].key != 0
  }

  /** The counters bound the used slots, and leave at least one slot empty. */
  ghost predicate Counted(data: seq<Slot>, size: nat, rsize: nat, model: map<nat, nat>) {
    |Used(data)| <= size && rsize <= size && rsize == |model| && size <= |data| / 2 + 1
  }

  /** Two slots of the same key are one slot. */
  lemma OneSlot(data: seq<Slot>, k: nat, i: nat, n: nat, i': nat, n': nat)
    requires |data| > 0 && i < |data| && i' < |data| && data[i].key == k && data[i'].key == k
    requires Chain(data, k, i, n) && Chain(data, k, i', n')
    ensures i == i'
  {
  }

  function Below(n: nat): (s: set<nat>)
    ensures forall i :: i in s <==> 0 <= i < n
    ensures |s| == n
  {
    if n == 0 then {} else Below(n - 1) + {n - 1}
  }

  lemma SubsetSize<T>(a: set<T>, b: set<T>)
    requires a <= b
    ensures |a| <= |b|
    ensures a != b ==> |a| < |b|
  {
    assert b == a + (b - a);
    assert |b| == |a| + |b - a|;
  }

  /** An empty slot, and how soon the probe sequence of `k` meets it. */
  lemma EmptySlot(data: seq<Slot>, size: nat, rsize: nat, model: map<nat, nat>, bits: nat, k: nat)
    returns (i: nat, last: nat)
    requires |data| == Pow2(bits) >= 4 && Counted(data, size, rsize, model)
    ensures i < |data| && data[i].key == 0 && Probe(k, |data|, last) == i && last < 2 * |data|
  {
    if Below(|data|) <= Used(data) {
      SubsetSize(Below(|data|), Used(data));
    }
    i :| i in Below(|data|) && i !in Used(data);
    last := ProbeCovers(k, bits, i);
  }

  /** One more step of a probe loop. */
  lemma ProbeStep(data: seq<Slot>, k: nat, n: nat, hole: nat, last: nat)
    requires |data| > 0 && Blocked(data, k, n) && hole < |data| && data[hole].key == 0
    requires Probe(k, |data|, last) == hole && n <= last
    requires Probe(k, |data|, n) < |data|
    requires data[Probe(k, |data|, n)].key != 0 && data[Probe(k, |data|, n)].key != k
    ensures Blocked(data, k, n + 1) && n + 1 <= last
    ensures Probe(k, |data|, n + 1) == (Probe(k, |data|, n) + (n + 1) * (n + 1)) % |data| < |data|
  {
  }

  /** The first `n` slots of the probe sequence of `k` are used, and none is its tombstone. */
  ghost predicate Passed(data: seq<Slot>, k: nat, n: nat)
    requires |data| > 0
  {
    forall j: nat :: j < n ==> Passes(data, k, Probe(k, |data|, j))
  }

  ghost predicate Passes(data: seq<Slot>, k: nat, i: nat) {
    i < |data| && data[i].key != 0 && data[i] != Slot(k, TOMB)
  }

  /** The slot where the probe loop of an add of `k` stops, after `n` steps. */
  ghost predicate Stops(data: seq<Slot>, k: nat, i: nat, n: nat)
    requires |data| > 0
  {
    && Probe(k, |data|, n) == i && Passed(data, k, n) && i < |data|
    && (data[i].key == 0 || data[i] == Slot(k, TOMB))
  }

  lemma PassedNone(data: seq<Slot>, k: nat)
    requires |data| > 0
    ensures Passed(data, k, 0)
  {
  }

  lemma PassStep(data: seq<Slot>, k: nat, n: nat, hole: nat, last: nat)
    requires |data| > 0 && Passed(data, k, n) && hole < |data| && data[hole].key == 0
    requires Probe(k, |data|, last) == hole && n <= last
    requires Probe(k, |data|, n) < |data| && Passes(data, k, Probe(k, |data|, n))
    ensures Passed(data, k, n + 1) && n + 1 <= last
    ensures Probe(k, |data|, n + 1) == (Probe(k, |data|, n) + (n + 1) * (n + 1)) % |data| < |data|
  {
  }

  /** For a key that is not live, what was passed are slots of other keys. */
  lemma PassedBlocks(data: seq<Slot>, model: map<nat, nat>, k: nat, n: nat)
    requires |data| > 0 && Represents(data, model) && Passed(data, k, n) && k !in model
    ensures Blocked(data, k, n)
  {
    forall j: nat | j < n ensures Blocks(data, k, Probe(k, |data|, j)) {
      assert Passes(data, k, Probe(k, |data|, j));
    }
  }

  lemma StopsUnused(data: seq<Slot>, k: nat, i: nat, n: nat)
    requires |data| > 0 && Stops(data, k, i, n)
    ensures i < |data| && (data[i].key == 0 || data[i] == Slot(k, TOMB))
  {
  }

  /** Two live slots of one key. */
  ghost predicate TwoLive(data: seq<Slot>, k: nat) {
    exists i, j :: 0 <= i < j < |data| && data[i].key == k == data[j].key && Live(data[i]) && Live(data[j])
  }

  /** The table stands for the map. */
  ghost predicate Refines(data: seq<Slot>, model: map<nat, nat>)
    requires |data| > 0
  {
    Reachable(data) && Represents(data, model)
  }

  /** A live key that is added again: its second slot is beyond the first, where no search finds
    * it, and the table stands for no map at all. */
  lemma SecondSlot(data: seq<Slot>, model: map<nat, nat>, k: nat, v: nat, i: nat)
    requires |data| > 0 && Represents(data, model) && k in model && k != 0 && v != TOMB && i < |data|
    requires data[i].key == 0 || data[i] == Slot(k, TOMB)
    ensures var data' := data[i := Slot(k, v)];
      TwoLive(data', k) && !Reachable(data') && forall m :: !Refines(data', m)
  {
    var data' := data[i := Slot(k, v)];
    var l :| 0 <= l < |data| && data[l] == Slot(k, model[k]) && Live(data[l]);
    assert data'[l] == data[l] && data'[i] == Slot(k, v);
    assert TwoLive(data', k) by { assert l != i; }
    if Reachable(data') {
      var n :| Chain(data', k, i, n);
      var n' :| Chain(data', k, l, n');
      OneSlot(data', k, i, n, l, n');
    }
  }

  /** A table of two slots is full after two adds, although each add checks its size: with one
    * key the size is not below half of two, but the resize keeps the capacity. No search for an
    * absent key ever ends in it. */
  lemma TwoSlotsFill(k1: nat, v1: nat, i1: nat, n1: nat, k2: nat, v2: nat, i2: nat, n2: nat, k: nat, n: nat)
    requires k1 != 0 && k2 != 0 && k != k1 && k != k2
    requires var empty := [Slot(0, 0), Slot(0, 0)];
      Stops(empty, k1, i1, n1) && Stops(empty[i1 := Slot(k1, v1)], k2, i2, n2) && k1 != k2
    ensures 1 >= 2 / 2 && !(1 > 2 / 2)
    ensures var full := [Slot(0, 0), Slot(0, 0)][i1 := Slot(k1, v1)][i2 := Slot(k2, v2)];
      (forall i :: 0 <= i < 2 ==> full[i].key != 0) && Blocks(full, k, Probe(k, 2, n))
  {
    assert i1 != i2;
    assert Probe(k, 2, n) == 0 || Probe(k, 2, n) == 1;
  }

  /** A key whose chain meets an empty slot, or its own tombstone, is not bound. */
  lemma NotBound(data: seq<Slot>, model: map<nat, nat>, k: nat, i: nat, n: nat)
    requires |data| > 0 && Represents(data, model) && Reachable(data) && k != 0
    requires i < |data| && Chain(data, k, i, n)
    requires data[i].key == 0 || data[i] == Slot(k, TOMB)
    ensures k !in model
  {
  }

  lemma Bound(data: seq<Slot>, model: map<nat, nat>, i: nat)
    requires Represents(data, model) && i < |data| && Live(data[i])
    ensures data[i].key in model && model[data[i].key] == data[i].value
  {
  }

  /** Writing a binding where the chain of its key stops keeps every chain. */
  lemma WriteReachable(data: seq<Slot>, k: nat, v: nat, i: nat, n: nat)
    requires |data| > 0 && Reachable(data) && i < |data| && k != 0 && Chain(data, k, i, n)
    requires data[i].key == 0 || data[i].key == k
    ensures Reachable(data[i := Slot(k, v)])
  {
    var data' := data[i := Slot(k, v)];
    forall j | 0 <= j < |data'| && data'[j].key != 0 ensures exists m: nat :: Chain(data', data'[j].key, j, m) {
      if j == i {
        assert Chain(data', k, i, n);
      } else {
        var k' := data[j].key;
        var m :| Chain(data, k', j, m);
        forall l: nat | l < m ensures Blocks(data', k', Probe(k', |data|, l)) {
          assert Blocks(data, k', Probe(k', |data|, l));
        }
        assert Chain(data', k', j, m);
      }
    }
  }

  lemma AddRepresents(data: seq<Slot>, model: map<nat, nat>, k: nat, v: nat, i: nat)
    requires Represents(data, model) && i < |data| && k != 0 && v != TOMB && k !in model
    requires !Live(data[i])
    ensures Represents(data[i := Slot(k, v)], model[k := v])
  {
    var data', model' := data[i := Slot(k, v)], model[k := v];
    forall k' | k' in model' ensures exists j :: 0 <= j < |data'| && data'[j] == Slot(k', model'[k']) && Live(data'[j]) {
      if k' == k {
        assert data'[i] == Slot(k, v);
      } else {
        var j :| 0 <= j < |data| && data[j] == Slot(k', model[k']) && Live(data[j]);
        assert data'[j] == data[j];
      }
    }
  }

  lemma RemoveRepresents(data: seq<Slot>, model: map<nat, nat>, k: nat, i: nat)
    requires |data| > 0 && Represents(data, model) && Reachable(data) && i < |data|
    requires data[i].key == k && Live(data[i])
    ensures Represents(data[i := Slot(k, TOMB)], model - {k})
  {
    var data', model' := data[i := Slot(k, TOMB)], model - {k};
    forall j | 0 <= j < |data'| && Live(data'[j]) ensures data'[j].key in model' && model'[data'[j].key] == data'[j].value {
      if data[j].key == k {
        var n :| Chain(data, k, i, n);
        var m :| Chain(data, k, j, m);
        OneSlot(data, k, i, n, j, m);
      }
    }
    forall k' | k' in model' ensures exists j :: 0 <= j < |data'| && data'[j] == Slot(k', model'[k']) && Live(data'[j]) {
      var j :| 0 <= j < |data| && data[j] == Slot(k', model[k']) && Live(data[j]);
      assert data'[j] == data[j];
    }
  }

  /** The table after an add at the end of the key's chain. */
  lemma AddStep(data: seq<Slot>, size: nat, rsize: nat, model: map<nat, nat>, k: nat, v: nat, i: nat, n: nat)
    requires |data| > 0 && Reachable(data) && Represents(data, model) && Counted(data, size, rsize, model)
    requires i < |data| && Chain(data, k, i, n) && k != 0 && v != TOMB && k !in model
    requires data[i].key == 0 || data[i] == Slot(k, TOMB)
    requires size <= |data| / 2
    ensures var data', model' := data[i := Slot(k, v)], model[k := v];
      Reachable(data') && Represents(data', model') && Counted(data', size + 1, rsize + 1, model')
  {
    hide Reachable, Represents;
    AddRepresents(data, model, k, v, i);
    WriteReachable(data, k, v, i, n);
    assert Used(data[i := Slot(k, v)]) == Used(data) + {i};
  }

  lemma RemoveStep(data: seq<Slot>, size: nat, rsize: nat, model: map<nat, nat>, k: nat, i: nat)
    requires |data| > 0 && Reachable(data) && Represents(data, model) && Counted(data, size, rsize, model)
    requires i < |data| && data[i].key == k && Live(data[i]) && k in model
    ensures var data', model' := data[i := Slot(k, TOMB)], model - {k};
      && rsize > 0
      && Reachable(data') && Represents(data', model') && Counted(data', size, rsize - 1, model')
  {
    var n :| Chain(data, k, i, n);
    RemoveRepresents(data, model, k, i);
    WriteReachable(data, k, TOMB, i, n);
    assert Used(data[i := Slot(k, TOMB)]) == Used(data);
  }

  class Table {
    var size: nat
    var rsize: nat
    var bitcapacity: nat
    var data: array<Slot>
    ghost var model: map<nat, nat>  // the finite map that the table stands for

    ghost predicate Valid()
      reads this, data
    {
      && bitcapacity >= 2 && data.Length == Pow2(bitcapacity) >= 4
      && Reachable(data[..]) && Represents(data[..], model) && Counted(data[..], size, rsize, model)
    }

    /** sk_htbl_init. A table of one or two slots is no good: TwoSlotsFill. */
    constructor (bits: nat)
      ensures fresh(data) && bitcapacity == bits && data.Length == Pow2(bits) && model == map[] && size == rsize == 0
      ensures forall i :: 0 <= i < data.Length ==> data[i].key == 0
      ensures bits >= 2 ==> Valid()
    {
      data := new Slot[Pow2(bits)](i => Slot(0, 0));
      size, rsize, bitcapacity, model := 0, 0, bits, map[];
      new;
      if bits >= 2 { AtLeastFour(bits); }
      assert Used(data[..]) == {};
    }

    /** sk_htbl_find: the index of the live slot of `key`, or nothing. */
    method Find(key: nat) returns (found: bool, i: nat)
      requires Valid() && key != 0
      ensures found <==> key in model
      ensures found ==> i < data.Length && data[i] == Slot(key, model[key]) && Live(data[i])
    {
      hide Reachable, Represents, Counted, Blocked;
      ghost var all := data[..];
      ghost var hole, last := EmptySlot(all, size, rsize, model, bitcapacity, key);
      i := key % data.Length;
      var n := 1;
      BlockedNone(all, key);
      while data[i].key != 0
        invariant n >= 1 && i == Probe(key, data.Length, n - 1) < data.Length
        invariant Blocked(all, key, n - 1) && n - 1 <= last
        decreases last + 1 - n
      {
        if data[i].key == key {
          if data[i].value == TOMB {
            NotBound(all, model, key, i, n - 1);
            return false, i;
          }
          Bound(all, model, i);
          return true, i;
        }
        ProbeStep(all, key, n - 1, hole, last);
        i := (i + n * n) % data.Length;
        n := n + 1;
      }
      NotBound(all, model, key, i, n - 1);
      found := false;
    }

    /** sk_htbl_mem. */
    method Mem(key: nat) returns (b: bool)
      requires Valid() && key != 0
      ensures b <==> key in model
    {
      var found, i := Find(key);
      if !found { return false; }
      b := data[i].value != TOMB;
    }

    /** sk_htbl_remove. */
    method Remove(key: nat)
      requires Valid() && key != 0
      modifies this`rsize, this`model, data
      ensures Valid() && model == old(model) - {key}
    {
      hide Reachable, Represents, Counted;
      var found, i := Find(key);
      if !found {
        assert model - {key} == model;
        return;
      }
      ghost var all := data[..];
      RemoveStep(all, size, rsize, model, key, i);
      rsize := rsize - 1;
      data[i] := Slot(key, TOMB);
      model := model - {key};
      assert data[..] == all[i := Slot(key, TOMB)];
    }

    /** The probe loop of sk_htbl_add: the first slot that is empty or the key's tombstone. */
    method FreeSlot(key: nat) returns (i: nat, ghost n: nat)
      requires Valid() && key != 0
      ensures i < data.Length && Stops(data[..], key, i, n)
      ensures key !in model ==> Chain(data[..], key, i, n)
    {
      hide Reachable, Represents, Counted, Passed, Blocked;
      ghost var all := data[..];
      ghost var hole, last := EmptySlot(all, size, rsize, model, bitcapacity, key);
      i := key % data.Length;
      var step := 1;
      PassedNone(all, key);
      while data[i].key != 0 && !(data[i].key == key && data[i].value == TOMB)
        invariant step >= 1 && i == Probe(key, data.Length, step - 1) < data.Length
        invariant Passed(all, key, step - 1) && step - 1 <= last
        decreases last + 1 - step
      {
        PassStep(all, key, step - 1, hole, last);
        i := (i + step * step) % data.Length;
        step := step + 1;
      }
      n := step - 1;
      if key !in model { PassedBlocks(all, model, key, n); }
    }

    /** sk_htbl_add. It never overwrites a binding: for a key that is live it makes a second live
      * slot, and the table then stands for no map. */
    method Add(key: nat, value: nat)
      requires Valid() && key != 0 && value != TOMB
      modifies this, data
      ensures key !in old(model) ==> Valid() && model == old(model)[key := value]
      ensures key in old(model) ==> TwoLive(data[..], key) && model == old(model)
      ensures data.Length > 0
      ensures Refines(data[..], old(model)[key := value]) <==> key !in old(model)
      ensures data == old(data) || fresh(data)
      ensures old(size) < old(data.Length) / 2 ==>
        data == old(data) && bitcapacity == old(bitcapacity) && size == old(size) + 1 && rsize == old(rsize) + 1
      decreases if size >= data.Length / 2 then 2 else 0
    {
      hide Reachable, Represents, Counted, Chain, Stops, TwoLive;
      if size >= data.Length / 2 {
        Resize();
      }
      ghost var all := data[..];
      var i;
      ghost var n;
      i, n := FreeSlot(key);
      StopsUnused(all, key, i, n);
      size, rsize := size + 1, rsize + 1;
      data[i] := Slot(key, value);
      assert data[..] == all[i := Slot(key, value)];
      if key in model {
        SecondSlot(all, model, key, value, i);
      } else {
        AddStep(all, size - 1, rsize - 1, model, key, value, i, n);
        model := model[key := value];
      }
    }

    /** sk_htbl_resize: the live bindings move to a new table. None of the adds resizes again:
      * the termination measure of Add would not allow it. */
    method Resize()
      requires Valid() && size >= data.Length / 2
      modifies this
      ensures Valid() && model == old(model) && fresh(data)
      ensures size == rsize <= data.Length / 2
      decreases 1
    {
      hide Reachable, Represents, Moved, Counted, Pow2;
      CountedSizes(data[..], size, rsize, model);
      HalfIsEnough(rsize, bitcapacity);
      var tableSize := data.Length;
      var bits := bitcapacity;
      if rsize > tableSize / 2 {
        bits := bits + 1;
      }
      var newTable := new Table(bits);
      ghost var all := data[..];
      var i := 0;
      MovedNone(all, model);
      while i < tableSize
        invariant i <= tableSize && newTable.Valid() && fresh(newTable) && fresh(newTable.data)
        invariant newTable.bitcapacity == bits && newTable.size == newTable.rsize
        invariant unchanged(this) && unchanged(data)
        invariant Moved(all, model, newTable.model, i)
      {
        MovedNext(all, model, newTable.model, i);
        CountedSizes(newTable.data[..], newTable.size, newTable.rsize, newTable.model);
        if data[i].key != 0 && data[i].value != TOMB {
          newTable.Add(data[i].key, data[i].value);
        }
        i := i + 1;
      }
      MovedAll(all, model, newTable.model);
      CountedSizes(newTable.data[..], newTable.size, newTable.rsize, newTable.model);
      size, rsize, bitcapacity, data := newTable.size, newTable.rsize, newTable.bitcapacity, newTable.data;
    }
  }

  lemma CountedSizes(data: seq<Slot>, size: nat, rsize: nat, model: map<nat, nat>)
    requires Counted(data, size, rsize, model)
    ensures rsize == |model| && rsize <= size <= |data| / 2 + 1
  {
  }

  /** Doubling makes room when more than half is in use. */
  lemma HalfIsEnough(rsize: nat, bits: nat)
    requires rsize <= Pow2(bits) / 2 + 1 && bits >= 2
    ensures rsize <= Pow2(bits + 1) / 2 && Pow2(bits + 1) >= Pow2(bits) >= 4
  {
    AtLeastFour(bits);
  }

  lemma BlockedNone(data: seq<Slot>, k: nat)
    requires |data| > 0
    ensures Blocked(data, k, 0)
  {
  }

  /** The bindings of the first `n` slots have moved to a table that stands for `moved`. */
  ghost predicate Moved(data: seq<Slot>, model: map<nat, nat>, moved: map<nat, nat>, n: nat) {
    && (forall k :: k in moved ==> k in model && moved[k] == model[k])
    && (forall j :: 0 <= j < |data| && Live(data[j]) ==> (data[j].key in moved <==> j < n))
  }

  lemma MovedNone(data: seq<Slot>, model: map<nat, nat>)
    ensures Moved(data, model, map[], 0)
  {
  }

  /** The next slot to move: its key is new, and so the moved bindings are fewer than all. */
  lemma MovedNext(data: seq<Slot>, model: map<nat, nat>, moved: map<nat, nat>, n: nat)
    requires |data| > 0 && Reachable(data) && Represents(data, model) && Moved(data, model, moved, n) && n < |data|
    ensures var s := data[n];
      Moved(data, model, if Live(s) then moved[s.key := s.value] else moved, n + 1)
    ensures Live(data[n]) ==> data[n].key !in moved && |moved| < |model|
  {
    var s := data[n];
    if Live(s) {
      Bound(data, model, n);
      SubsetSize(moved.Keys, model.Keys);
      forall j | 0 <= j < |data| && Live(data[j]) ensures data[j].key == s.key ==> j == n {
        if data[j].key == s.key {
          var m :| Chain(data, s.key, n, m);
          var m' :| Chain(data, s.key, j, m');
          OneSlot(data, s.key, n, m, j, m');
        }
      }
    }
  }

  lemma MovedAll(data: seq<Slot>, model: map<nat, nat>, moved: map<nat, nat>)
    requires Represents(data, model) && Moved(data, model, moved, |data|)
    ensures moved == model
  {
  }

  lemma AtLeastFour(bits: nat)
    requires bits >= 2
    ensures Pow2(bits) >= 4
  {
  }
}
