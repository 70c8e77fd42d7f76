/** The persistent allocator on 64 bits: blocks are carved off the untouched tail of the heap, and
  * freed blocks are kept in one linked list for each power of two, the links in the blocks. */
module Palloc {
  import opened Options
  import opened Powers
  import opened SizeClasses

  const FTABLE_SIZE: nat := 64
  /** The last slot whose size the allocator computes right (SizeClasses.ShiftIsPower). */
  const MAX_SLOT: nat := 30
  /** Addresses and sizes have 64 bits. */
  const ADDRESSES: nat := 0x1_0000_0000_0000_0000

  // ------------------------------------------------------------------------------------------
  // Carved blocks tile the heap
  // ------------------------------------------------------------------------------------------

  /** Address and slot of a block. */
  datatype Tile = Tile(at: nat, slot: nat)

  function End(t: Tile): nat {
    t.at + Pow2(t.slot)
  }

  /** The tiles follow each other from `base` to `head` without a gap. */
  ghost predicate Tiled(tiles: seq<Tile>, base: nat, head: nat) {
    if tiles == [] then base == head
    else
      var last := tiles[|tiles| - 1];
      End(last) == head && Tiled(tiles[..|tiles| - 1], base, last.at)
  }

  lemma {:induction false} TilesWithin(tiles: seq<Tile>, base: nat, head: nat, k: nat)
    requires Tiled(tiles, base, head) && k < |tiles|
    ensures base <= tiles[k].at && End(tiles[k]) <= head
  {
    if k < |tiles| - 1 {
      TilesWithin(tiles[..|tiles| - 1], base, tiles[|tiles| - 1].at, k);
    } else if |tiles| > 1 {
      TilesWithin(tiles[..|tiles| - 1], base, tiles[|tiles| - 1].at, 0);
    }
  }

  /** Tiles do not overlap, and come in the order of their addresses. */
  lemma {:induction false} TilesApart(tiles: seq<Tile>, base: nat, head: nat, j: nat, k: nat)
    requires Tiled(tiles, base, head) && j < k < |tiles|
    ensures End(tiles[j]) <= tiles[k].at
  {
    var before := tiles[..|tiles| - 1];
    if k < |tiles| - 1 {
      TilesApart(before, base, tiles[|tiles| - 1].at, j, k);
    } else {
      TilesWithin(before, base, tiles[|tiles| - 1].at, j);
      assert before[j] == tiles[j];
    }
  }

  /** Every carved address is in a tile. */
  lemma {:induction false} TilesCover(tiles: seq<Tile>, base: nat, head: nat, x: nat) returns (k: nat)
    requires Tiled(tiles, base, head) && base <= x < head
    ensures k < |tiles| && tiles[k].at <= x < End(tiles[k])
  {
    var last := tiles[|tiles| - 1];
    if x >= last.at {
      k := |tiles| - 1;
    } else {
      k := TilesCover(tiles[..|tiles| - 1], base, last.at, x);
    }
  }

  /** The bytes of the tiles that are live. */
  function LiveSize(tiles: seq<Tile>, live: set<Tile>): nat {
    if tiles == [] then 0
    else
      var last := tiles[|tiles| - 1];
      LiveSize(tiles[..|tiles| - 1], live) + if last in live then Pow2(last.slot) else 0
  }

  lemma {:induction false} LiveSizeSame(tiles: seq<Tile>, live: set<Tile>, t: Tile)
    requires t !in tiles
    ensures LiveSize(tiles, live + {t}) == LiveSize(tiles, live) == LiveSize(tiles, live - {t})
  {
    if tiles != [] {
      assert tiles[|tiles| - 1] in tiles;
      assert forall u :: u in tiles[..|tiles| - 1] ==> u in tiles;
      LiveSizeSame(tiles[..|tiles| - 1], live, t);
    }
  }

  lemma {:induction false} LiveSizeAdd(tiles: seq<Tile>, base: nat, head: nat, live: set<Tile>, t: Tile)
    requires Tiled(tiles, base, head) && t in tiles && t !in live
    ensures LiveSize(tiles, live + {t}) == LiveSize(tiles, live) + Pow2(t.slot)
  {
    var before, last := tiles[..|tiles| - 1], tiles[|tiles| - 1];
    assert tiles == before + [last];
    if t == last {
      forall k | 0 <= k < |before| ensures before[k] != t {
        TilesApart(tiles, base, head, k, |tiles| - 1);
      }
      LiveSizeSame(before, live, t);
    } else {
      LiveSizeAdd(before, base, last.at, live, t);
    }
  }

  lemma TilesDiffer(tiles: seq<Tile>, base: nat, head: nat, t: Tile, u: Tile)
    requires Tiled(tiles, base, head) && t in tiles && u in tiles && t != u
    ensures End(t) <= u.at || End(u) <= t.at
  {
    var j :| 0 <= j < |tiles| && tiles[j] == t;
    var k :| 0 <= k < |tiles| && tiles[k] == u;
    if j < k { TilesApart(tiles, base, head, j, k); } else { TilesApart(tiles, base, head, k, j); }
  }

  // ------------------------------------------------------------------------------------------
  // Free lists
  // ------------------------------------------------------------------------------------------

  /** The links in `word` lead from `p` through the addresses of `list`; 0 ends the list. */
  ghost predicate Listed(word: map<nat, nat>, p: nat, list: seq<nat>)
    decreases |list|
  {
    if list == [] then p == 0
    else p == list[0] && p != 0 && p in word && p !in list[1..] && Listed(word, word[p], list[1..])
  }

  lemma {:induction false} ListedStays(word: map<nat, nat>, word': map<nat, nat>, p: nat, list: seq<nat>)
    requires Listed(word, p, list)
    requires forall a :: a in list && a in word ==> a in word' && word'[a] == word[a]
    ensures Listed(word', p, list)
    decreases |list|
  {
    if list != [] {
      assert list == [p] + list[1..];
      ListedStays(word, word', word[p], list[1..]);
    }
  }

  lemma ListedHead(word: map<nat, nat>, p: nat, list: seq<nat>)
    requires Listed(word, p, list)
    ensures p == 0 <==> list == []
    ensures p != 0 ==> p == list[0] && p in word && p !in list[1..] && Listed(word, word[p], list[1..])
  {
  }

  lemma ListedPush(word: map<nat, nat>, p: nat, list: seq<nat>, a: nat)
    requires Listed(word, p, list) && a != 0 && a !in list
    ensures Listed(word[a := p], a, [a] + list)
  {
    ListedStays(word, word[a := p], p, list);
    assert ([a] + list)[1..] == list;
  }

  // ------------------------------------------------------------------------------------------
  // The heap
  // ------------------------------------------------------------------------------------------

  predicate Covers(t: Tile, x: nat) {
    t.at <= x < End(t)
  }

  /** What holds of the lists: each has the free tiles of its slot. */
  ghost predicate ListsOk(tiles: seq<Tile>, live: set<Tile>, free: seq<seq<nat>>) {
    && |free| == FTABLE_SIZE
    && (forall s, a :: 0 <= s < FTABLE_SIZE && a in free[s] ==> Tile(a, s) in tiles && Tile(a, s) !in live)
    && (forall t :: t in tiles ==> t.slot <= MAX_SLOT && t.at > 0 && (t in live || t.at in free[t.slot]))
    && (forall t :: t in live ==> t in tiles)
  }

  ghost predicate LinksOk(word: map<nat, nat>, ftable: seq<nat>, free: seq<seq<nat>>) {
    && |ftable| == |free| == FTABLE_SIZE
    && forall s :: 0 <= s < FTABLE_SIZE ==> Listed(word, ftable[s], free[s])
  }

  /** No two tiles start at one address. */
  lemma OneTileAt(tiles: seq<Tile>, base: nat, head: nat, t: Tile, u: Tile)
    requires Tiled(tiles, base, head) && t in tiles && u in tiles && t.at == u.at
    ensures t == u
  {
    if t != u { TilesDiffer(tiles, base, head, t, u); }
  }

  /** A word inside a live tile is no link. */
  lemma LiveIsNoLink(tiles: seq<Tile>, base: nat, head: nat, live: set<Tile>, free: seq<seq<nat>>, t: Tile, x: nat)
    requires Tiled(tiles, base, head) && ListsOk(tiles, live, free) && t in live && Covers(t, x)
    ensures forall s :: 0 <= s < FTABLE_SIZE ==> x !in free[s]
  {
    forall s | 0 <= s < FTABLE_SIZE ensures x !in free[s] {
      if x in free[s] { TilesDiffer(tiles, base, head, t, Tile(x, s)); }
    }
  }

  lemma LinksKept(word: map<nat, nat>, ftable: seq<nat>, free: seq<seq<nat>>, x: nat, v: nat)
    requires LinksOk(word, ftable, free) && forall s :: 0 <= s < FTABLE_SIZE ==> x !in free[s]
    ensures LinksOk(word[x := v], ftable, free)
  {
    forall s | 0 <= s < FTABLE_SIZE ensures Listed(word[x := v], ftable[s], free[s]) {
      ListedStays(word, word[x := v], ftable[s], free[s]);
    }
  }

  lemma LinksPushed(word: map<nat, nat>, ftable: seq<nat>, free: seq<seq<nat>>, slot: nat, a: nat)
    requires LinksOk(word, ftable, free) && slot < FTABLE_SIZE && a > 0
    requires forall s :: 0 <= s < FTABLE_SIZE ==> a !in free[s]
    ensures LinksOk(word[a := ftable[slot]], ftable[slot := a], free[slot := [a] + free[slot]])
  {
    LinksKept(word, ftable, free, a, ftable[slot]);
    ListedPush(word, ftable[slot], free[slot], a);
  }

  lemma LinksPopped(word: map<nat, nat>, ftable: seq<nat>, free: seq<seq<nat>>, slot: nat)
    requires LinksOk(word, ftable, free) && slot < FTABLE_SIZE && ftable[slot] != 0
    ensures free[slot] != [] && ftable[slot] == free[slot][0] && ftable[slot] in word
    ensures ftable[slot] !in free[slot][1..]
    ensures LinksOk(word, ftable[slot := word[ftable[slot]]], free[slot := free[slot][1..]])
  {
    ListedHead(word, ftable[slot], free[slot]);
  }

  lemma ListsPopped(tiles: seq<Tile>, base: nat, head: nat, live: set<Tile>, free: seq<seq<nat>>, slot: nat)
    requires Tiled(tiles, base, head) && ListsOk(tiles, live, free) && slot < FTABLE_SIZE && free[slot] != []
    requires free[slot][0] !in free[slot][1..]
    ensures var t := Tile(free[slot][0], slot);
      && t in tiles && t !in live && ListsOk(tiles, live + {t}, free[slot := free[slot][1..]])
  {
    var first, others := free[slot][0], free[slot][1..];
    var t, free' := Tile(first, slot), free[slot := others];
    assert free[slot] == [first] + others;
    assert first in free[slot];
    forall u | u in tiles ensures u in live + {t} || u.at in free'[u.slot] {
      if u.at == first { OneTileAt(tiles, base, head, t, u); }
    }
    assert forall s, a :: 0 <= s < FTABLE_SIZE && a in free'[s] ==> a in free[s] && Tile(a, s) != t;
  }

  lemma ListsPushed(tiles: seq<Tile>, live: set<Tile>, free: seq<seq<nat>>, t: Tile)
    requires ListsOk(tiles, live, free) && t in live
    ensures t.slot <= MAX_SLOT && ListsOk(tiles, live - {t}, free[t.slot := [t.at] + free[t.slot]])
  {
    var free' := free[t.slot := [t.at] + free[t.slot]];
    assert t.at in free'[t.slot];
    forall s, a | 0 <= s < FTABLE_SIZE && a in free'[s] ensures Tile(a, s) in tiles && Tile(a, s) !in live - {t} {
      assert a in free[s] || Tile(a, s) == t;
    }
  }

  lemma ListsCarved(tiles: seq<Tile>, base: nat, head: nat, live: set<Tile>, free: seq<seq<nat>>, t: Tile)
    requires Tiled(tiles, base, head) && ListsOk(tiles, live, free)
    requires t.at == head && head > 0 && t.slot <= MAX_SLOT
    ensures t !in tiles && t !in live && Tiled(tiles + [t], base, End(t)) && ListsOk(tiles + [t], live + {t}, free)
  {
    assert (tiles + [t])[..|tiles + [t]| - 1] == tiles;
    if t in tiles {
      var k :| 0 <= k < |tiles| && tiles[k] == t;
      TilesWithin(tiles, base, head, k);
    }
  }

  lemma SizeCarved(tiles: seq<Tile>, live: set<Tile>, t: Tile)
    requires t !in tiles
    ensures LiveSize(tiles + [t], live + {t}) == LiveSize(tiles, live) + Pow2(t.slot)
  {
    assert (tiles + [t])[..|tiles + [t]| - 1] == tiles;
    LiveSizeSame(tiles, live, t);
  }

  /** Live blocks take no more than what is carved. */
  lemma {:induction false} LiveWithin(tiles: seq<Tile>, base: nat, head: nat, live: set<Tile>)
    requires Tiled(tiles, base, head)
    ensures base + LiveSize(tiles, live) <= head
  {
    if tiles != [] {
      LiveWithin(tiles[..|tiles| - 1], base, tiles[|tiles| - 1].at, live);
    }
  }

  /** The list of a slot beyond the last good one is empty. */
  lemma NoLongList(tiles: seq<Tile>, live: set<Tile>, free: seq<seq<nat>>, word: map<nat, nat>, ftable: seq<nat>,
                   slot: nat)
    requires ListsOk(tiles, live, free) && LinksOk(word, ftable, free) && MAX_SLOT < slot < FTABLE_SIZE
    ensures ftable[slot] == 0
  {
    ListedHead(word, ftable[slot], free[slot]);
    if free[slot] != [] {
      ListedSlot(tiles, live, free, slot, free[slot][0]);
    }
  }

  lemma ListedSlot(tiles: seq<Tile>, live: set<Tile>, free: seq<seq<nat>>, slot: nat, a: nat)
    requires ListsOk(tiles, live, free) && slot < FTABLE_SIZE && a in free[slot]
    ensures slot <= MAX_SLOT
  {
    assert Tile(a, slot) in tiles;
  }

  /** The computed sizes that matter. */
  lemma SlotSizes(slot: nat)
    ensures Pow2(MAX_SLOT) == 0x4000_0000
    ensures slot <= MAX_SLOT ==> SizeOfSlot(slot) == Pow2(slot) <= 0x4000_0000
    ensures slot == 31 ==> SizeOfSlot(slot) == ADDRESSES - 0x8000_0000
  {
    PowersTo32();
    ShiftIsPower(slot);
    if slot < MAX_SLOT { PowGrows(slot, MAX_SLOT); }
  }

  /** After a block of slot 31 the tail begins inside a block that was handed out before, if that
    * much had been carved. */
  lemma SlotThirtyOneOverlaps(tiles: seq<Tile>, base: nat, head: nat) returns (t: Tile)
    requires Tiled(tiles, base, head) && base + 0x8000_0000 <= head
    ensures t in tiles && Covers(t, head - 0x8000_0000)
  {
    var k := TilesCover(tiles, base, head, head - 0x8000_0000);
    t := tiles[k];
  }

  class PersistentHeap {
    const base: nat
    const end: nat
    /** Where the untouched tail begins. */
    var head: nat
    const ftable: array<nat>
    var totalPallocSize: nat
    /** Words of memory: a link in a free block, what the program likes in a live one. */
    var word: map<nat, nat>
    ghost var tiles: seq<Tile>
    ghost var live: set<Tile>
    ghost var free: seq<seq<nat>>

    ghost predicate Valid()
      reads this, ftable
    {
      && 0 < base <= head <= end < ADDRESSES - Pow2(MAX_SLOT) && Tiled(tiles, base, head)
      && ListsOk(tiles, live, free) && LinksOk(word, ftable[..], free)
      && totalPallocSize == LiveSize(tiles, live)
    }

    constructor (base: nat, end: nat)
      requires 0 < base <= end < ADDRESSES - Pow2(MAX_SLOT)
      ensures Valid() && live == {} && this.base == base && this.end == end && fresh(ftable)
    {
      this.base, this.end, head, totalPallocSize, word := base, end, base, 0, map[];
      ftable := new nat[FTABLE_SIZE](_ => 0);
      tiles, live, free := [], {}, seq(FTABLE_SIZE, _ => []);
    }

    /** A block that covers the request: the first one of its list, or else one off the tail; or
      * none when the memory is exhausted, and then the program ends. This is so up to slot 30,
      * that is for requests up to a gigabyte. The size of a slot beyond is wrong: for slot 31 the
      * tail moves back over blocks that were handed out. */
    method Alloc(requested: nat) returns (r: Option<nat>)
      requires Valid() && SlotOfSize(requested) < FTABLE_SIZE
      modifies this, ftable
      ensures var slot := SlotOfSize(requested);
        slot <= MAX_SLOT ==> (r.None? <==> old(ftable[slot]) == 0 && old(head) + Pow2(slot) >= end)
      ensures SlotOfSize(requested) <= MAX_SLOT && r.Some? ==>
        && Valid() && Tile(r.value, SlotOfSize(requested)) !in old(live)
        && live == old(live) + {Tile(r.value, SlotOfSize(requested))}
        && word == old(word)
      ensures var slot := SlotOfSize(requested);
        slot <= MAX_SLOT && r.Some? ==>
          if old(ftable[slot]) != 0 then r.value == old(ftable[slot]) && head == old(head) && tiles == old(tiles)
          else r.value == old(head) && head == old(head) + Pow2(slot) && tiles == old(tiles) + [Tile(r.value, slot)]
      ensures SlotOfSize(requested) == 31 && old(head) >= 0x8000_0000 ==>
        r == Some(old(head)) && head == old(head) - 0x8000_0000
    {
      hide Tiled, ListsOk, LinksOk, LiveSize, SlotOfSize, SizeOfSlot, Pow2;
      var slot := SlotOfSize(requested);
      var size := SizeOfSlot(slot);
      SlotSizes(slot);
      LiveWithin(tiles, base, head, live);
      if slot > MAX_SLOT { NoLongList(tiles, live, free, word, ftable[..], slot); }
      totalPallocSize := (totalPallocSize + size) % ADDRESSES;
      var p := GetFtable(slot);
      if p != 0 {
        LiveSizeAdd(tiles, base, head, live, Tile(p, slot));
        live := live + {Tile(p, slot)};
        return Some(p);
      }
      if (head + size) % ADDRESSES >= end {
        return None;
      }
      var result := head;
      if slot <= MAX_SLOT {
        ListsCarved(tiles, base, head, live, free, Tile(head, slot));
        SizeCarved(tiles, live, Tile(head, slot));
        tiles, live := tiles + [Tile(head, slot)], live + {Tile(head, slot)};
      }
      head := (head + size) % ADDRESSES;
      return Some(result);
    }

    /** Takes the first block of a free list, or 0. */
    method GetFtable(slot: nat) returns (p: nat)
      requires 0 < base <= head <= end && Tiled(tiles, base, head)
      requires ListsOk(tiles, live, free) && LinksOk(word, ftable[..], free) && slot < FTABLE_SIZE
      modifies this`free, ftable
      ensures p == old(ftable[slot]) && LinksOk(word, ftable[..], free)
      ensures p == 0 ==> ListsOk(tiles, live, free)
      ensures p != 0 ==> Tile(p, slot) in tiles && Tile(p, slot) !in live && ListsOk(tiles, live + {Tile(p, slot)}, free)
    {
      p := ftable[slot];
      if p == 0 {
        return;
      }
      LinksPopped(word, ftable[..], free, slot);
      ListsPopped(tiles, base, head, live, free, slot);
      ftable[slot] := word[p];
      free := free[slot := free[slot][1..]];
      assert ftable[..] == old(ftable[..])[slot := word[p]];
    }

    /** Gives a block back; `size` is in the slot it was allocated from. */
    method Free(chunk: nat, size: nat)
      requires Valid() && Tile(chunk, SlotOfSize(size)) in live
      modifies this, ftable
      ensures Valid() && live == old(live) - {Tile(chunk, SlotOfSize(size))}
      ensures head == old(head) && tiles == old(tiles) && |old(free)| == FTABLE_SIZE && SlotOfSize(size) <= MAX_SLOT
      ensures free == old(free)[SlotOfSize(size) := [chunk] + old(free)[SlotOfSize(size)]]
      ensures ftable[SlotOfSize(size)] == chunk
    {
      var slot := SlotOfSize(size);
      ShiftIsPower(slot);
      ghost var t := Tile(chunk, slot);
      LiveSizeAdd(tiles, base, head, live - {t}, t);
      assert live - {t} + {t} == live;
      LiveIsNoLink(tiles, base, head, live, free, t, chunk);
      ListsPushed(tiles, live, free, t);
      LinksPushed(word, ftable[..], free, slot, chunk);
      totalPallocSize := totalPallocSize - SizeOfSlot(slot);
      word := word[chunk := ftable[slot]];
      ftable[slot] := chunk;
      free := free[slot := [chunk] + free[slot]];
      live := live - {t};
      assert ftable[..] == old(ftable[..])[slot := chunk];
    }

    /** The program writes into a block that it holds. */
    method Store(x: nat, v: nat, ghost t: Tile)
      requires Valid() && t in live && Covers(t, x)
      modifies this`word
      ensures Valid() && word == old(word)[x := v]
    {
      StoreKeeps(this, x, v, t);
      word := word[x := v];
    }

    /** The block of an interned object: its count, the metadata on its left, the object. */
    method ShallowIntern(memsize: nat, leftsize: nat) returns (r: Option<nat>)
      requires Valid() && SlotOfSize(memsize + leftsize + 8) < FTABLE_SIZE
      modifies this, ftable
      ensures SlotOfSize(memsize + leftsize + 8) <= MAX_SLOT && r.Some? ==>
        && Valid() && r.value >= leftsize + 8
        && live == old(live) + {Tile(r.value - leftsize - 8, SlotOfSize(memsize + leftsize + 8))}
        && word == old(word)[r.value - leftsize - 8 := 1]
    {
      hide Tiled, ListsOk, LinksOk, LiveSize, SlotOfSize, Pow2;
      var mem := Alloc(memsize + leftsize + 8);
      if mem.None? {
        return None;
      }
      if SlotOfSize(memsize + leftsize + 8) <= MAX_SLOT {
        CoversStart(memsize + leftsize + 8, mem.value);
        StoreKeeps(this, mem.value, 1, Tile(mem.value, SlotOfSize(memsize + leftsize + 8)));
      }
      word := word[mem.value := 1];
      return Some(mem.value + 8 + leftsize);
    }

    /** Frees the block that ShallowIntern has allocated for an object of these sizes. */
    method FreeIntern(obj: nat, memsize: nat, leftsize: nat)
      requires Valid() && obj >= leftsize + 8
      requires Tile(obj - leftsize - 8, SlotOfSize(memsize + leftsize + 8)) in live
      modifies this, ftable
      ensures Valid() && live == old(live) - {Tile(obj - leftsize - 8, SlotOfSize(memsize + leftsize + 8))}
    {
      Free(obj - leftsize - 8, memsize + leftsize + 8);
    }
  }

  lemma CoversStart(size: nat, at: nat)
    ensures Covers(Tile(at, SlotOfSize(size)), at)
  {
  }

  lemma StoreKeeps(h: PersistentHeap, x: nat, v: nat, t: Tile)
    requires h.Valid() && t in h.live && Covers(t, x)
    ensures LinksOk(h.word[x := v], h.ftable[..], h.free)
  {
    LiveIsNoLink(h.tiles, h.base, h.head, h.live, h.free, t, x);
    LinksKept(h.word, h.ftable[..], h.free, x, v);
  }

  /** Every address below the tail is in exactly one block, which is either live or in the free
    * list of its slot. */
  lemma Partition(h: PersistentHeap, x: nat) returns (t: Tile)
    requires h.Valid() && h.base <= x < h.head
    ensures t in h.tiles && Covers(t, x) && forall u :: u in h.tiles && Covers(u, x) ==> u == t
    ensures t.slot < |h.free| && (t in h.live <==> t.at !in h.free[t.slot])
  {
    var k := TilesCover(h.tiles, h.base, h.head, x);
    t := h.tiles[k];
    forall u | u in h.tiles && Covers(u, x) ensures u == t {
      if u != t { TilesDiffer(h.tiles, h.base, h.head, t, u); }
    }
  }

  /** Live blocks cover their requests and do not overlap. */
  lemma LiveApart(h: PersistentHeap, t: Tile, u: Tile)
    requires h.Valid() && t in h.live && u in h.live && t != u
    ensures End(t) <= u.at || End(u) <= t.at
  {
    TilesDiffer(h.tiles, h.base, h.head, t, u);
  }
}
