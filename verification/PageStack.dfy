/** The pages of the obstack: a chain from the newest page to the oldest, bump allocation in the
  * newest, large blocks on pages of their own, and regions that are opened and destroyed in
  * brackets. Where malloc puts a page is a parameter. */
module PageStack {
  import opened Options
  import opened PageTable

  const PAGE_SIZE: nat := 8388608
  /** Bytes of a page before its user data: the link, the size and the saved position. */
  const HEADER: nat := 40

  datatype Saved = Saved(head: nat, page: nat, end: nat)

  const NOTHING: Saved := Saved(0, 0, 0)

  datatype Header = Header(previous: nat, size: nat, saved: Saved)

  /** Bytes handed out, the eight of metadata included. */
  datatype Block = Block(page: nat, at: nat, len: nat)

  datatype State = State(page: nat, head: nat, end: nat, header: map<nat, Header>, chain: seq<nat>, blocks: seq<Block>)

  const EMPTY: State := State(0, 0, 0, map[], [], [])

  // ------------------------------------------------------------------------------------------
  // What holds of the pages and blocks
  // ------------------------------------------------------------------------------------------

  /** The links lead from `p` through `chain`, each page once. */
  ghost predicate LinkedFrom(header: map<nat, Header>, p: nat, chain: seq<nat>)
    decreases |chain|
  {
    if chain == [] then p == 0
    else p == chain[0] && p > 0 && p in header && p !in chain[1..] && LinkedFrom(header, header[p].previous, chain[1..])
  }

  /** The pages are linked from the newest to the oldest. */
  ghost predicate Linked(s: State) {
    LinkedFrom(s.header, s.page, s.chain) && forall p :: p in s.header ==> p in s.chain
  }

  /** The pages lie apart. */
  ghost predicate PagesApart(header: map<nat, Header>) {
    && (forall p :: p in header ==> p % 8 == 0 && header[p].size > HEADER)
    && (forall p, q :: p in header && q in header && p != q ==> Beside(header, p, q))
  }

  predicate Beside(header: map<nat, Header>, p: nat, q: nat)
    requires p in header && q in header
  {
    p + header[p].size <= q || q + header[q].size <= p
  }

  /** Every block is aligned and inside its page. */
  ghost predicate Inside(s: State) {
    forall b :: b in s.blocks ==> BlockInside(s, b)
  }

  ghost predicate BlockInside(s: State, b: Block) {
    && b.page in s.header && b.at % 8 == 0 && b.len >= 8
    && b.page + HEADER <= b.at && b.at + b.len <= b.page + s.header[b.page].size
    && (b.page == s.page ==> b.at + b.len <= s.head)
  }

  predicate Overlap(a: Block, b: Block) {
    a.at < b.at + b.len && b.at < a.at + a.len
  }

  ghost predicate BlocksApart(s: State) {
    forall j, k :: 0 <= j < k < |s.blocks| ==> !Overlap(s.blocks[j], s.blocks[k])
  }

  ghost predicate Position(s: State) {
    if s.page == 0 then s.head == 0 && s.end == 0
    else
      && s.page in s.header && s.header[s.page].saved == NOTHING
      && s.page + HEADER <= s.head <= s.end == s.page + s.header[s.page].size && s.head % 8 == 0
  }

  ghost predicate Ok(s: State) {
    Linked(s) && PagesApart(s.header) && Inside(s) && BlocksApart(s) && Position(s)
  }

  /** The header of `p` in a state that grew out of `m`: only the position was saved. */
  function Kept(m: State, p: nat): Header
    requires p in m.header
  {
    if p == m.page then m.header[p].(saved := Saved(m.head, m.page, m.end)) else m.header[p]
  }

  ghost predicate Suffix(chain: seq<nat>, rest: seq<nat>) {
    |rest| <= |chain| && rest == chain[|chain| - |rest|..]
  }

  /** `s` has newer pages on top of those of `m`, which it has not touched but to save the
    * position, and newer blocks on newer pages only. */
  ghost predicate Over(m: State, s: State) {
    && Ok(m) && |m.chain| < |s.chain| && Suffix(s.chain, m.chain)
    && (forall p :: p in m.header ==> p in s.header && s.header[p] == Kept(m, p))
    && m.blocks <= s.blocks
    && (forall k :: |m.blocks| <= k < |s.blocks| ==> s.blocks[k].page !in m.header)
  }

  /** The states at the brackets that are open, and the current one on top. */
  ghost predicate Nested(marks: seq<State>, s: State) {
    marks == [] || (Over(marks[|marks| - 1], s) && Nested(marks[..|marks| - 1], marks[|marks| - 1]))
  }

  /** Room for a page of `size` bytes. */
  predicate Room(header: map<nat, Header>, at: nat, size: nat) {
    at > 0 && at % 8 == 0 && forall p :: p in header ==> p + header[p].size <= at || at + size <= p
  }

  // ------------------------------------------------------------------------------------------
  // Steps
  // ------------------------------------------------------------------------------------------

  function WithPage(s: State, at: nat): State {
    s.(page := at, head := at + HEADER, end := at + PAGE_SIZE,
       header := s.header[at := Header(s.page, PAGE_SIZE, NOTHING)], chain := [at] + s.chain)
  }

  function Rounded(size: nat): nat {
    (size + 8 + 7) / 8 * 8
  }

  /** The state with a large page below the newest one. */
  function WithLarge(s: State, at: nat, len: nat): State
    requires s.page in s.header && s.chain != []
  {
    s.(header := s.header[at := Header(s.header[s.page].previous, len + HEADER, NOTHING)]
                         [s.page := s.header[s.page].(previous := at)],
       chain := [s.chain[0], at] + s.chain[1..], blocks := s.blocks + [Block(at, at + HEADER, len)])
  }

  function Bumped(s: State, len: nat): State {
    s.(head := s.head + len, blocks := s.blocks + [Block(s.page, s.head, len)])
  }

  lemma {:induction false} LinkedStays(h: map<nat, Header>, h': map<nat, Header>, p: nat, chain: seq<nat>)
    requires LinkedFrom(h, p, chain)
    requires forall q :: q in chain && q in h ==> q in h' && h'[q].previous == h[q].previous
    ensures LinkedFrom(h', p, chain) && forall q :: q in chain ==> q in h
    decreases |chain|
  {
    if chain != [] {
      LinkedStays(h, h', h[p].previous, chain[1..]);
      assert chain == [p] + chain[1..];
    }
  }

  lemma WithPageLinked(s: State, at: nat)
    requires Linked(s) && at !in s.header && at > 0
    ensures Linked(WithPage(s, at))
  {
    var t := WithPage(s, at);
    LinkedStays(s.header, s.header, s.page, s.chain);
    LinkedStays(s.header, t.header, s.page, s.chain);
    assert t.chain[1..] == s.chain && at in t.chain;
  }

  lemma AddedApart(header: map<nat, Header>, at: nat, h: Header)
    requires PagesApart(header) && Room(header, at, h.size) && h.size > HEADER
    ensures at !in header && PagesApart(header[at := h])
  {
    var header' := header[at := h];
    forall p, q | p in header' && q in header' && p != q ensures Beside(header', p, q) {
      if p in header && q in header { assert Beside(header, p, q); }
    }
  }

  /** What an allocation does: in the newest page, on a large page below it, or on a new page. */
  function Allocated(s: State, size: nat, at: nat): State
    requires Rounded(size) + HEADER > PAGE_SIZE ==> s.page in s.header && s.chain != []
  {
    if s.head + Rounded(size) < s.end then Bumped(s, Rounded(size))
    else if Rounded(size) + HEADER > PAGE_SIZE then WithLarge(s, at, Rounded(size))
    else Bumped(WithPage(s, at), Rounded(size))
  }

  lemma WithPageOk(s: State, at: nat)
    requires Ok(s) && Room(s.header, at, PAGE_SIZE)
    ensures Ok(WithPage(s, at))
  {
    hide Linked, PagesApart;
    var t := WithPage(s, at);
    AddedApart(s.header, at, Header(s.page, PAGE_SIZE, NOTHING));
    WithPageLinked(s, at);
    forall b | b in t.blocks ensures BlockInside(t, b) { assert BlockInside(s, b); }
  }

  lemma Inserted(header: map<nat, Header>, page: nat, at: nat, older: seq<nat>)
    requires page > 0 && at > 0 && page != at && page !in older && at !in older && page in header && at in header
    requires header[page].previous == at && LinkedFrom(header, header[at].previous, older)
    ensures LinkedFrom(header, page, [page, at] + older)
  {
    assert ([at] + older)[1..] == older;
    assert LinkedFrom(header, at, [at] + older);
    assert ([page, at] + older)[1..] == [at] + older;
  }

  lemma WithLargeLinked(s: State, at: nat, len: nat)
    requires Linked(s) && s.page != 0 && at !in s.header && at > 0
    ensures Linked(WithLarge(s, at, len))
  {
    var t := WithLarge(s, at, len);
    var older := s.chain[1..];
    LinkedStays(s.header, s.header, s.page, s.chain);
    LinkedStays(s.header, t.header, s.header[s.page].previous, older);
    Inserted(t.header, s.page, at, older);
    forall p | p in t.header ensures p in t.chain {
      assert p == at || p in s.chain;
      assert p in s.chain <==> p == s.page || p in older by { assert s.chain == [s.page] + older; }
    }
  }

  /** A block on a page of its own is clear of all others. */
  lemma NewPageClear(s: State, at: nat, len: nat)
    requires Inside(s) && Room(s.header, at, len + HEADER)
    ensures forall b :: b in s.blocks ==> !Overlap(b, Block(at, at + HEADER, len))
  {
    forall b | b in s.blocks ensures !Overlap(b, Block(at, at + HEADER, len)) {
      assert BlockInside(s, b);
    }
  }

  lemma OneMoreBlock(s: State, t: State, b: Block)
    requires BlocksApart(s) && t.blocks == s.blocks + [b]
    requires forall c :: c in s.blocks ==> !Overlap(c, b)
    ensures BlocksApart(t)
  {
    forall j, k | 0 <= j < k < |t.blocks| ensures !Overlap(t.blocks[j], t.blocks[k]) {
      if k < |s.blocks| { assert t.blocks[j] == s.blocks[j] && t.blocks[k] == s.blocks[k]; }
    }
  }

  lemma NonEmpty(s: State)
    requires Linked(s) && s.page != 0
    ensures s.chain != []
  {
  }

  lemma WithLargeInside(s: State, at: nat, len: nat, b: Block)
    requires s.page in s.header && s.chain != [] && at !in s.header && BlockInside(s, b)
    ensures BlockInside(WithLarge(s, at, len), b)
  {
  }

  lemma WithLargePages(s: State, at: nat, len: nat)
    requires PagesApart(s.header) && s.page in s.header && s.chain != [] && Room(s.header, at, len + HEADER) && len > 0
    ensures at !in s.header && PagesApart(WithLarge(s, at, len).header)
  {
    hide PagesApart, Room;
    var h := Header(s.header[s.page].previous, len + HEADER, NOTHING);
    AddedApart(s.header, at, h);
    SameSizes(s.header[at := h], WithLarge(s, at, len).header);
  }

  lemma WithLargePosition(s: State, at: nat, len: nat)
    requires Position(s) && s.page != 0 && s.chain != [] && at != s.page
    ensures s.page in s.header && Position(WithLarge(s, at, len))
  {
  }

  lemma WithLargeOk(s: State, at: nat, len: nat)
    requires Ok(s) && s.page != 0 && len % 8 == 0 && len >= 8 && Room(s.header, at, len + HEADER)
    ensures s.chain != [] && Ok(WithLarge(s, at, len))
  {
    NonEmpty(s);
    assert s.page in s.header;
    WithLargePages(s, at, len);
    hide Linked, PagesApart, BlocksApart, BlockInside, Position, Overlap, Room;
    var t := WithLarge(s, at, len);
    var b := Block(at, at + HEADER, len);
    WithLargePosition(s, at, len);
    assert at > 0 by { assert Room(s.header, at, len + HEADER); RoomPlace(s.header, at, len + HEADER); }
    WithLargeLinked(s, at, len);
    NewPageClear(s, at, len);
    OneMoreBlock(s, t, b);
    NewBlockInside(s, at, len);
    forall c | c in t.blocks ensures BlockInside(t, c) {
      if c in s.blocks { WithLargeInside(s, at, len, c); }
    }
  }

  lemma RoomPlace(header: map<nat, Header>, at: nat, size: nat)
    requires Room(header, at, size)
    ensures at > 0 && at % 8 == 0
  {
  }

  lemma NewBlockInside(s: State, at: nat, len: nat)
    requires s.page in s.header && s.chain != [] && at !in s.header && at % 8 == 0 && len >= 8
    ensures BlockInside(WithLarge(s, at, len), Block(at, at + HEADER, len))
  {
  }

  lemma SameSizes(h: map<nat, Header>, h': map<nat, Header>)
    requires PagesApart(h) && h'.Keys == h.Keys && forall p :: p in h ==> h'[p].size == h[p].size
    ensures PagesApart(h')
  {
    forall p, q | p in h' && q in h' && p != q ensures Beside(h', p, q) {
      assert Beside(h, p, q);
    }
  }

  lemma BumpedOk(s: State, len: nat)
    requires Ok(s) && s.page != 0 && len % 8 == 0 && len >= 8 && s.head + len <= s.end
    ensures Ok(Bumped(s, len))
  {
    var t := Bumped(s, len);
    var b := Block(s.page, s.head, len);
    forall c | c in s.blocks ensures !Overlap(c, b) {
      assert BlockInside(s, c);
      assert c.page != s.page ==> Beside(s.header, c.page, s.page);
    }
    OneMoreBlock(s, t, b);
    forall c | c in t.blocks ensures BlockInside(t, c) {
      if c in s.blocks { assert BlockInside(s, c); }
    }
  }

  // ------------------------------------------------------------------------------------------
  // Brackets
  // ------------------------------------------------------------------------------------------

  lemma LinkedIn(s: State, p: nat)
    requires Linked(s) && p in s.chain
    ensures p in s.header
  {
    LinkedStays(s.header, s.header, s.page, s.chain);
  }

  /** The newest page is not one that `m` knows. */
  lemma TopIsNew(m: State, s: State)
    requires Over(m, s) && Linked(s)
    ensures s.page != 0 && s.page in s.header && s.page !in m.header && m.page != s.page
  {
    LinkedIn(s, s.chain[0]);
    var k := |s.chain| - |m.chain|;
    assert forall p :: p in m.chain ==> p in s.chain[1..] by {
      forall p | p in m.chain ensures p in s.chain[1..] {
        assert s.chain[k..] == s.chain[1..][k - 1..];
      }
    }
    LinkedStays(m.header, m.header, m.page, m.chain);
    if m.page in m.header { assert m.page in m.chain; }
  }

  lemma OverPage(m: State, s: State, at: nat)
    requires Over(m, s) && Linked(s) && at !in s.header
    ensures Over(m, WithPage(s, at))
  {
    hide Ok, Linked;
    var t := WithPage(s, at);
    TopIsNew(m, s);
    assert t.chain[|t.chain| - |m.chain|..] == s.chain[|s.chain| - |m.chain|..];
  }

  lemma SameTail(chain: seq<nat>, at: nat, n: nat)
    requires n < |chain|
    ensures ([chain[0], at] + chain[1..])[|chain| + 1 - n..] == chain[|chain| - n..]
  {
  }

  lemma OverLarge(m: State, s: State, at: nat, len: nat)
    requires Over(m, s) && Linked(s) && at !in s.header
    ensures s.page in s.header && Over(m, WithLarge(s, at, len))
  {
    hide Ok, Linked;
    TopIsNew(m, s);
    var t := WithLarge(s, at, len);
    SameTail(s.chain, at, |m.chain|);
    forall p | p in m.header ensures p in t.header && t.header[p] == Kept(m, p) {
      assert p in s.header && p != at && p != s.page;
    }
  }

  lemma OverBumped(m: State, s: State, len: nat)
    requires Over(m, s) && Linked(s)
    ensures Over(m, Bumped(s, len))
  {
    hide Ok, Linked;
    TopIsNew(m, s);
  }

  /** The position is saved in the newest page before another one is put on top. */
  function SavedIn(s: State): State {
    if s.page in s.header then s.(header := s.header[s.page := s.header[s.page].(saved := Saved(s.head, s.page, s.end))])
    else s
  }

  function Opened(s: State, at: nat): State {
    WithPage(SavedIn(s), at)
  }

  /** Saving the position changes no link, size or block. */
  lemma SavedInKeeps(s: State)
    requires Ok(s)
    ensures var t := SavedIn(s);
      && Linked(t) && PagesApart(t.header) && Inside(t) && BlocksApart(t)
      && t.header.Keys == s.header.Keys && forall p :: p in s.header ==> t.header[p] == Kept(s, p)
  {
    var t := SavedIn(s);
    LinkedStays(s.header, t.header, s.page, s.chain);
    SameSizes(s.header, t.header);
    forall b | b in t.blocks ensures BlockInside(t, b) { assert BlockInside(s, b); }
  }

  lemma OpenedOk(s: State, at: nat)
    requires Ok(s) && Room(s.header, at, PAGE_SIZE)
    ensures Ok(Opened(s, at))
  {
    hide Linked, PagesApart, LinkedFrom;
    SavedInKeeps(s);
    var saved, t := SavedIn(s), Opened(s, at);
    AddedApart(saved.header, at, Header(s.page, PAGE_SIZE, NOTHING));
    WithPageLinked(saved, at);
    forall b | b in t.blocks ensures BlockInside(t, b) { assert BlockInside(saved, b); }
  }

  lemma OpenedOver(s: State, at: nat)
    requires Ok(s) && Room(s.header, at, PAGE_SIZE)
    ensures Over(s, Opened(s, at))
  {
    SavedInKeeps(s);
    hide Ok, SavedIn;
    var t := Opened(s, at);
    assert t.chain[1..] == SavedIn(s).chain;
    assert SavedIn(s).chain == s.chain && SavedIn(s).blocks == s.blocks by { SavedInChain(s); }
  }

  lemma SavedInChain(s: State)
    ensures SavedIn(s).chain == s.chain && SavedIn(s).blocks == s.blocks
  {
  }

  // ------------------------------------------------------------------------------------------
  // The obstack
  // ------------------------------------------------------------------------------------------

  /** Bytes that malloc is asked for when a request does not fit the newest page. */
  function PageFor(size: nat): nat {
    if Rounded(size) + HEADER > PAGE_SIZE then Rounded(size) + HEADER else PAGE_SIZE
  }

  /** The pages that are left when the newer ones are freed. */
  ghost predicate Rest(s: State, rest: seq<nat>, header: map<nat, Header>) {
    && Suffix(s.chain, rest) && (forall p :: p in header <==> p in rest)
    && (forall p :: p in header ==> p in s.header && header[p] == s.header[p])
    && LinkedFrom(s.header, Top(rest), rest)
  }

  function Top(chain: seq<nat>): nat {
    if chain == [] then 0 else chain[0]
  }

  lemma LinkedTop(header: map<nat, Header>, p: nat, chain: seq<nat>)
    requires LinkedFrom(header, p, chain)
    ensures p == Top(chain) && (chain == [] <==> p == 0)
    ensures chain != [] ==>
      && p in header && p !in chain[1..] && header[p].previous == Top(chain[1..])
      && LinkedFrom(header, header[p].previous, chain[1..])
  {
  }

  lemma FreeOne(s: State, rest: seq<nat>, header: map<nat, Header>)
    requires Rest(s, rest, header) && rest != []
    ensures rest[0] in header && header[rest[0]].previous == Top(rest[1..]) && Rest(s, rest[1..], header - {rest[0]})
  {
    hide LinkedFrom, Suffix;
    LinkedTop(s.header, Top(rest), rest);
    TailOfTail(s.chain, rest);
    var first, others := rest[0], rest[1..];
    assert first in rest;
    forall p ensures p in header - {first} <==> p in others {
      HeadOrTail(rest, p);
    }
  }

  lemma HeadOrTail(rest: seq<nat>, p: nat)
    requires rest != []
    ensures p in rest <==> p == rest[0] || p in rest[1..]
  {
  }

  lemma TailOfTail(chain: seq<nat>, rest: seq<nat>)
    requires rest != [] && Suffix(chain, rest)
    ensures Suffix(chain, rest[1..])
  {
  }

  lemma OkLinked(s: State)
    requires Ok(s)
    ensures Linked(s) && s.page == Top(s.chain)
  {
    LinkedTop(s.header, s.page, s.chain);
  }

  lemma RoomIsNew(s: State, at: nat, size: nat)
    requires Ok(s) && Room(s.header, at, size) && size > 0
    ensures at !in s.header && at > 0 && at % 8 == 0
  {
  }

  lemma RestOfAll(s: State)
    requires Linked(s)
    ensures Rest(s, s.chain, s.header)
  {
    LinkedStays(s.header, s.header, s.page, s.chain);
    assert s.chain[0..] == s.chain;
  }

  lemma PositionFacts(s: State)
    requires Ok(s)
    ensures s.page == 0 ==> s.head == 0 && s.end == 0 && s.header == map[] && s.chain == []
    ensures s.page != 0 ==> s.page in s.header && s.page == Top(s.chain) && s.head % 8 == 0 && s.head <= s.end
  {
    LinkedTop(s.header, s.page, s.chain);
  }

  /** The walk meets the saved page exactly when the newer pages are freed. */
  lemma TopsMeet(older: map<nat, Header>, p: nat, chain: seq<nat>, header: map<nat, Header>, rest: seq<nat>)
    requires LinkedFrom(older, p, chain) && LinkedFrom(header, Top(rest), rest) && Suffix(rest, chain)
    ensures (Top(rest) == 0 || Top(rest) == p) <==> |rest| == |chain|
    ensures |rest| == |chain| ==> rest == chain
  {
    hide LinkedFrom;
    LinkedTop(older, p, chain);
    LinkedTop(header, Top(rest), rest);
    if |rest| > |chain| && chain != [] {
      var k := |rest| - |chain|;
      assert rest[k] == p && rest[1..][k - 1] == p;
    }
  }

  lemma SuffixOfSuffix(chain: seq<nat>, rest: seq<nat>, older: seq<nat>)
    requires |older| <= |rest| && Suffix(chain, rest) && Suffix(chain, older)
    ensures Suffix(rest, older)
  {
  }

  class Obstack {
    var page: nat
    var head: nat
    var end: nat
    /** The page headers in memory. */
    var header: map<nat, Header>
    /** The record used when there is no page to save the position in. */
    var initSaved: Saved
    ghost var chain: seq<nat>
    ghost var blocks: seq<Block>
    /** The states at the brackets that are open. */
    ghost var marks: seq<State>

    ghost function Abs(): State
      reads this
    {
      State(page, head, end, header, chain, blocks)
    }

    ghost predicate Valid()
      reads this
    {
      Ok(Abs()) && Nested(marks, Abs()) && initSaved == NOTHING
    }

    constructor ()
      ensures Valid() && Abs() == EMPTY && marks == []
    {
      page, head, end, header, initSaved := 0, 0, 0, map[], NOTHING;
      chain, blocks, marks := [], [], [];
    }

    method NewPage(at: nat)
      modifies this`page, this`head, this`end, this`header, this`chain
      ensures Abs() == WithPage(old(Abs()), at)
    {
      header := header[at := Header(page, PAGE_SIZE, NOTHING)];
      chain := [at] + chain;
      page := at;
      end := page + PAGE_SIZE;
      head := page + HEADER;
    }

    method LargePage(size: nat, at: nat) returns (result: nat)
      requires page in header && chain != [] && at != page
      modifies this`header, this`chain, this`blocks
      ensures Abs() == WithLarge(old(Abs()), at, size) && result == at + HEADER
    {
      header := header[at := Header(header[page].previous, size + HEADER, NOTHING)];
      header := header[page := header[page].(previous := at)];
      chain := [chain[0], at] + chain[1..];
      blocks := blocks + [Block(at, at + HEADER, size)];
      result := at + HEADER;
    }

    method Grow(at: nat)
      requires Valid() && Room(header, at, PAGE_SIZE)
      modifies this`page, this`head, this`end, this`header, this`chain
      ensures Valid() && Abs() == WithPage(old(Abs()), at)
    {
      hide Ok, Nested, WithPage;
      RoomIsNew(Abs(), at, PAGE_SIZE);
      NestedPage(marks, Abs(), at);
      WithPageOk(Abs(), at);
      NewPage(at);
    }

    method GrowLarge(len: nat, at: nat) returns (result: nat)
      requires Valid() && Room(header, at, len + HEADER) && page != 0 && len % 8 == 0 && len >= 8
      modifies this`header, this`chain, this`blocks
      ensures Valid() && result == at + HEADER && blocks == old(blocks) + [Block(at, at + HEADER, len)]
      ensures page in old(header) && old(chain) != [] && Abs() == WithLarge(old(Abs()), at, len)
    {
      hide Ok, Nested;
      RoomIsNew(Abs(), at, len + HEADER);
      PositionFacts(Abs());
      NestedLarge(marks, Abs(), at, len);
      WithLargeOk(Abs(), at, len);
      result := LargePage(len, at);
    }

    method Bump(len: nat) returns (result: nat)
      requires Valid() && page != 0 && len % 8 == 0 && len >= 8 && head + len <= end
      modifies this`head, this`blocks
      ensures Valid() && result == old(head) && blocks == old(blocks) + [Block(page, result, len)]
      ensures Abs() == Bumped(old(Abs()), len)
    {
      hide Ok, Nested;
      NestedBumped(marks, Abs(), len);
      BumpedOk(Abs(), len);
      result := head;
      blocks := blocks + [Block(page, head, len)];
      head := head + len;
    }

    /** Bytes that no other block overlaps; `at` is where malloc finds room for a page. */
    method Alloc(size: nat, at: nat) returns (result: nat)
      requires Valid() && Room(header, at, PageFor(size))
      requires Rounded(size) + HEADER > PAGE_SIZE ==> page != 0
      modifies this`page, this`head, this`end, this`header, this`chain, this`blocks
      ensures Valid() && result % 8 == 0
      ensures |blocks| == |old(blocks)| + 1 && blocks[..|old(blocks)|] == old(blocks)
      ensures blocks[|old(blocks)|].at + 8 == result && size + 8 <= blocks[|old(blocks)|].len == Rounded(size)
      ensures Rounded(size) + HEADER > PAGE_SIZE ==> old(page) in old(header) && old(chain) != []
      ensures Abs() == Allocated(old(Abs()), size, at)
      ensures old(head) + Rounded(size) < old(end) ==>
        && result == old(head) + 8 && head == old(head) + Rounded(size)
        && page == old(page) && end == old(end) && header == old(header) && chain == old(chain)
      ensures old(head) + Rounded(size) >= old(end) && Rounded(size) + HEADER > PAGE_SIZE ==>
        && result == at + HEADER + 8 && page == old(page) && head == old(head) && end == old(end)
        && chain == [page, at] + old(chain)[1..] && header.Keys == old(header).Keys + {at}
      ensures old(head) + Rounded(size) >= old(end) && Rounded(size) + HEADER <= PAGE_SIZE ==>
        && result == at + HEADER + 8 && page == at && head == at + HEADER + Rounded(size) && end == at + PAGE_SIZE
        && chain == [at] + old(chain) && header.Keys == old(header).Keys + {at}
    {
      hide Ok, Nested, Room;
      var len := (size + 8 + 7) / 8 * 8;
      PositionFacts(Abs());
      if head + len >= end {
        if len + HEADER > PAGE_SIZE {
          assert at % 8 == 0 by { RoomIsNew(Abs(), at, len + HEADER); }
          result := GrowLarge(len, at);
          return result + 8;
        }
        Grow(at);
        PositionFacts(Abs());
      }
      result := Bump(len);
      return result + 8;
    }

    /** Opens a bracket; the result says which page keeps the saved position. */
    method NewObstack(at: nat) returns (saved: nat)
      requires Valid() && Room(header, at, PAGE_SIZE)
      modifies this
      ensures Valid() && marks == old(marks) + [old(Abs())] && saved == old(page)
      ensures Abs() == Opened(old(Abs()), at)
    {
      hide Ok, Over, WithPage, Room;
      PositionFacts(Abs());
      OpenedOk(Abs(), at);
      OpenedOver(Abs(), at);
      saved := page;
      if head == 0 && page == 0 && end == 0 {
        initSaved := Saved(head, page, end);
      } else {
        header := header[page := header[page].(saved := Saved(head, page, end))];
      }
      marks := marks + [old(Abs())];
      assert marks[..|marks| - 1] == old(marks);
      NewPage(at);
    }

    /** The number of pages before `toPage` in the chain, or of all when it is NULL or not there. */
    method NbrPages(toPage: nat) returns (n: nat)
      requires Valid()
      ensures n <= |chain| && toPage !in chain[..n] && (n < |chain| ==> chain[n] == toPage)
    {
      hide Ok, Nested;
      assert LinkedFrom(header, page, chain) by { OkLinked(Abs()); }
      n := 0;
      var cursor := page;
      LinkedTop(header, page, chain);
      while cursor != 0 && cursor != toPage
        invariant n <= |chain| && cursor == Link(chain, n) && toPage !in chain[..n]
        decreases |chain| - n
      {
        PreviousAt(header, page, chain, n);
        assert chain[..n + 1] == chain[..n] + [chain[n]];
        cursor := header[cursor].previous;
        n := n + 1;
      }
      if n < |chain| { PreviousAt(header, page, chain, n); }
    }

    method ListPages(n: nat) returns (result: array<Cell>)
      requires Valid() && n <= |chain|
      ensures Describes(header, chain[..n], result[..]) && fresh(result)
      ensures forall k :: 0 <= k < n ==> result[k].next == Newer(chain, k)
    {
      hide Ok, Nested, LinkedFrom, DescribesPage;
      assert LinkedFrom(header, page, chain) by { OkLinked(Abs()); LinkedIs(Abs()); }
      result := new Cell[n];
      var i, cursor: nat, next: nat := 0, page, 0;
      LinkedTop(header, page, chain);
      while i < n
        invariant 0 <= i <= n && cursor == Link(chain, i) && next == Newer(chain, i)
        invariant forall k :: 0 <= k < i ==> DescribesPage(header, chain[k], result[k])
        invariant forall k :: 0 <= k < i ==> result[k].next == Newer(chain, k)
      {
        PreviousAt(header, page, chain, i);
        CellDescribes(header, cursor, next);
        result[i] := Cell(cursor, cursor + header[cursor].size, next);
        next := cursor;
        cursor := header[cursor].previous;
        i := i + 1;
      }
    }

    /** The table of the `n` newest pages, ready for searching. */
    method GetPages(n: nat) returns (result: array<Cell>)
      requires Valid() && n <= |chain|
      ensures Disjoint(result[..]) && result.Length == n
      ensures forall x :: FindPage(x, result[..]) != -1 <==> InPages(header, chain[..n], x)
      ensures forall x :: FindPage(x, result[..]) != -1 ==> result[FindPage(x, result[..])].key in chain[..n]
    {
      hide Ok, Nested, Disjoint, Apart, Describes, InPages, FindPage;
      result := ListPages(n);
      ghost var cells := result[..];
      assert |cells| == n by { DescribedLength(header, chain[..n], cells); }
      DescribedApart(Abs(), n, cells);
      HeapSort(result, n);
      SortedApart(cells, result[..]);
      forall x ensures FindPage(x, result[..]) != -1 <==> InPages(header, chain[..n], x)
        ensures FindPage(x, result[..]) != -1 ==> result[FindPage(x, result[..])].key in chain[..n] {
        TableFinds(header, chain[..n], cells, result[..], x);
      }
    }

    /** Frees the pages before `stop` in the chain, of which `older` is the rest. */
    method FreePages(stop: nat, ghost older: seq<nat>, ghost known: map<nat, Header>)
      requires Linked(Abs()) && Suffix(chain, older) && LinkedFrom(known, stop, older)
      modifies this`header, this`chain
      ensures chain == older && Rest(old(Abs()), older, header)
    {
      hide LinkedFrom, Rest, Suffix;
      ghost var s := Abs();
      OlderIsShorter(chain, older);
      RestOfAll(s);
      RestLinked(s, chain, header);
      OkTop(s);
      var current := page;
      SuffixOfSuffix(s.chain, s.chain, older);
      while current != 0 && current != stop
        invariant |chain| >= |older| && Rest(s, chain, header) && current == Top(chain)
        invariant LinkedFrom(s.header, Top(chain), chain) && Suffix(chain, older)
        decreases |chain|
      {
        TopsMeet(known, stop, older, s.header, chain);
        FreeOne(s, chain, header);
        RestLinked(s, chain[1..], header - {chain[0]});
        ShorterSuffix(chain, older);
        var tofree := current;
        current := header[current].previous;
        header := header - {tofree};
        chain := chain[1..];
      }
      TopsMeet(known, stop, older, s.header, chain);
    }

    /** Closes the last bracket: everything is as it was when it was opened. Without a saved
      * position, closes all and frees every page. */
    method DestroyObstack(saved: Option<nat>)
      requires Valid() && (saved.Some? ==> marks != [] && saved.value == marks[|marks| - 1].page)
      modifies this
      ensures Valid()
      ensures saved.None? ==> Abs() == EMPTY && marks == []
      ensures saved.Some? ==> marks == old(marks)[..|old(marks)| - 1] && Abs() == old(marks)[|old(marks)| - 1]
    {
      hide Ok, Over, Rest, LinkedFrom, Suffix;
      ghost var s := Abs();
      ghost var m := if saved.Some? then marks[|marks| - 1] else EMPTY;
      assert Linked(s) by { OkLinked(s); }
      EmptyUnder(s);
      if saved.Some? { UnderMark(m, s); }
      if saved.Some? { SavedPosition(m, s); }
      var position := match saved
        case None => NOTHING
        case Some(p) => if p == 0 then initSaved else header[p].saved;
      FreePages(position.page, m.chain, m.header);
      if saved.Some? { BackTo(m, s, header); } else { NoPages(s, header); }
      head, page, end := position.head, position.page, position.end;
      match saved {
        case None =>
          marks := [];
        case Some(p) =>
          if p == 0 {
            initSaved := NOTHING;
          } else {
            header := header[p := header[p].(saved := NOTHING)];
          }
          marks := marks[..|marks| - 1];
      }
      blocks := m.blocks;
    }
  }

  lemma OlderIsShorter(chain: seq<nat>, older: seq<nat>)
    requires Suffix(chain, older)
    ensures |older| <= |chain| && Suffix(chain, chain)
  {
  }

  lemma RestLinked(s: State, rest: seq<nat>, header: map<nat, Header>)
    requires Rest(s, rest, header)
    ensures LinkedFrom(s.header, Top(rest), rest)
  {
  }

  lemma OkTop(s: State)
    requires Linked(s)
    ensures s.page == Top(s.chain)
  {
    LinkedTop(s.header, s.page, s.chain);
  }

  lemma ShorterSuffix(chain: seq<nat>, older: seq<nat>)
    requires Suffix(chain, older) && |older| < |chain|
    ensures Suffix(chain[1..], older)
  {
  }

  /** What freeing relies on: the pages at the bracket end the chain. */
  lemma UnderMark(m: State, s: State)
    requires Over(m, s)
    ensures Suffix(s.chain, m.chain) && LinkedFrom(m.header, m.page, m.chain) && Ok(m)
  {
  }

  lemma EmptyUnder(s: State)
    ensures Suffix(s.chain, []) && LinkedFrom(map[], 0, []) && Ok(EMPTY)
  {
  }

  lemma NoPages(s: State, header: map<nat, Header>)
    requires Rest(s, [], header)
    ensures header == map[]
  {
  }

  /** Counted up to the page of the last bracket, the pages are those made since. */
  lemma PagesSince(m: State, s: State, n: nat)
    requires Over(m, s) && Linked(s) && n <= |s.chain|
    requires m.page !in s.chain[..n] && (n < |s.chain| ==> s.chain[n] == m.page)
    ensures n + |m.chain| == |s.chain|
  {
    assert LinkedFrom(m.header, m.page, m.chain);
    LinkedTop(m.header, m.page, m.chain);
    hide Ok, LinkedFrom;
    NotBefore(s.chain, m.chain, n);
    if n < |s.chain| {
      LinkedTail(s.header, s.page, s.chain, n);
      TailSuffix(s.chain, m.chain, n);
      TopsMeet(m.header, m.page, m.chain, s.header, s.chain[n..]);
    }
  }

  lemma NotBefore(chain: seq<nat>, older: seq<nat>, n: nat)
    requires Suffix(chain, older) && n <= |chain| && (older != [] ==> Top(older) !in chain[..n])
    ensures n + |older| <= |chain|
  {
    if older != [] {
      assert forall j :: 0 <= j < n ==> chain[..n][j] == chain[j] != Top(older);
      assert chain[|chain| - |older|] == Top(older);
    }
  }

  lemma TailSuffix(chain: seq<nat>, older: seq<nat>, n: nat)
    requires Suffix(chain, older) && n <= |chain| - |older|
    ensures Suffix(chain[n..], older)
  {
  }

  lemma {:induction false} LinkedTail(header: map<nat, Header>, p: nat, chain: seq<nat>, n: nat)
    requires LinkedFrom(header, p, chain) && n < |chain|
    ensures LinkedFrom(header, Top(chain[n..]), chain[n..])
    decreases |chain|
  {
    if n == 0 {
      assert chain[n..] == chain;
    } else {
      LinkedTail(header, header[p].previous, chain[1..], n - 1);
      assert chain[1..][n - 1..] == chain[n..];
    }
  }

  // ------------------------------------------------------------------------------------------
  // The table of the pages of a region
  // ------------------------------------------------------------------------------------------

  /** `x` is in one of the pages. */
  predicate InPages(header: map<nat, Header>, pages: seq<nat>, x: nat) {
    exists p :: p in pages && p in header && p <= x < p + header[p].size
  }

  /** The cells describe the pages, in that order. */
  ghost predicate Describes(header: map<nat, Header>, pages: seq<nat>, cells: seq<Cell>) {
    |cells| == |pages| && forall k :: 0 <= k < |pages| ==> DescribesPage(header, pages[k], cells[k])
  }

  predicate DescribesPage(header: map<nat, Header>, p: nat, c: Cell) {
    p in header && c.key == p && c.value == p + header[p].size
  }

  lemma DescribedLength(header: map<nat, Header>, pages: seq<nat>, cells: seq<Cell>)
    requires Describes(header, pages, cells)
    ensures |cells| == |pages|
  {
  }

  lemma CellDescribes(header: map<nat, Header>, p: nat, next: nat)
    requires p in header
    ensures DescribesPage(header, p, Cell(p, p + header[p].size, next))
  {
  }

  lemma LinkedIs(s: State)
    requires Linked(s)
    ensures LinkedFrom(s.header, s.page, s.chain)
  {
  }

  /** The page before page `k` of the chain, or 0. */
  function Newer(chain: seq<nat>, k: nat): nat
    requires k <= |chain|
  {
    if k == 0 then 0 else chain[k - 1]
  }

  function Link(chain: seq<nat>, k: nat): nat {
    if k < |chain| then chain[k] else 0
  }

  lemma {:induction false} PreviousAt(header: map<nat, Header>, p: nat, chain: seq<nat>, k: nat)
    requires LinkedFrom(header, p, chain) && k < |chain|
    ensures chain[k] > 0 && chain[k] in header && header[chain[k]].previous == Link(chain, k + 1)
    decreases |chain|
  {
    LinkedTop(header, p, chain);
    if k > 0 {
      PreviousAt(header, header[p].previous, chain[1..], k - 1);
    }
  }

  lemma {:induction false} ChainDistinct(header: map<nat, Header>, p: nat, chain: seq<nat>, j: nat, k: nat)
    requires LinkedFrom(header, p, chain) && j < k < |chain|
    ensures chain[j] != chain[k] && chain[j] in header && chain[k] in header
    decreases |chain|
  {
    LinkedStays(header, header, p, chain);
    if j == 0 {
      assert chain[k] == chain[1..][k - 1];
    } else {
      ChainDistinct(header, header[p].previous, chain[1..], j - 1, k - 1);
    }
  }

  lemma DescribedApart(s: State, n: nat, cells: seq<Cell>)
    requires Ok(s) && n <= |s.chain| && Describes(s.header, s.chain[..n], cells)
    ensures Apart(cells)
  {
    forall j, k | 0 <= j < k < |cells|
      ensures cells[j].value <= cells[k].key || cells[k].value <= cells[j].key {
      ChainDistinct(s.header, s.page, s.chain, j, k);
      assert Beside(s.header, s.chain[j], s.chain[k]);
    }
  }

  /** The sorted table finds exactly the addresses in the pages it was made from. */
  lemma TableFinds(header: map<nat, Header>, pages: seq<nat>, cells: seq<Cell>, sorted: seq<Cell>, x: nat)
    requires Describes(header, pages, cells) && Apart(cells) && Sorted(sorted) && multiset(sorted) == multiset(cells)
    ensures FindPage(x, sorted) != -1 <==> InPages(header, pages, x)
    ensures FindPage(x, sorted) != -1 ==> sorted[FindPage(x, sorted)].key in pages
  {
    SortedApart(cells, sorted);
    FindsExactly(sorted, x);
    forall c ensures c in sorted <==> c in cells {
      assert c in multiset(sorted) <==> c in multiset(cells);
    }
    if InPages(header, pages, x) {
      var p :| p in pages && p in header && p <= x < p + header[p].size;
      var k :| 0 <= k < |pages| && pages[k] == p;
      assert cells[k] in cells && Holds(cells[k], x);
      var m :| 0 <= m < |sorted| && sorted[m] == cells[k];
    }
    if FindPage(x, sorted) != -1 {
      var c := sorted[FindPage(x, sorted)];
      assert c in cells;
      var k :| 0 <= k < |cells| && cells[k] == c;
      assert pages[k] in pages;
    }
  }

  lemma SavedPosition(m: State, s: State)
    requires Over(m, s)
    ensures m.page != 0 ==> m.page in s.header && s.header[m.page].saved == Saved(m.head, m.page, m.end)
    ensures m.page == 0 ==> m.head == 0 && m.end == 0 && m.chain == []
  {
  }

  lemma BackTo(m: State, s: State, header: map<nat, Header>)
    requires Over(m, s) && Rest(s, m.chain, header)
    ensures header.Keys == m.header.Keys
    ensures m.page == 0 ==> header == m.header
    ensures m.page != 0 ==> m.page in header && header[m.page := header[m.page].(saved := NOTHING)] == m.header
  {
    LinkedStays(m.header, m.header, m.page, m.chain);
    assert header.Keys == m.header.Keys;
  }

  lemma NestedPage(marks: seq<State>, s: State, at: nat)
    requires Nested(marks, s) && Ok(s) && at !in s.header
    ensures Nested(marks, WithPage(s, at))
  {
    if marks != [] { OverPage(marks[|marks| - 1], s, at); }
  }

  lemma NestedLarge(marks: seq<State>, s: State, at: nat, len: nat)
    requires Nested(marks, s) && Ok(s) && at !in s.header && s.page != 0
    ensures s.page in s.header && s.chain != [] && Nested(marks, WithLarge(s, at, len))
  {
    if marks != [] { OverLarge(marks[|marks| - 1], s, at, len); }
  }

  lemma NestedBumped(marks: seq<State>, s: State, len: nat)
    requires Nested(marks, s) && Ok(s)
    ensures Nested(marks, Bumped(s, len))
  {
    if marks != [] { OverBumped(marks[|marks| - 1], s, len); }
  }
}
