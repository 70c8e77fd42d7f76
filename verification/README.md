# Proofs about the Skip runtime's heap, the SKDB mux protocol and its codecs

Three parts of the repository are modelled and proved correct in Dafny.

**The native heap runtime.** An obstack of mutable pages holds short-lived values; a persistent heap
holds shared ones and is reclaimed by counting references. `Heap` gives the memory and the finite
tree that an address denotes. `Counting` and `Reclaim` have the ledger of reference counts and what
it determines; `Interning`, `Restoring` and `Scanning` the invariant of the copying worklist, with
its forwarding pointers and its restore stack; `Runtime` the operations themselves, on a class whose
fields they change: intern, free, external pointers, the global context and its synchronisation.
`Copying` evacuates a value before its region is destroyed. `Comparing` and `Hashing` are structural
equality and the structural hash, `Checksum` the CRC under it and `ChecksumTable` its table. `Masks` is
how the loops read the mask of a gc type. `PageStack` and `PageTable` are the obstack's pages and the
sorted table that addresses are looked up in, `Palloc` and `SizeClasses` the persistent allocators, `Probing`
and `HashTable` the open-addressing table, and `WorkStack` the growable stack.

**The mux protocol.** `Mux` states both endpoints as one automaton that takes a role where the client
and the server differ. `MuxSafety` proves an invariant of one endpoint under every step.
`MuxNetwork` joins a client and a server by two FIFO channels and proves what holds in every run,
`MuxAcceptance` which streams come to exist at all, told from the wire, and `MuxEvents` what each
event does to callbacks and frames.
`MuxSocket` has the sockets and streams as objects that change in place, each method proved to do
what the automaton says.

**The codecs.** `ProtoCodec` and `FrameCodec` state what is encoded and what the other side decodes,
and when the two agree; `ProtoClient` fills the buffers and `ProtoWire` reads from them;
`ProtoErrors` has what becomes of malformed messages. `ChunkDecoder` reassembles chunks and reads
credentials. `Utf8` has the two UTF-8 encoders and a reference decoder, the grammar of section 4 of RFC 3629. `Bytes`, `Buffers`, `Options` and `Powers` are shared helpers.

The main results:

- Interning any graph, cyclic or not, leaves the obstack as it was and returns a persistent value
  that denotes the same tree, with the sharing kept; only what the argument leads to is copied, and
  the books stay exact (`InternShared`). Which cells a free takes depends on the heap and the
  remaining handles alone, cycles or not (`FreeRoot` with `FreedAlike`). Interning
  and then freeing the result changes nothing at all when there is no cycle (`InternAndFree`), and
  without cycles nothing ever leaks (`NothingLeaked`).
- A value copied out of a region denotes the same tree, with the same sharing, after the region is
  destroyed; what lies elsewhere is not copied, nothing leads into a page that is gone, and of the
  large pages exactly those that the value reaches are kept (`DestroyWithValue`).
- A synchronisation exchanges the caller's handle on the old root for one on the new root; every
  other handle denotes what it did, and exactly what nothing holds any more is freed (`SyncNoLock`).
- Equality decides equality of the unfolded trees and ends on shared graphs (`IsEq`); the hash
  depends on the unfolded tree alone (`Hash`). The CRC under it is the remainder of a division
  (`CrcIsRemainder` with `TableIsRight`), so that a change of one node within eight bytes,
  such as another raw word, always changes the hash (`ChangeNoticed`).
- The probe sequence 1, 4, 9, ... visits all slots of a table of 2^k within 2^(k+1) steps
  (`ProbeCovers`), so every search ends, and no resize ever causes another one (`Resize`).
- In every run of the two sockets, payloads are delivered in order, without loss or invention, and
  completely once a close frame has fired onClose (`DeliveredInOrder`); callbacks and frames keep
  their order, streams are never replaced or revived, and an error of the socket ends every stream. A
  reset ends its stream with one onError and touches no other (`ResetReported`); closing the socket
  sends one close frame for each stream that can still send (`SocketCloseSent`), failing it a goaway
  with the highest identifier (`SocketErrorSent`).
- The server decodes what the client encoded if and only if the lengths fit the signed fields of the
  wire format (`RoundTrip`); a frame arrives intact if and only if, besides, the server reads its
  letters as ASCII and its key to the end (`ServerRoundTrip`), or the client finds no byte order mark
  to drop (`ClientRoundTrip`). On any bytes the two frame decoders agree (`DecodersAgree`). The
  two UTF-8 encoders agree on well-formed UTF-16 (`EncodersAgree`).

## What the code does otherwise than one might expect

- `runtime.c:108-114`: when the roots coincide, the reference that was borrowed on the context is
  never given back; `SyncNoLock` states this.
- `runtime.c:56-61`: initialising the context a second time drops the first one without freeing it.
- `runtime.c:117-121`: the drops of a sync may free a cell that the caller's obstack still refers to;
  `RegionsLeft` has the exact condition, `DanglesAfterSync` an example.
- `copy.c:143`: a saved size of zero is not restored, so that an empty string keeps its mark
  (`EmptyStringMarked`; `LeftAsBefore` has the exact condition).
- `Mux.kt:572-575`: the server does not remove a stream that was reset; the client does
  (`skdb_orchestration.ts:1039`).
- `skdb_orchestration.ts:1012-1016` and `Mux.kt:609-611`: a stream whose first data arrives after that
  of a stream with a higher identifier is never accepted, and its data is lost; `LateStreamLost` is such
  a run, `AcceptedFromWire` and `NeverAccepted` have the exact condition.
- `hashtable.c:60-69`: adding a key that is live makes a second live slot (`SecondSlot`); `Add` states
  that it refines the map exactly when the key is not live. A table of two slots fills up completely
  (`TwoSlotsFill`).
- `palloc.c:610` shifts an int: from slot 31 on, for requests above a gigabyte, the size is wrong, and
  for slot 31 the tail of the heap moves back over blocks in use (`ShiftIsPower`,
  `SlotThirtyOneOverlaps`).
- `intern.c:127` and its like in `free.c`, `copy.c`, `native_eq.c` and `hash.c` test bits of a 64-bit
  mask with an int: elements of more than 32 words are misread, unless their mask repeats
  (`ReadRight`, `LongMask`).
- `Orchestration.kt:100-108` and the like read 16-bit lengths as signed numbers: text of 2^15 bytes or
  more, and batches of as many requests, do not come through. `Mux.kt:955-956` reads the length of the
  client version as a signed byte, while the client allows 255; and `Mux.kt:938-958` reads the letters
  of an auth frame as ASCII, while the client writes UTF-8. The client's `TextDecoder` drops a leading
  byte order mark (`skdb_orchestration.ts:1226, 1254`). `LostInReading` has an input for each.
- `string.c:82-140` and `sk_types.ts:371-401` both pass on half a surrogate (`string.c` either half,
  `sk_types.ts` only a low one), which no strict decoder accepts; the lemmas give the exact condition.

## Model

| member | source | states |
|---|---|---|
| Runtime.Runtime.InternShared | skiplang/prelude/runtime/intern.c:152-242 | for any graph, cyclic or not: the obstack is exactly as before, the result denotes the same tree, every count is in-degree plus handles plus one for the result, only cells that the argument leads to are copied, shareable ones once, the loop ends |
| Runtime.Runtime.InternNext | skiplang/prelude/runtime/intern.c:170-225 | one turn of the worklist keeps the global invariant and either marks one more cell or leaves one entry less |
| Runtime.Runtime.InternInto | skiplang/prelude/runtime/intern.c:183-224 | a turn on an obstack cell: forward, copy anew or copy and mark, with the slot filled and the invariant kept |
| Runtime.Runtime.InternCell | skiplang/prelude/runtime/intern.c:185-222 | which of the four branches is taken, what is allocated, counted, marked and pushed |
| Runtime.Runtime.ShallowIntern | skiplang/prelude/runtime/intern.c:54-66 | a copy at an unused address with count one |
| Runtime.Runtime.PushAndMark | skiplang/prelude/runtime/intern.c:201-218 | after marking, the restore stack still leads back to the unmarked obstack |
| Runtime.Runtime.Restore | skiplang/prelude/runtime/intern.c:227-235 | the second loop undoes every entry of the restore stack, last first |
| Runtime.Runtime.Store | skiplang/prelude/runtime/intern.c:190-224 | the slot of the popped entry, a local or a word of a copy, gets the interned pointer and nothing else changes |
| Scanning.ScanForCopy | skiplang/prelude/runtime/intern.c:121-141 | the loops over elements and masks push one entry for exactly the counted words that are not null, in order |
| Masks.ReadRight | skiplang/prelude/runtime/intern.c:126-127 | the test with an int reads a mask right exactly when the upper half of each of its words repeats the lower one and bit 31 covers it, as any mask of at most 32 slots does |
| Masks.LongMask | skiplang/prelude/runtime/intern.c:126-127 | an element of 33 words with its last one a reference is read wrong |
| Restoring.SavedUndoes | skiplang/prelude/runtime/intern.c:217-218 | a saved header or first word and size undoes its forwarding pointer |
| Restoring.UndoBesideWords | skiplang/prelude/runtime/copy.c:128-147 | restoring headers commutes with the stores into words of objects that stay in place |
| Interning.AllocStep | skiplang/prelude/runtime/intern.c:107-150 | a copied cell with its pushed fields keeps the invariant: forwarding map, copies, entries and books |
| Interning.ShareStep | skiplang/prelude/runtime/intern.c:219-224 | filling a slot and counting one more reference to an existing copy keeps the invariant |
| Interning.KeepStep | skiplang/prelude/runtime/intern.c:175-181 | a pointer that leads out of the obstack is kept, and counted unless it is static |
| Interning.CopyStep | skiplang/prelude/runtime/intern.c:209-224 | the first visit of a cell keeps the invariant |
| Interning.EntryMet | skiplang/prelude/runtime/intern.c:121-141 | every entry of the worklist stands for a word to which the argument leads along counted references |
| Interning.ForwardStep | skiplang/prelude/runtime/intern.c:194-199 | a later visit finds the copy through the forwarding pointer and keeps the invariant |
| Interning.Finished | skiplang/prelude/runtime/intern.c:170-241 | an empty worklist means a finished copy whose ledger counts the result |
| Interning.InternedDenotes | skiplang/prelude/runtime/intern.c:152-242 | a finished copy denotes the same tree as the original |
| Interning.SettledDenotes | skiplang/prelude/runtime/intern.c:152-242 | the same for every word of the graph, by induction on the tree |
| Interning.InternedRanked | skiplang/prelude/runtime/intern.c:152-242 | copying makes no cycle where there was none |
| Interning.NothingToCopy | skiplang/prelude/runtime/intern.c:175-181 | a persistent or static argument is returned as it is, and nothing is allocated |
| Interning.InternThenFree | skiplang/prelude/runtime/free.c:100-125 | without cycles, a heap that serves the former handles after a free of the result has the former cells and counts |
| Counting.LedgerDeterminesHeap | skiplang/prelude/runtime/free.c:100-125 | in an acyclic heap the handles alone determine which cells are allocated, and their counts |
| Counting.NothingLeaked | skiplang/prelude/runtime/free.c:100-125 | in an acyclic heap with exact books every allocated cell is reached from a handle along counted references |
| Counting.EdgesUpdate | skiplang/prelude/runtime/intern.c:190-224 | a store into one word moves one counted reference |
| Reclaim.DropReference | skiplang/prelude/runtime/free.c:111-115 | dropping a static or shared entry keeps the books balanced |
| Reclaim.NothingHolds | skiplang/prelude/runtime/free.c:115-118 | a cell whose last reference is dropped is held by no field, handle or waiting entry, its own fields included |
| Reclaim.FreeCell | skiplang/prelude/runtime/free.c:35-98 | freeing such a cell turns its fields into waiting entries and keeps the heap closed and balanced |
| Reclaim.DrainStep | skiplang/prelude/runtime/free.c:107-119 | what the three outcomes of one drop make of cells, counts and waiting entries |
| Reclaim.SurvivorDenotes | skiplang/prelude/runtime/free.c:100-125 | what survives a free denotes what it denoted before |
| Reclaim.FreedOne | skiplang/prelude/runtime/free.c:115-118 | a cell is freed only when all cells that referred to it are gone and no handle holds it |
| Reclaim.FreedChain | skiplang/prelude/runtime/runtime.c:118-121 | frees one after the other make one list of freed cells and of destructor calls, both in order |
| Reclaim.ExternalsOnce | skiplang/prelude/runtime/free.c:54-68 | a destructor is called for exactly the external pointers that were freed, once for each |
| Reclaim.FreedAlike | skiplang/prelude/runtime/free.c:100-125 | in any graph, cyclic or not, which cells a free takes and which counts it leaves depends on the heap and the remaining handles alone |
| Runtime.ScanForFree | skiplang/prelude/runtime/free.c:73-92 | the loops push exactly the counted words, null ones included |
| Runtime.Runtime.FreeObj | skiplang/prelude/runtime/free.c:35-98 | pushes the counted fields, calls the destructor of an external pointer and removes the cell with its count |
| Runtime.Runtime.Release | skiplang/prelude/runtime/free.c:111-118 | one drop: static entries are skipped, a shared cell loses a count, an unshared one is freed |
| Runtime.Runtime.Drain | skiplang/prelude/runtime/free.c:107-119 | the worklist ends and leaves an exact ledger for the remaining handles; each cell is freed after all that referred to it, and exactly the external pointers among them are finalized, in that order |
| Runtime.Runtime.FreeRoot | skiplang/prelude/runtime/free.c:100-125 | giving up one handle: survivors unchanged, books exact for the other handles, what is freed was held by nothing that is left |
| Runtime.Runtime.FreeExternalPointers | skiplang/prelude/runtime/free.c:127-163 | all listed references are dropped, the list is empty, books exact, and which cells and destructors that takes |
| Runtime.Runtime.InternAndFree | skiplang/prelude/runtime/free.c:100-125 | intern followed by a free of the result restores obstack, cells and counts exactly, when there is no cycle |
| Runtime.Runtime.CreateExternalPointer | skiplang/prelude/runtime/intern.c:250-263 | the new head of the list denotes the argument, from the obstack or persistent, and holds the reference that interning returned; only copies of what the argument leads to are allocated |
| Runtime.Runtime.ContextInit | skiplang/prelude/runtime/runtime.c:56-61 | the context denotes the argument, copied as interning copies; a former context stays counted though nobody holds it |
| Runtime.Runtime.ContextGet | skiplang/prelude/runtime/palloc.c:295-303 | the caller gains one reference to the context |
| Runtime.Runtime.DropRoots | skiplang/prelude/runtime/runtime.c:118-121 | two drops of the former root and one of the old root never free what a remaining handle holds |
| Runtime.Runtime.SyncNoLock | skiplang/prelude/runtime/runtime.c:98-127 | the errors change nothing but that the second keeps the borrowed reference; on success the new root denotes the resolved value, every other handle denotes what it did, no cell that is left has other contents, what is allocated are copies, what is freed nothing holds, and the obstack keeps sound references exactly when none leads to a freed cell |
| Runtime.OthersKept | skiplang/prelude/runtime/runtime.c:117-121 | the values of the remaining handles outlast the drops of a sync |
| Runtime.RegionsLeft | skiplang/prelude/runtime/runtime.c:117-121 | frees leave the obstack without dangling references exactly when it has none to what is freed |
| Runtime.DanglesAfterSync | skiplang/prelude/runtime/runtime.c:117-121 | an obstack that holds a reference to the root that a sync frees is left with a dangling one |
| Heap.DenotesUnique | skiplang/prelude/runtime/native_eq.c:3-26 | an address denotes at most one tree |
| Comparing.IsEq | skiplang/prelude/runtime/native_eq.c:109-130 | returns 0 exactly when both values unfold to the same tree, else 1, and ends on shared graphs |
| Comparing.CompareCells | skiplang/prelude/runtime/native_eq.c:86-107 | the verdict for one pair: equal up to the pairs it defers, or different |
| Comparing.CompareObjects | skiplang/prelude/runtime/native_eq.c:29-84 | the nested loops compute the verdict word by word |
| Comparing.ScanMeaning | skiplang/prelude/runtime/native_eq.c:58-84 | two objects are equal exactly when their raw words agree and all deferred pairs are equal, and those pairs are less work |
| Comparing.StringCmp | skiplang/prelude/runtime/string.c:174-196 | zero exactly on equal bytes, negative exactly when the first comes before in bytewise order |
| Hashing.Hash | skiplang/prelude/runtime/hash.c:196-214 | the worklist computes a hash of the unfolded tree alone, whatever is shared and wherever it lies |
| Hashing.HashCell | skiplang/prelude/runtime/hash.c:146-194 | one turn: the hash of the node and the pushed children |
| Hashing.TurnRest | skiplang/prelude/runtime/hash.c:204-209 | one turn of the worklist keeps the hash still to be computed, and lessens the work |
| Checksum.CrcLoop | skiplang/prelude/runtime/hash.c:102-112 | the loop is the fold of the table step over the bytes |
| Checksum.CrcIsRemainder | skiplang/prelude/runtime/hash.c:102-112 | with the table of the generator the loop computes the remainder of the bitwise division, whatever the initial value |
| Checksum.ByteDivides | skiplang/prelude/runtime/hash.c:106-109 | a step of the table is eight steps of the division |
| Checksum.Shift8Splits | skiplang/prelude/runtime/hash.c:9-96 | eight steps of a word: the remainder of its first byte, which is what the table holds, and the others moved up |
| ChecksumTable.TableIsRight | skiplang/prelude/runtime/hash.c:9-96 | every one of the 256 words of the table is what eight steps of the division make of its index |
| ChecksumTable.RowFrom | skiplang/prelude/runtime/hash.c:9-96 | each row of sixteen words is the first row with its own first word added, as the division is linear |
| Checksum.StaysApart | skiplang/prelude/runtime/hash.c:102-112 | equal bytes keep different initial values apart |
| Checksum.TakenAtOnce | skiplang/prelude/runtime/hash.c:102-112 | bytes that are taken in one by one might have been in the register from the start |
| Checksum.BurstNoticed | skiplang/prelude/runtime/hash.c:102-112 | two byte strings that differ within eight neighbouring bytes only have different checksums |
| Hashing.NodeHashIsCrc | skiplang/prelude/runtime/hash.c:146-194 | the hash of a node is the checksum of its text, or of its raw words in order and its type |
| Hashing.HashIsCrc | skiplang/prelude/runtime/hash.c:196-214 | the hash of a value is the checksum of the hashes of its nodes in the order of the walk |
| Hashing.ChangeNoticed | skiplang/prelude/runtime/hash.c:140-214 | a value and the same with one node changed within eight bytes, anywhere in its graph, have different hashes |
| Hashing.TextChange | skiplang/prelude/runtime/hash.c:140-144 | such a change is another byte in a text |
| Hashing.WordChange | skiplang/prelude/runtime/hash.c:160-188 | such a change is any other raw word |
| Hashing.TypeChange | skiplang/prelude/runtime/hash.c:191 | such a change is another type |
| Hashing.EqualHashes | skiplang/prelude/runtime/hash.c:140-214 | when IsEq returns 0 the two hashes agree |
| Copying.Obstack.CopyCell | skiplang/prelude/runtime/copy.c:24-67 | a cell of a small page is copied beside the others, one on a large page stays; its fields are pushed |
| Copying.Obstack.CopyOrForward | skiplang/prelude/runtime/copy.c:105-134 | copy and mark on the first visit, forward on a later one |
| Copying.Obstack.CopyNext | skiplang/prelude/runtime/copy.c:86-137 | one turn keeps the invariant of the evacuation and lessens the work |
| Copying.Obstack.CopyWithPages | skiplang/prelude/runtime/copy.c:69-153 | the finished evacuation; exactly the large pages that the value reaches are kept, and a cell that stays behind is as before, but that an empty string that is reached keeps the mark |
| Copying.Obstack.DestroyWithValue | skiplang/prelude/runtime/obstack.c:259-284 | the result denotes the same tree with the same sharing: a value outside the region is returned as it is, reached cells of small pages get one copy each at unused addresses and those of large pages stay, every reference follows, nothing else is allocated; nothing that remains leads into a freed page, older pages are untouched, and the large pages that the value reaches are kept, no others |
| Copying.SharingKept | skiplang/prelude/runtime/copy.c:74-126 | two words of the evacuated value are the same address exactly when they were before |
| Copying.Evacuates | skiplang/prelude/runtime/copy.c:74-147 | the finished evacuation maps every reached cell to its one copy or to itself, and the memory has no other new cell |
| Copying.SettleStep | skiplang/prelude/runtime/copy.c:87-94 | a slot whose target stays is settled |
| Copying.EnterStep | skiplang/prelude/runtime/copy.c:105-136 | a first visit keeps the routes, the evacuated cells and the entries in order |
| Copying.SentDenotes | skiplang/prelude/runtime/copy.c:69-153 | an evacuated word denotes what the word denoted |
| Copying.RemainingWithin | skiplang/prelude/runtime/obstack.c:259-284 | no reference of what remains leads into a page that is gone |
| Copying.VisitedIsReached | skiplang/prelude/runtime/copy.c:86-137 | the cells that are visited are exactly those that the value reaches |
| Copying.LeftAsBefore | skiplang/prelude/runtime/copy.c:139-147 | the cells that stay behind are as before exactly when the value reaches no empty string in the pages |
| Copying.EmptyStringMarked | skiplang/prelude/runtime/copy.c:143-146 | a region with one empty string: however it is copied, the size that is left is not zero |
| Copying.EnteredUndo | skiplang/prelude/runtime/copy.c:139-147 | the restore stack leads back to the unmarked memory, but for the mark of an empty string |
| Probing.HalfTurn | skiplang/prelude/runtime/hashtable.c:60-64 | the sum of the first n + 2^(k+1) squares is that of the first n plus 2^k, modulo 2^(k+1) |
| Probing.CoversResidues | skiplang/prelude/runtime/hashtable.c:60-64 | the sums of squares reach every residue of 2^k within 2^(k+1) steps from any start |
| Probing.ProbeCovers | skiplang/prelude/runtime/hashtable.c:55-64 | the probe sequence visits every slot within twice the capacity |
| HashTable.EmptySlot | skiplang/prelude/runtime/hashtable.c:50-54 | the counters leave at least one slot empty |
| HashTable.AddStep | skiplang/prelude/runtime/hashtable.c:60-69 | writing at the slot that the probe found adds one binding and keeps every key reachable |
| HashTable.RemoveStep | skiplang/prelude/runtime/hashtable.c:102-111 | a tombstone removes one binding and keeps every key reachable |
| HashTable.Table.constructor | skiplang/prelude/runtime/hashtable.c:3-17 | an empty table of any capacity; sound from four slots on |
| HashTable.Table.Find | skiplang/prelude/runtime/hashtable.c:72-90 | finds the live slot of a key exactly when the map binds it; ends because one slot is empty |
| HashTable.Table.Mem | skiplang/prelude/runtime/hashtable.c:92-100 | membership in the map |
| HashTable.Table.Remove | skiplang/prelude/runtime/hashtable.c:102-111 | the map without the key; an absent key changes nothing |
| HashTable.Table.FreeSlot | skiplang/prelude/runtime/hashtable.c:56-64 | the probe loop of add ends at an empty slot or a tombstone of the key with only occupied slots before it |
| HashTable.Table.Add | skiplang/prelude/runtime/hashtable.c:47-70 | the map with one more binding exactly when the key is not live; otherwise the key has two live slots and the table stands for no map |
| HashTable.SecondSlot | skiplang/prelude/runtime/hashtable.c:60-69 | a live key that is added again gets a second slot, which its probe sequence does not reach: no map is represented |
| HashTable.TwoSlotsFill | skiplang/prelude/runtime/hashtable.c:47-70 | a table of two slots is full after two adds, and no search for an absent key ends |
| HashTable.Table.Resize | skiplang/prelude/runtime/hashtable.c:24-45 | the same map in a new table with room; no add inside resizes again |
| PageTable.Heapify | skiplang/prelude/runtime/obstack.c:356-375 | repairs a heap that is broken at one node, permuting the first cells only |
| PageTable.SiftStep | skiplang/prelude/runtime/obstack.c:370-374 | swapping with the larger child moves the broken node down |
| PageTable.RootIsLargest | skiplang/prelude/runtime/obstack.c:356-375 | the root of a heap is its largest cell |
| PageTable.TakeLargest | skiplang/prelude/runtime/obstack.c:384-388 | moving the root behind the heap extends the sorted end |
| PageTable.HeapSort | skiplang/prelude/runtime/obstack.c:377-390 | a sorted permutation |
| PageTable.BinarySearch | skiplang/prelude/runtime/obstack.c:422-445 | an index that is returned is that of an interval that holds the address |
| PageTable.SearchFinds | skiplang/prelude/runtime/obstack.c:422-445 | on disjoint intervals the search misses nothing |
| PageTable.FindsExactly | skiplang/prelude/runtime/obstack.c:447-453 | the search agrees with a scan of all intervals |
| PageTable.FindsAfterEmptying | skiplang/prelude/runtime/copy.c:98-101 | emptying a visited page hides its addresses and no others, and the search stays correct |
| PageTable.SortedApart | skiplang/prelude/runtime/obstack.c:406-420 | sorting pages that lie apart makes them disjoint intervals in order |
| PageStack.Obstack.constructor | skiplang/prelude/runtime/obstack.c:46-48 | no page at all |
| PageStack.Obstack.Alloc | skiplang/prelude/runtime/obstack.c:148-168 | an aligned block that covers the request, inside its page and apart from all others: at the head of the newest page when it fits, else first on a page of its own below it when it is large, else first on a new page |
| PageStack.Obstack.NewPage | skiplang/prelude/runtime/obstack.c:134-146 | a small page on top of the chain |
| PageStack.Obstack.LargePage | skiplang/prelude/runtime/obstack.c:110-132 | a large page is linked in below the newest one |
| PageStack.Obstack.NewObstack | skiplang/prelude/runtime/obstack.c:196-211 | saves the position and opens a new page |
| PageStack.Obstack.DestroyObstack | skiplang/prelude/runtime/obstack.c:213-249 | closing a bracket restores page, position, headers and blocks to what they were when it was opened, and frees exactly the pages made since; with NULL everything is freed |
| PageStack.Obstack.FreePages | skiplang/prelude/runtime/obstack.c:228-234 | the loop frees exactly the pages before the one it stops at |
| PageStack.Obstack.NbrPages | skiplang/prelude/runtime/obstack.c:396-404 | the number of pages before a page in the chain, or of all of them for NULL |
| PageStack.PagesSince | skiplang/prelude/runtime/obstack.c:259-263 | counted up to the page of the last bracket, the pages are those made since |
| PageStack.Obstack.ListPages | skiplang/prelude/runtime/obstack.c:406-418 | one cell a page, newest first, with its start, its end and the page before |
| PageStack.Obstack.GetPages | skiplang/prelude/runtime/obstack.c:406-420 | the search in the table finds exactly the addresses in the listed pages |
| PageStack.BumpedOk | skiplang/prelude/runtime/obstack.c:162-167 | a bumped block overlaps no other |
| PageStack.WithLargeOk | skiplang/prelude/runtime/obstack.c:118-132 | a large page keeps links, pages and blocks in order |
| PageStack.OpenedOver | skiplang/prelude/runtime/obstack.c:196-211 | opening a bracket leaves the older pages as they are, but for the saved position |
| PageStack.OverLarge | skiplang/prelude/runtime/obstack.c:110-116 | a large page that is linked in later belongs to the newer pages |
| PageStack.TopsMeet | skiplang/prelude/runtime/obstack.c:228-234 | the freeing walk meets the saved page exactly when all newer pages are freed |
| PageStack.BackTo | skiplang/prelude/runtime/obstack.c:235-243 | clearing the saved position restores the headers exactly |
| PageStack.TableFinds | skiplang/prelude/runtime/obstack.c:406-453 | sorted table against chain of pages |
| WorkStack.Stack.constructor | skiplang/prelude/runtime/stack.c:7-11 | an empty stack |
| WorkStack.Stack.Grow | skiplang/prelude/runtime/stack.c:17-29 | the same contents with twice the room |
| WorkStack.Stack.Push | skiplang/prelude/runtime/stack.c:31-38 | one more value on top, and room for another |
| WorkStack.Stack.Pop | skiplang/prelude/runtime/stack.c:40-43 | takes the last value |
| SizeClasses.SlotIsLeast | skiplang/prelude/runtime/palloc.c:598-605 | the slot of a size is the least one whose power of two covers it and can hold a link |
| SizeClasses.ShiftIsPower | skiplang/prelude/runtime/palloc.c:607-611 | the size computed for a slot is the power of two exactly up to slot 30 |
| SizeClasses.ExactUpToAGigabyte | skiplang/prelude/runtime/palloc.c:598-611 | the size computed for a request is that power exactly up to a gigabyte |
| SizeClasses.Pow2SizeIs | skiplang/prelude/runtime/memory.c:38-41 | the least power of two from four on that covers the size |
| SizeClasses.CellDeterminesSize | skiplang/prelude/runtime/memory.c:43-58 | the size depends on the cell alone, covers the request, and is at most four thirds of it above 256 bytes |
| SizeClasses.ReuseIsLargeEnough | skiplang/prelude/runtime/memory.c:109-127 | a freed block can serve any request of its cell |
| Palloc.PersistentHeap.constructor | skiplang/prelude/runtime/palloc.c:507-517 | an empty heap |
| Palloc.PersistentHeap.Alloc | skiplang/prelude/runtime/palloc.c:705-721 | for a request up to a gigabyte: a block that was not live, the first of its list or else the next off the tail, and none exactly when both fail; for slot 31 the tail moves back by 2^31 |
| Palloc.PersistentHeap.GetFtable | skiplang/prelude/runtime/palloc.c:618-625 | the first block of the list, which stays linked |
| Palloc.PersistentHeap.Free | skiplang/prelude/runtime/palloc.c:723-729 | the block leaves the live ones and heads the list of its slot, which is otherwise as before |
| Palloc.PersistentHeap.Store | skiplang/prelude/runtime/intern.c:60 | writing into a live block disturbs no list |
| Palloc.PersistentHeap.ShallowIntern | skiplang/prelude/runtime/intern.c:54-66 | the block of an object with its count and metadata |
| Palloc.PersistentHeap.FreeIntern | skiplang/prelude/runtime/free.c:29-33 | the recomputed address and size give back the very block |
| Palloc.Partition | skiplang/prelude/runtime/palloc.c:705-729 | every address below the tail is in exactly one block, which is either live or in the list of its slot |
| Palloc.LiveApart | skiplang/prelude/runtime/palloc.c:705-729 | live blocks do not overlap |
| Palloc.SlotThirtyOneOverlaps | skiplang/prelude/runtime/palloc.c:705-721 | after a block of slot 31 the tail begins inside a block that was handed out before |
| Utf8.EncodedSize | skiplang/prelude/runtime/string.c:88-104 | the sizing loop computes the length of the encoding, and refuses a code beyond Unicode |
| Utf8.FromChars | skiplang/prelude/runtime/string.c:82-140 | writes the encoding of all codes, exactly when all are below 0x110000 |
| Utf8.WriteCode | skiplang/prelude/runtime/string.c:109-136 | the bytes of one code point |
| Utf8.DecodesEncoded | skiplang/prelude/runtime/string.c:109-136 | the reference decoder reads back a scalar value and refuses half a surrogate |
| Utf8.DecodeInvertsEncode | skiplang/prelude/runtime/string.c:82-140 | decoding gives the code points back exactly when all are scalar values, and nothing otherwise |
| Utf8.EncodeInvertsDecode | skiplang/prelude/runtime/string.c:82-140 | well-formed bytes are the encoding of what they decode to |
| Utf8.PutCode | skiplang/prelude/ts/wasm/src/sk_types.ts:375-397 | the shifts and masks write the same bytes as the divisions and remainders |
| Utf8.ShiftArith | skiplang/prelude/ts/wasm/src/sk_types.ts:381-396 | each byte, computed either way |
| Utf8.ExportString | skiplang/prelude/ts/wasm/src/sk_types.ts:371-401 | writes the encoding of the code points within the room of four bytes a unit, and fails on the first high half that is not followed by a low one |
| Utf8.AcceptedExactly | skiplang/prelude/ts/wasm/src/sk_types.ts:375-397 | a string is accepted exactly when no high half stands without a low one behind it |
| Utf8.RefusedAt | skiplang/prelude/ts/wasm/src/sk_types.ts:375-397 | otherwise the first high half that does is what is reported |
| Utf8.PointsLossless | skiplang/prelude/ts/wasm/src/sk_types.ts:375-397 | an accepted string stands for exactly its units |
| Utf8.PointsOfUnits | skiplang/prelude/ts/wasm/src/sk_types.ts:375-397 | well-formed UTF-16 gives its code points |
| Utf8.FitsBuffer | skiplang/prelude/ts/wasm/src/sk_types.ts:374 | at most three bytes a unit |
| Utf8.EncodersAgree | skiplang/prelude/ts/wasm/src/sk_types.ts:371-401 | on well-formed UTF-16 both encoders write the same bytes, which decode to the code points |
| Utf8.ExportValid | skiplang/prelude/ts/wasm/src/sk_types.ts:371-401 | an accepted string is exported as valid UTF-8 exactly when every low half in it follows a high half |
| MuxSafety.StreamCloseOk | sql/ts/src/skdb_orchestration.ts:1317-1331 | close() of a stream, with its frame, keeps the invariant of the endpoint |
| MuxSafety.StreamErrorOk | sql/ts/src/skdb_orchestration.ts:1333-1345 | error() of a stream keeps it |
| MuxSafety.StreamSendOk | sql/ts/src/skdb_orchestration.ts:1347-1356 | send() keeps it: no data after a close or reset |
| MuxSafety.OpenStreamOk | sql/ts/src/skdb_orchestration.ts:720-747 | a new stream has a fresh identifier and keeps it |
| MuxSafety.CloseSocketOk | sql/ts/src/skdb_orchestration.ts:749-779 | closing the socket keeps it, in whatever order the streams are closed |
| MuxSafety.ErrorSocketOk | sql/ts/src/skdb_orchestration.ts:781-810 | failing the socket keeps it |
| MuxSafety.SendAuthOk | sql/ts/src/skdb_orchestration.ts:1053-1073 | authentication and its repetition keep it |
| MuxSafety.OnSocketCloseOk | sql/ts/src/skdb_orchestration.ts:932-959 | the end of the websocket keeps it |
| MuxSafety.OnSocketErrorOk | sql/ts/src/skdb_orchestration.ts:961-979 | an error of the websocket keeps it |
| MuxSafety.FreshDataOk | sql/ts/src/skdb_orchestration.ts:1013-1025 | a new stream of the peer has missed no data |
| MuxSafety.ActiveDataOk | sql/ts/src/skdb_orchestration.ts:1025 | data of an active stream is delivered exactly once |
| MuxSafety.OnCloseMsgOk | sql/ts/src/skdb_orchestration.ts:1028-1034 | when a close frame fires onClose, all data of the stream was delivered |
| MuxSafety.OnResetMsgOk | sql/ts/src/skdb_orchestration.ts:1035-1040 | a reset ends the stream; only the client forgets it |
| MuxSafety.ReceiveOk | sql/server/core/src/main/kotlin/core/Mux.kt:529-629 | every arrival that the peer can cause keeps the invariant, in every state of the socket |
| MuxSafety.PhasePattern | sql/ts/src/skdb_orchestration.ts:1365-1411 | phases 0 to 2 of a callback history are data, then at most one close, then at most one error |
| MuxNetwork.StepOk | sql/ts/src/skdb_orchestration.ts:720-1073 | any step of either side keeps the invariant of the pair |
| MuxNetwork.RunOk | sql/ts/src/skdb_orchestration.ts:720-1073 | every reachable world satisfies it |
| MuxNetwork.PeerNamesMine | sql/ts/src/skdb_orchestration.ts:1013-1023 | what the peer sends about a stream of mine is about one that I opened |
| MuxNetwork.HandshakeKept | sql/server/core/src/main/kotlin/core/Mux.kt:533-556 | a server is authenticated only after the client has left its idle state |
| MuxNetwork.DeliveredInOrder | sql/ts/src/skdb_orchestration.ts:1400-1411 | in every run the delivered payloads are a prefix of those the peer put on the socket, and all of them once a close frame has fired onClose |
| MuxNetwork.SentReachesWire | sql/ts/src/skdb_orchestration.ts:1347-1356 | what is sent on a stream that is not closing or over is put on the socket behind all that went before |
| MuxNetwork.NothingHeldBack | sql/ts/src/skdb_orchestration.ts:1400-1411 | while a socket listens and the stream expects data, all that has arrived for it was delivered |
| MuxNetwork.AcceptedExactly | sql/ts/src/skdb_orchestration.ts:1000-1026 | one arrival: the stream is there afterwards exactly when it was before, or the identifier is the peer's and above the watermark |
| MuxNetwork.LateStreamLost | sql/server/core/src/main/kotlin/core/Mux.kt:601-622 | a run in which the server never gets a stream, because a stream that was opened later sent first |
| MuxAcceptance.OpensMeans | sql/ts/src/skdb_orchestration.ts:1012-1024 | the wire opens a stream exactly when its first data comes before any data of a higher identifier of the same side |
| MuxAcceptance.RunHeard | sql/ts/src/skdb_orchestration.ts:1000-1026 | in every run the streams of the peer and the watermark are what the wire says |
| MuxAcceptance.AcceptedFromWire | sql/ts/src/skdb_orchestration.ts:1000-1026 | in every run a socket has only streams that the wire opens, and exactly those while it is authenticated |
| MuxAcceptance.NeverAccepted | sql/server/core/src/main/kotlin/core/Mux.kt:601-622 | a stream whose first data comes after that of a higher one never comes to exist, whatever happens later |
| MuxNetwork.CloseFrameReported | sql/ts/src/skdb_orchestration.ts:1028-1034 | a close frame that reaches a listening socket fires onClose on a stream that expects data, and by then all is delivered |
| MuxNetwork.CallbacksInOrder | sql/ts/src/skdb_orchestration.ts:1365-1411 | in every run a stream's callbacks are data, then at most one close, then at most one error |
| MuxNetwork.FramesInOrder | sql/ts/src/skdb_orchestration.ts:887-928 | in every run a stream's frames are data, then at most one close or reset, and nothing follows the end of the socket |
| MuxNetwork.SocketErrorEndsAll | sql/ts/src/skdb_orchestration.ts:961-979 | in every run an error of the socket ends every stream that is not over, with one onError |
| MuxNetwork.StreamsPersist | sql/ts/src/skdb_orchestration.ts:720-747 | no later event replaces a stream, undoes a callback or revives a stream that is over, so that no identifier is used twice |
| MuxEvents.ResetReported | sql/ts/src/skdb_orchestration.ts:1035-1040 | in every run a reset for a stream that is not over fires one onError and ends it, and only a client forgets it; no other stream, and no frame, is touched |
| MuxEvents.ResetDropped | sql/ts/src/skdb_orchestration.ts:1035-1040 | a reset for a stream that is over or unknown changes nothing |
| MuxEvents.CloseEndsStream | sql/ts/src/skdb_orchestration.ts:1028-1034 | a close frame for a stream that expects data fires one onClose; the stream is over and forgotten exactly when its user had closed it |
| MuxEvents.DataHandedOn | sql/ts/src/skdb_orchestration.ts:1007-1027 | data for a stream that expects some is handed on to that stream alone |
| MuxEvents.PingAnswered | sql/server/core/src/main/kotlin/core/Mux.kt:988-1002 | an authenticated socket answers a ping with one pong, a closing one with none |
| MuxEvents.GoawayEndsAll | sql/ts/src/skdb_orchestration.ts:996-1000 | a goaway of the peer fires one onError with its code on every stream that is not over |
| MuxEvents.FinReported | sql/ts/src/skdb_orchestration.ts:932-959 | the end of the websocket fires one onClose on exactly the streams that still expect data |
| MuxEvents.AuthTaken | sql/server/core/src/main/kotlin/core/Mux.kt:529-570 | an auth message authenticates the server when it verifies; otherwise every stream hears an error and the peer gets a goaway with the highest identifier |
| MuxEvents.StrangerRefused | sql/server/core/src/main/kotlin/core/Mux.kt:536-553 | a stream frame or a goaway ends a server that is not authenticated, in silence |
| MuxEvents.NothingHeard | sql/ts/src/skdb_orchestration.ts:981-1051 | the messages that have no effect, state by state |
| MuxEvents.OpensFresh | sql/ts/src/skdb_orchestration.ts:720-747 | an authenticated socket opens a stream whose identifier was never used, above all its own; any other opens none |
| MuxEvents.CloseSent | sql/ts/src/skdb_orchestration.ts:1317-1331 | close() of a stream that can send puts its close frame on the wire and moves the stream on |
| MuxEvents.ErrorSent | sql/ts/src/skdb_orchestration.ts:1333-1348 | error() of a stream that can send puts one reset on the wire and ends the stream |
| MuxEvents.ErrorAfterClose | sql/ts/src/skdb_orchestration.ts:1333-1348 | error() after close() ends the stream without a frame, and the socket keeps it |
| MuxEvents.CloseOnce | sql/ts/src/skdb_orchestration.ts:1317-1331 | a stream is closed once only |
| MuxEvents.SilentClose | sql/ts/src/skdb_orchestration.ts:887-902 | on a socket that cannot send close() only moves the stream on |
| MuxEvents.SilentError | sql/ts/src/skdb_orchestration.ts:904-916 | on a socket that cannot send error() only ends the stream |
| MuxEvents.SendLost | sql/ts/src/skdb_orchestration.ts:918-930 | what is sent on such a socket, or on a stream that is closing or over, is lost |
| MuxEvents.ClientSpeaks | sql/ts/src/skdb_orchestration.ts:1053-1080 | which frames sendAuth and a ping put on the wire, and when |
| MuxEvents.SocketCloseSent | sql/ts/src/skdb_orchestration.ts:749-779 | closing a socket puts one close frame on the wire for each stream that can still send, and then the end of the websocket; no callback fires |
| MuxEvents.IdleCloseSent | sql/ts/src/skdb_orchestration.ts:749-779 | closing a socket that was never authenticated only ends the websocket |
| MuxEvents.SocketErrorSent | sql/ts/src/skdb_orchestration.ts:781-810 | failing a socket in use fires one onError on every stream that is not over and sends a goaway with the highest identifier, then the end; one not in use falls silent |
| MuxEvents.HighestKnown | sql/ts/src/skdb_orchestration.ts:801-804 | in every run lastStream is the highest identifier of all streams, 0 when there were none |
| MuxSocket.Socket.CloseStreams | sql/ts/src/skdb_orchestration.ts:764-766 | closes a copy of the active streams, each once, in some order, while they leave the map; the endpoint is what closing them in that order makes of it |
| MuxSocket.Socket.CloseActiveStreams | sql/ts/src/skdb_orchestration.ts:939-941 | every active stream object is told once, no other changes |
| MuxSocket.Socket.ErrorActiveStreams | sql/ts/src/skdb_orchestration.ts:969-971 | every active stream object is told once, no other changes |
| MuxSocket.Socket.Adopt | sql/ts/src/skdb_orchestration.ts:1017-1020 | a new stream object that knows its socket joins the active ones, all others keep their identity |
| MuxNetwork.CloseEachSnoc | sql/ts/src/skdb_orchestration.ts:764-766 | closing one stream more at the end |
| MuxSocket.VisitNext | sql/ts/src/skdb_orchestration.ts:764-766 | an order that visits each stream once, one further |
| MuxSocket.StreamObject.constructor | sql/ts/src/skdb_orchestration.ts:1360-1363 | an open stream without callbacks; in place |
| MuxSocket.StreamObject.OnClose | sql/ts/src/skdb_orchestration.ts:1365-1384 | the automaton's step and its result; in place |
| MuxSocket.StreamObject.OnError | sql/ts/src/skdb_orchestration.ts:1386-1398 | the automaton's step; in place |
| MuxSocket.StreamObject.OnData | sql/ts/src/skdb_orchestration.ts:1400-1411 | the automaton's step; in place |
| MuxSocket.StreamObject.Close | sql/ts/src/skdb_orchestration.ts:1317-1331 | stream and socket take the automaton's step; in place |
| MuxSocket.StreamObject.Error | sql/ts/src/skdb_orchestration.ts:1333-1345 | stream and socket take the automaton's step; in place |
| MuxSocket.StreamObject.Send | sql/ts/src/skdb_orchestration.ts:1347-1356 | stream and socket take the automaton's step; in place |
| MuxSocket.Socket.OpenStream | sql/ts/src/skdb_orchestration.ts:720-747 | a new active stream object when authenticated, none otherwise; in place |
| MuxSocket.Socket.SendStreamClose | sql/ts/src/skdb_orchestration.ts:887-902 | frame and forgetting, in the states that may send; in place |
| MuxSocket.Socket.SendStreamError | sql/ts/src/skdb_orchestration.ts:904-916 | frame and forgetting, in the states that may send; in place |
| MuxSocket.Socket.SendStreamData | sql/ts/src/skdb_orchestration.ts:918-928 | frame, in the states that may send; in place |
| MuxSocket.Socket.CloseSocket | sql/ts/src/skdb_orchestration.ts:749-779 | the automaton's step, for some order of the active streams; in place |
| MuxSocket.Socket.ErrorSocket | sql/ts/src/skdb_orchestration.ts:781-810 | the automaton's step for client and server; in place |
| MuxSocket.Socket.SendAuth | sql/ts/src/skdb_orchestration.ts:1053-1073 | the automaton's step; in place |
| MuxSocket.Socket.PingSocket | sql/ts/src/skdb_orchestration.ts:812-832 | the automaton's step; in place |
| MuxSocket.Socket.OnSocketClose | sql/ts/src/skdb_orchestration.ts:932-959 | the automaton's step; in place |
| MuxSocket.Socket.OnSocketError | sql/ts/src/skdb_orchestration.ts:961-979 | the automaton's step; in place |
| MuxSocket.Socket.OnDataMsg | sql/ts/src/skdb_orchestration.ts:1000-1026 | the automaton's step: pass on, accept a new stream, or drop; in place |
| MuxSocket.Socket.OnCloseMsg | sql/server/core/src/main/kotlin/core/Mux.kt:576-587 | the automaton's step; in place |
| MuxSocket.Socket.OnResetMsg | sql/server/core/src/main/kotlin/core/Mux.kt:572-575 | the automaton's step, the server keeping the stream; in place |
| MuxSocket.Socket.OnSocketMessage | sql/server/core/src/main/kotlin/core/Mux.kt:529-629 | the automaton's step in every state, for either role; in place |
| ProtoCodec.RoundTrip | sql/server/core/src/main/kotlin/core/Orchestration.kt:78-168 | the server decodes what the client encoded exactly when the message keeps within the bounds of the wire format |
| ProtoCodec.DecodedFits | sql/server/core/src/main/kotlin/core/Orchestration.kt:78-168 | a decoded text is shorter than 2^15 bytes |
| ProtoErrors.CutShort | sql/server/core/src/main/kotlin/core/Orchestration.kt:78-168 | a message that was cut short is accepted exactly when all that the server needs of it is there, and otherwise runs out of bytes |
| ProtoErrors.SpareIgnored | sql/server/core/src/main/kotlin/core/Orchestration.kt:78-168 | messages that differ only in bits without a meaning are read alike, or refused alike |
| ProtoErrors.QueryRefused | sql/server/core/src/main/kotlin/core/Orchestration.kt:86-96 | a query with an unknown format, beyond the bound or of negative length is refused with the right error |
| ProtoErrors.SchemaRefused | sql/server/core/src/main/kotlin/core/Orchestration.kt:124-125 | a schema query with an unknown scope is refused |
| ProtoErrors.OtherInBatch | sql/server/core/src/main/kotlin/core/Orchestration.kt:152-165 | a batch is refused when a message of another type stands where a request is due |
| ProtoErrors.UnknownRefused | sql/server/core/src/main/kotlin/core/Orchestration.kt:166-168 | a message of an unknown type is refused |
| ProtoCodec.AtTails | sql/server/core/src/main/kotlin/core/Orchestration.kt:152-165 | a batch of any length is read back request by request |
| ProtoCodec.AtTail | sql/server/core/src/main/kotlin/core/Orchestration.kt:97-116 | a tail request is read back wherever it stands in the buffer |
| ProtoCodec.AtSchema | sql/server/core/src/main/kotlin/core/Orchestration.kt:124-142 | a schema query is read back; without a name the suffix is not |
| ProtoWire.DecodeProtoMsg | sql/server/core/src/main/kotlin/core/Orchestration.kt:78-168 | the decoder computes the specified message or error and leaves the buffer behind it |
| ProtoWire.DecodeRequests | sql/server/core/src/main/kotlin/core/Orchestration.kt:156-163 | the loop over a batch; a negative count gives none |
| ProtoWire.DecodeBatchMsg | sql/server/core/src/main/kotlin/core/Orchestration.kt:152-165 | a batch, the count read as a signed number |
| ProtoWire.DecodeTailMsg | sql/server/core/src/main/kotlin/core/Orchestration.kt:97-116 | a tail request |
| ProtoWire.DecodeQueryMsg | sql/server/core/src/main/kotlin/core/Orchestration.kt:86-96 | a query, refused when it is too long or its format is unknown |
| ProtoWire.DecodeSchemaMsg | sql/server/core/src/main/kotlin/core/Orchestration.kt:124-142 | a schema query |
| ProtoWire.ByteBuffer.ShortText | sql/server/core/src/main/kotlin/core/Orchestration.kt:100-102 | a text with a signed length; the position moves on |
| ProtoClient.EncodeQueryMsg | sql/ts/src/skdb_orchestration.ts:85-107 | fills and cuts the buffer to the encoding, within bounds |
| ProtoClient.EncodeSchemaMsg | sql/ts/src/skdb_orchestration.ts:108-136 | fills and cuts the buffer to the encoding, within bounds |
| ProtoClient.EncodeTailMsg | sql/ts/src/skdb_orchestration.ts:137-183 | fills and cuts the buffer to the encoding, within bounds |
| ProtoClient.EncodeTailBatchMsg | sql/ts/src/skdb_orchestration.ts:184-198 | the requests one after the other behind their number |
| ProtoClient.FillBatch | sql/ts/src/skdb_orchestration.ts:187-197 | the copy loop fills the buffer exactly |
| ProtoClient.EncodePushPromiseMsg | sql/ts/src/skdb_orchestration.ts:199-212 | fills and cuts the buffer to the encoding, within bounds |
| ProtoClient.EncodeCreateDatabaseMsg | sql/ts/src/skdb_orchestration.ts:213-225 | fills and cuts the buffer to the encoding, within bounds |
| ProtoClient.EncodeCreateUserMsg | sql/ts/src/skdb_orchestration.ts:226-231 | one byte |
| ProtoClient.EncodeDataMsg | sql/ts/src/skdb_orchestration.ts:235-244 | the payload as a single chunk with the fin flag |
| FrameCodec.ServerRoundTrip | sql/server/core/src/main/kotlin/core/Mux.kt:924-1002 | a frame reaches the server intact exactly when its lengths are positive as signed numbers, an access key has no zero byte, and key, device, date and version are ASCII |
| FrameCodec.ClientRoundTrip | sql/ts/src/skdb_orchestration.ts:1210-1295 | a frame of the server reaches the client intact exactly when code and length have 32 bits and the text has no leading byte order mark |
| FrameCodec.DecodersAgree | sql/server/core/src/main/kotlin/core/Mux.kt:924-1002 | the decoders of server and client agree on any bytes: the same frame, but for a byte order mark and the upper byte of the last stream, and the same refusals |
| FrameCodec.OddFrames | sql/server/core/src/main/kotlin/core/Mux.kt:924-1002 | which frames the server refuses for their type or stream, and exactly which ones the client ignores |
| FrameCodec.LongTextRefused | sql/server/core/src/main/kotlin/core/Mux.kt:962-986 | a text of 2^31 bytes or more is refused by the server |
| FrameCodec.AuthArrives | sql/server/core/src/main/kotlin/core/Mux.kt:931-960 | an auth frame reaches the server intact exactly within the server's bounds |
| FrameCodec.AuthReads | sql/server/core/src/main/kotlin/core/Mux.kt:931-960 | what the server reads of an auth frame: fields in their places, letters outside ASCII replaced; from a version of 128 bytes on it fails |
| FrameCodec.AsciiKeeps | sql/server/core/src/main/kotlin/core/Mux.kt:941-958 | reading bytes as ASCII gives them back exactly when all are below 128 |
| FrameCodec.LostInReading | sql/server/core/src/main/kotlin/core/Mux.kt:938-946 | an access key with one letter outside ASCII, and a reset text that starts with a byte order mark, do not arrive though their lengths fit |
| ChunkDecoder.Decoder.PopBufs | sql/ts/src/skdb_orchestration.ts:252-276 | the collected chunks in one buffer |
| ChunkDecoder.Decoder.Push | sql/ts/src/skdb_orchestration.ts:283-324 | the specified step: credentials, a chunk, a finished payload or an unknown message, of which the lemmas below say what they yield |
| ChunkDecoder.Decoder.TryPop | sql/ts/src/skdb_orchestration.ts:340-346 | takes the last message |
| ChunkDecoder.ChunksReassembled | sql/ts/src/skdb_orchestration.ts:306-318 | the chunks of a payload are turned into the payload |
| ChunkDecoder.AnyChunking | sql/ts/src/skdb_orchestration.ts:306-318 | payloads cut in any way arrive whole and in order |
| ChunkDecoder.CredentialsRead | sql/ts/src/skdb_orchestration.ts:288-305 | credentials yield the key up to its first zero, whatever stands behind it, and the private key; pending chunks are kept |
| ChunkDecoder.CredentialsForm | sql/ts/src/skdb_orchestration.ts:288-305 | every credentials frame that is long enough is a key, a filling that starts with a zero, a private key and a rest that is not looked at |
| ChunkDecoder.FlagsIgnored | sql/ts/src/skdb_orchestration.ts:307-309 | of the flags of a chunk only the lowest bit matters |
| ChunkDecoder.UnknownNoted | sql/ts/src/skdb_orchestration.ts:319-322 | a message of another type is noted as one that is not understood |

## Left out

- Memory mapping, files, locks and threads: every operation is atomic. `SKIP_resolve_context` is a parameter: any obstack and value.
- Where malloc and the allocator put a block is any unused address, in `Runtime` and `Copying`; running out of memory, which ends the program, is modelled in `Palloc` only. Multiplications in sizes do not overflow.
- `Runtime` and `Copying` keep their worklists as sequences; `WorkStack` shows that the growable stacks behave like them. They know the pages an address lies in; `PageStack.Obstack.GetPages` shows that the table tells.
- `Copying` takes as given which addresses lie in the pages of the region and which of them are alone on a large page; a second visit to such a page is then a visit outside the table, as `PageTable.FindsAfterEmptying` shows.
- Scanning.ScanForCopy: elements of more than 32 words, whose masks the loops do not read right in general, are not in the type `Mask`; the same goes for Runtime.ScanForFree, Comparing.CompareObjects and Hashing.HashCell.
- Runtime.Runtime.Valid: says nothing of references from the obstack into the persistent heap, which the runtime does not count either.
- Runtime.Runtime.FreeObj: the destructor of an external pointer is a static word; its call is recorded, not run, and the check of its magic number is left out.
- Comparing.IsEq: objects have no padding bytes; with padding, equal values may be told apart, as the comment in native_eq.c says.
- Hashing.Hash: is stated for any table of 256 words, of which crc64table is one (`TableIsRight`). Addresses are at least 64, as smaller words are hashed as numbers.
- HashTable.Table.Add: asks for a key that is not zero, a value that is not the tombstone, and a table of at least four slots.
- PageStack.Obstack.DestroyObstack: closes the innermost bracket, or all; the 32-bit list of free pages is not modelled, nor the relinking of large pages that survive their region, whose order is not claimed.
- PageStack.Obstack.Alloc: a large block needs a page to be linked below, as the code dereferences it.
- Palloc.PersistentHeap.Alloc: promises a sound heap up to slot 30 only, as the code does; the heap ends below 2^64 - 2^30. Beyond slot 31 the shift count is taken modulo 32, as processors do.
- SizeClasses.CellDeterminesSize: holds of all sizes; on 32 bits those above 2^31 do not exist.
- The 32-bit allocator's free lists have the same shape as those of `Palloc`; only its size classes are modelled.
- MuxSocket.Socket.OnSocketMessage: leaves out the server's session timeout inside the handler (Mux.kt:559-566), a client that runs the server's class, and text messages.
- Callbacks are recorded and do not call back into the socket; `sendAuth` is one step although the code awaits a signature; `openStream` of an idle client, which the code retries, opens none. Health-check timers, reconnection and the verification of signatures are left out: its outcome is any.
- The mux model does not reach stream identifiers of 2^24, where encoding throws.
- Text is given by its UTF-8 bytes, which are well-formed since they come from strings, and JSON is opaque. The encoders and decoders of mux frames are functions, where the code advances a cursor; the order of reading is what the functions follow.
- FrameCodec.ServerRoundTrip: the HMAC signature and the nonce are any bytes of their lengths.
- Kotlin's own encoders of tail, schema and push promise messages, which do not match its decoder, and the wire format of credentials.
- ChunkDecoder.Decoder.Push: a frame too short for its type makes the view throw; the model asks for long enough frames.
- `SKIP_switch_to_parent`, garbage-collection heuristics, dirty pages, floats, the Skip-language engine, the REST servers, the Postgres adapter and the user interfaces: they would add easy members, or lie outside these invariants.
