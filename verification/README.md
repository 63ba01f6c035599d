# Verification of the buddy allocator, the hash table, the FSM engine, the sleeping barber and the echo service

This project models five parts of the repository and proves what they are for.

* **The buddy memory allocator** (`hello/eleutheria/buddy`). `MPool` is a class over an array of block headers,
  indexed by address, and the block lists, which are linked through the headers. `Alloc` and `Free` are the
  split loop and the coalescing loop in place. A ghost binary tree, which the program never builds, says what
  headers and lists have to agree on; everything else follows from it: when a request fails, what the two flag
  bits mean, that the blocks tile the pool, that freeing undoes allocating, that the history of the pool leaves
  no trace, and what is written, every assignment being recorded: flags, sizes and pointers only inside the
  block at hand, links only in headers of live blocks, and so never a byte that a user has been given.
  `BuddyStats` walks the lists as the statistics do, and `BuddySim` is the lifetime simulation of `test4.c` on
  top of it.
* **The chained hash table** (`hello/eleutheria/genstructs/htable`). The class `Table` moves entries between
  chains as the program does and refines a finite map; the cost of all grows is accounted for exactly, and
  the iterator's order is given exactly, including what it does not show.
* **The FSM engine** (`hello/eleutheria/fsm`). Priority queues as in-place queues, refined to one sequence of
  arrivals; reachability marks as the program sets them, compared with reachability along paths; the tables
  as instances of the hash table, whose nodes share the keys of the states.
* **The sleeping barber** (`hello/eleutheria/pthreads/sleepbarber.c`). A transition system for any number of
  customers and seats, with `freeseats++` and `freeseats--` taken apart into a load and a store.
* **The echo service** (`hello/iocp1`). The worker's handling of one context and the client's two loops as
  imperative code, and one connection as a transition system of client, kernel and worker steps.

## Modules

| file | contents |
|---|---|
| `Options.dfy`, `Powers.dfy` | an option type; powers of two, products and quotients |
| `BuddyTree.dfy` | the tree of blocks: addresses, buddies, one split, one merge, and the same on a map of blocks |
| `BuddyTheory.dfy` | carving and releasing, the canonical form, when a request fits, flag bits, counting |
| `BuddyLists.dfy` | the block lists, step by step and in closed form; best fit |
| `BuddyLinks.dfy` | `LIST_HEAD` and `LIST_ENTRY`: the class `BlockTable` of linked lists, refining sequences |
| `BuddyHeaders.dfy` | `mpool.h`: headers and flag bits; the size of a request |
| `BuddySteps.dfy` | one state of a pool after another: what is written, and the invariants of both loops |
| `BuddyPool.dfy` | `mpool.c`: the class `MPool` |
| `BuddyPromises.dfy` | what a user of a pool may rely on |
| `BuddyStats.dfy` | `mstat.c` |
| `BuddySim.dfy` | `test4.c` |
| `Chains.dfy`, `HTable.dfy` | `htable.c`: chains as values, and the class `Table` |
| `FsmGraph.dfy` | states, transitions, reachability and marking passes |
| `Fsm.dfy` | `fsm.c`: event queues, processing, marking |
| `FsmKeys.dfy` | what giving a state another key does to the table that the state stands in |
| `FsmTables.dfy` | `states.c` and the state table, built with `Table` |
| `FsmWitnesses.dfy` | machines and tables, built by the program's operations, on which it does less than one would expect |
| `Barber.dfy` | `sleepbarber.c` |
| `EchoServer.dfy`, `EchoProtocol.dfy` | the echo server's worker and the client; one connection |

## Conventions

* Addresses are offsets from the start of the pool. `overhead` is `sizeof(blknode_t)` and `wordBits` the width
  of `size_t`; both are parameters. `1 << n` is the exact power of two. The sum of the request and the header
  wraps modulo `2^wordBits`, as it does in C: `RoomIffNoOverflow` says exactly when that matters.
* `Valid()` of `MPool` holds after `mpool_init` and is kept by every operation, so a lemma about a valid pool
  is a lemma about every reachable one.
* `tree` and `blocks` of `MPool`, `lists` of `BlockTable`, `model` of `Table` and `pending`, `arrivals` and
  `dispatched` of `Machine` are ghost fields: they say what the real fields mean, and every `ensures` about them
  is about these too. `posts` of the barber's `State`, and `inserts` and `moved` of `Table`, count what happens.
* `written` of `MPool` and of `BlockTable` are ghost fields, too: they record the address of every assignment to
  `mem` and to `links`, also of one that changes nothing. What is written is stated on them.
* `Sound()` of `Table` says that size, limit and counter are right, whatever the chains hold; `Valid()` says that
  the chains also represent `model`. The operations are specified on all sound tables, so also on a state table
  in which a node stands in the wrong chain.
* A node of the state table holds the address of the key of its state. The model's node has the key itself, and
  `WriteKey`, the assignment `*pstate->st_key = key`, changes it in all nodes of the state at once.
* Exits that the program takes on impossible conditions ("buddy out of pool", "wrong LR relation",
  "no available block" of the simulation) are branches proved dead by `assert false`.
* Comments in the code give the name of the function or macro that a member models.

## What the code does not do

* `mpool_init(25, 5)` of `test4.c` is refused when a header takes 32 bytes or more (`Simulate`); on a machine
  with 64-bit pointers it takes 40. Where it is accepted, no request of the simulation can fail.
* A request so large that adding the header overflows `size_t` is served with a block that is too small
  (`OverflowServed`); a block has room exactly when there is no overflow (`RoomIffNoOverflow`).
* `htable_get_next_elm` leaves the last chain after its first entry (`ShortEnumeration`); it shows everything
  exactly when the last chain has at most one entry (`EnumerationLists`). So marking by iteration can miss
  transitions however often it is repeated (`HiddenTransitionMissed`, on the machine that `BuildCrowded`
  builds). It is right, from whatever states, exactly when every state in the table reaches all its successors
  along transitions that the iterator shows, which is a property of the tables (`MarkingRightIff`).
* One call of `fsm_mark_reachable_states` does not mark everything that is reachable (`OnePassMisses`, on the
  machine that `BuildBackwards` builds), although the comment at `hello/eleutheria/fsm/fsm.c:131-132` says that
  the flags are always in accordance with reality. It marks what can be walked to with all sources in the order
  of the table (`PassMarks`), and is exact, from whatever states, exactly when everything that takes two
  transitions can also be reached in that order (`OnePassAlwaysExactIff`). As many calls as there are states
  always mark all that the iterator lets them reach (`PassesExact`).
* `fsm_add_state` writes the key before it asks whether the key is taken, and the node that a state already has in
  the table gets the new key without changing its chain (`AddState`). A state that is given another key is never
  found under its old one again. The new key is reported as taken if it is, or if the node of the state itself
  stands in its chain. The table stays right, with every node in the chain of its key and no key twice, exactly
  when the state is new, or keeps its key, or the new key is free and belongs into the same chain
  (`FsmKeys.PlacedIff`). So a state can be renamed although the call reports an error (`Renamed`), stand in the
  table twice although it reports success (`Doubled`), or not be found under any key (`KeyLost`).
* `fsm_process_event` looks up the key of the target, not the target. A state that is not in the table, but has the
  key of one that is, can be entered, and marking neither follows its transitions nor marks where they lead
  (`StrangerEntered`). Where every state whose key is found stands in the table itself, the machine goes only to
  reachable states (`RunReaches`), and to all of them if nothing else stops it (`ReachIffRun`).
* The client compares the first byte and the last of what comes back (`AckExactIff`). That no wrong echo goes
  unnoticed is due to the server and the connection (`EchoIsRight`), not to this test.

## Model

| member | source | states |
|---|---|---|
| `BuddyTree.BuddyIsLive` | hello/eleutheria/buddy/mpool.c:259-279 | the address a block computes for its buddy lies in the pool and is the start of a live block, which is no larger, and has the opposite LR bit if it is equally large |
| `BuddyTree.MergeableDown` | hello/eleutheria/buddy/mpool.c:256-279 | a left block and an equally large block right behind it are the two halves of one split, never two unrelated neighbours |
| `BuddyTree.SplitAt` | hello/eleutheria/buddy/mpool.c:162-204 | splitting a block changes nothing but this block: its two halves take its LR bit and its PARENT bit as their PARENT bits |
| `BuddyTree.MergeAt` | hello/eleutheria/buddy/mpool.c:295-352 | merging recovers both flag bits of the block that was once split, from the PARENT bits of its halves, and changes no other block |
| `BuddyTheory.CarveAfterSplit` | hello/eleutheria/buddy/mpool.c:136-206 | one turn of the split loop does not change what the loop ends with |
| `BuddyTheory.ReleaseAfterMerge` | hello/eleutheria/buddy/mpool.c:248-357 | one turn of the coalescing loop does not change what the loop ends with |
| `BuddyTheory.ReleaseExact` | hello/eleutheria/buddy/mpool.c:281-291 | when no merge is possible, marking the block available completes its release |
| `BuddyTheory.ReleaseCarve` | hello/eleutheria/buddy/mpool.c:153-206 | releasing a block that was carved out of a coalesced pool gives the same pool back, for every pool, block and size |
| `BuddyTheory.Canonical` | hello/eleutheria/buddy/mpool.c:292-357 | two coalesced pools with the same blocks in use are equal |
| `BuddyTheory.AllocAddsOne` | hello/eleutheria/buddy/mpool.c:136-206 | an allocation puts exactly one more block into use, of the right size, and keeps all others |
| `BuddyTheory.FreeRemovesOne` | hello/eleutheria/buddy/mpool.c:248-357 | freeing takes exactly one block out of use and keeps all others |
| `BuddyTheory.FreeWindowFits` | hello/eleutheria/buddy/mpool.c:292-357 | because everything is coalesced, an aligned window without used blocks lies inside one available block |
| `BuddyTheory.ServableIffFreeWindow` | hello/eleutheria/buddy/mpool.c:112-133 | a large enough available block exists if and only if some aligned window of that size holds no byte of a used block |
| `BuddyTheory.FullMeansSpoiled` | hello/eleutheria/buddy/mpool.c:112-133 | in a pool that cannot serve a size, the used blocks spoil at least as many aligned windows of that size as there are |
| `BuddyTheory.SpoiledIsCount` | hello/eleutheria/buddy/mpool.c:112-133 | used blocks no larger than a window spoil one window each |
| `BuddyTheory.AtAligned` | hello/eleutheria/buddy/mpool.c:176-201 | by induction over all splits: a block starts at a multiple of its size, its LR bit is the parity of that multiple, its PARENT bit a function of it |
| `BuddyTheory.BytesConserved` | hello/eleutheria/buddy/mstat.c:23-40 | available and used bytes add up to the size of the pool, whatever the blocks are |
| `BuddyTheory.CarveBytes` | hello/eleutheria/buddy/mpool.c:136-206 | an allocation moves exactly 2^k bytes from available to used, however many splits it takes |
| `BuddyTheory.ReleaseBytes` | hello/eleutheria/buddy/mpool.c:248-357 | freeing moves exactly the bytes of the block back, however many merges it takes |
| `BuddyLists.ListedSplit` | hello/eleutheria/buddy/mpool.c:167-203 | after a split every block is again exactly once on the list for its size, and nothing else is |
| `BuddyLists.ListedMerge` | hello/eleutheria/buddy/mpool.c:301-352 | after a merge every block is again exactly once on the list for its size, and nothing else is |
| `BuddyLists.CarveListsClosed` | hello/eleutheria/buddy/mpool.c:167-203 | what all splits of one allocation do to each list, in order, in one step |
| `BuddyLists.FreedStep` | hello/eleutheria/buddy/mpool.c:301-352 | what all merges of one free do to each list: the blocks swallowed are gone, the rest keep their order, the merged block is at the head |
| `BuddyHeaders.MarkAvail` | hello/eleutheria/buddy/mpool.h:29-37 | sets or clears availability and leaves all other bits alone |
| `BuddyHeaders.MarkRight` | hello/eleutheria/buddy/mpool.h:31-39 | sets or clears LR and leaves all other bits alone |
| `BuddyHeaders.MarkParent` | hello/eleutheria/buddy/mpool.h:33-40 | sets or clears PARENT and leaves all other bits alone |
| `BuddyHeaders.BlockInit` | hello/eleutheria/buddy/mpool.h:48-71 | all three flag bits, size and pointer are as asked for, whatever the memory held before |
| `BuddyHeaders.LogFromLeast` | hello/eleutheria/buddy/mpool.c:143-155 | the log size at which splitting stops is the least one from minlogsize on that holds the request |
| `BuddyHeaders.StopsAtLeast` | hello/eleutheria/buddy/mpool.c:143-155 | the three-way test of the split loop is true exactly at the log size the request is rounded to |
| `BuddyHeaders.CandidateFits` | hello/eleutheria/buddy/mpool.c:107-127 | having an available block of enough bytes is the same as having one of at least the rounded log size |
| `BuddyLinks.TableWithout` | hello/eleutheria/buddy/mpool.c:301-305 | the writes of LIST_REMOVE take one block out of its chain, keep all other chains, and change links only in headers on that list |
| `BuddyLinks.TableCons` | hello/eleutheria/buddy/mpool.c:184-187 | the writes of LIST_INSERT_HEAD put one block at the head of a chain, keep all other chains, and change links only in its header and that of the old head |
| `BuddyLinks.BlockTable.constructor` | hello/eleutheria/buddy/mpool.c:55-65 | the lists are empty |
| `BuddyLinks.BlockTable.FirstOf` | hello/eleutheria/buddy/mpool.c:115-116 | following the list head is the first element of the list |
| `BuddyLinks.BlockTable.NextOf` | hello/eleutheria/buddy/mpool.c:118-123 | following a link is the next element of the list |
| `BuddyLinks.BlockTable.Remove` | hello/eleutheria/buddy/mpool.c:167-169 | in place, the list loses exactly this block, and all addresses written, also where nothing changes, are those of live headers |
| `BuddyLinks.BlockTable.InsertHead` | hello/eleutheria/buddy/mpool.c:184-187 | in place, the list gets this block at its head, and all addresses written, also where nothing changes, are those of live headers |
| `BuddySteps.HeadersSparePayloads` | hello/eleutheria/buddy/mpool.c:136-206 | if every recorded write, links included, and with whatever value, goes to the header of a live block, no byte that any user has been given is written |
| `BuddySteps.MarkKeepsShape` | hello/eleutheria/buddy/mpool.h:29-30 | tree, headers, lists and counters still agree after a block is marked |
| `BuddySteps.SplitKeepsShape` | hello/eleutheria/buddy/mpool.c:162-204 | tree, headers, lists and counters still agree after a split |
| `BuddySteps.MergeKeepsShape` | hello/eleutheria/buddy/mpool.c:295-352 | tree, headers, lists and counters still agree after a merge |
| `BuddySteps.CarvingStep` | hello/eleutheria/buddy/mpool.c:162-206 | one turn of the split loop keeps its invariant, the write frame included |
| `BuddySteps.CarvingEnds` | hello/eleutheria/buddy/mpool.c:153-160 | marking the block used at the end of the split loop gives the pool with one block carved out and nothing else changed |
| `BuddySteps.FreeingStep` | hello/eleutheria/buddy/mpool.c:295-357 | one turn of the coalescing loop keeps its invariant, the write frame included |
| `BuddySteps.FreeingEnds` | hello/eleutheria/buddy/mpool.c:281-291 | marking the block available at the end of the coalescing loop gives the pool with one block released and nothing else changed |
| `BuddyPool.MPool.constructor` | hello/eleutheria/buddy/mpool.c:32-84 | a new pool is valid and is one available block of the full size |
| `BuddyPool.MPool.Init` | hello/eleutheria/buddy/mpool.c:17-84 | exactly which sizes are refused and with which error; otherwise a valid pool |
| `BuddyPool.MPool.BlockBounds` | hello/eleutheria/buddy/mpool.h:73-90 | the header of every live block lies in the pool, inside its own block, and is what the tree says |
| `BuddyPool.MPool.FindBest` | hello/eleutheria/buddy/mpool.c:107-133 | finds a block that no smaller available block could replace, the first such one on its list, or there is none at all |
| `BuddyPool.MPool.FirstAvailable` | hello/eleutheria/buddy/mpool.c:115-125 | the first available block of one list, if its blocks are large enough |
| `BuddyPool.MPool.SplitBlock` | hello/eleutheria/buddy/mpool.c:162-204 | one split keeps headers, links, lists and counters in agreement; two headers get new flags and sizes, and links change only in headers of live blocks |
| `BuddyPool.MPool.SplitHeader` | hello/eleutheria/buddy/mpool.c:162-203 | the two headers, the two linked lists and the counter after one split |
| `BuddyPool.MPool.ShrinkLeft` | hello/eleutheria/buddy/mpool.c:167-187 | the left half: out of the old list, smaller, its LR bit moved to PARENT, at the head of the next list |
| `BuddyPool.MPool.AddRight` | hello/eleutheria/buddy/mpool.c:195-203 | the right half: a new header with the old PARENT bit, at the head of the same list |
| `BuddyPool.MPool.Alloc` | hello/eleutheria/buddy/mpool.c:86-208 | fails if and only if no aligned window of the rounded size is free of used blocks, and then changes nothing; otherwise takes the best fit, hands out a block of exactly the rounded log size, and says what tree, lists and counters become; flags, sizes and pointers are written only inside the block taken, links only in headers of live blocks, and no byte that any user has been given |
| `BuddyPool.MPool.RequestLogLeast` | hello/eleutheria/buddy/mpool.c:101-155 | the block that a request gets is the smallest one with room for header and request; if adding the two overflows, it is the smallest block there is |
| `BuddyPool.MPool.CarveBlock` | hello/eleutheria/buddy/mpool.c:136-206 | the split loop ends with the block of exactly the rounded log size in use, as many splits later as sizes were passed, with the whole write frame |
| `BuddyPool.MPool.CarveStep` | hello/eleutheria/buddy/mpool.c:162-206 | one turn of the split loop, in place, keeps the invariant of the loop |
| `BuddyPool.MPool.HandOut` | hello/eleutheria/buddy/mpool.c:153-160 | the block found is in use and is the only one that has changed its availability |
| `BuddyPool.MPool.MarkUsed` | hello/eleutheria/buddy/mpool.c:157-159 | takes one block into use and changes nothing else |
| `BuddyPool.MPool.MarkAvailable` | hello/eleutheria/buddy/mpool.c:285-291 | makes one block available and changes nothing else |
| `BuddyPool.MPool.Free` | hello/eleutheria/buddy/mpool.c:210-359 | the pool is valid and fully coalesced again, exactly one block has gone out of use, and tree, lists and headers are those of a complete release; flags, sizes and pointers are written only inside the resulting block, links only in headers of blocks, and no byte that any user has been given |
| `BuddyPool.MPool.FindBuddy` | hello/eleutheria/buddy/mpool.c:249-291 | reads only the header of a live block; a buddy is found exactly when the block can be merged; the exits for a buddy out of the pool are never taken |
| `BuddyPool.MPool.GrowBlock` | hello/eleutheria/buddy/mpool.c:295-357 | one turn of the coalescing loop, in place, keeps the invariant of the loop |
| `BuddyPool.MPool.MergeBlocks` | hello/eleutheria/buddy/mpool.c:295-352 | one merge keeps headers, links, lists and counters in agreement; one header gets new flags and size, and links change only in headers of live blocks |
| `BuddyPool.MPool.MergeHeaders` | hello/eleutheria/buddy/mpool.c:298-352 | the header, the two linked lists and the counter after one merge; the exit for a wrong LR relation is never taken |
| `BuddyPool.MPool.MergedHeader` | hello/eleutheria/buddy/mpool.c:309-345 | the header of the merged block gets its flags from both halves, and is the only one written |
| `BuddyPool.MPool.Finish` | hello/eleutheria/buddy/mpool.c:281-291 | ending the coalescing loop leaves a valid pool |
| `BuddyPromises.BlocksTile` | hello/eleutheria/buddy/mpool.c:184-203 | every byte of a reachable pool belongs to exactly one block |
| `BuddyPromises.BlockOnOneList` | hello/eleutheria/buddy/mpool.c:184-203 | every block is on the list for its size, once, and on no other |
| `BuddyPromises.FlagsTellPosition` | hello/eleutheria/buddy/mpool.c:308-335 | in every reachable pool the LR bit is the parity of offset / size, and the PARENT bit a function of the position |
| `BuddyPromises.NoAvailableBuddies` | hello/eleutheria/buddy/mpool.c:256-357 | no two available buddies of one size are left, and a buddy's address always starts a block |
| `BuddyPromises.UsedBlocksDeterminePool` | hello/eleutheria/buddy/mpool.c:292-357 | the blocks in use determine all other blocks, all sizes and all flags: the order of requests leaves no trace |
| `BuddyPromises.DrainedPool` | hello/eleutheria/buddy/mpool.c:292-357 | once all blocks are freed, in any order, the pool is one available block and there were as many merges as splits |
| `BuddyPromises.PayloadsIsolated` | hello/eleutheria/buddy/mpool.c:195-201 | payloads are disjoint from each other and from every live header |
| `BuddyPromises.GuaranteedService` | hello/eleutheria/buddy/mpool.c:113-159 | with fewer than 2^(maxlogsize-k) blocks in use, none larger than 2^k, a request of log size k is served |
| `BuddyPromises.ServiceMonotone` | hello/eleutheria/buddy/mpool.c:113-127 | a pool that serves a size serves every smaller one |
| `BuddyPromises.RoomIffNoOverflow` | hello/eleutheria/buddy/mpool.c:95-101 | the block has room for header and request if and only if their sum does not overflow |
| `BuddyPromises.OverflowRequest` | hello/eleutheria/buddy/mpool.c:101 | the largest request overflows and is rounded to the smallest size, in every pool |
| `BuddyPromises.OverflowServed` | hello/eleutheria/buddy/mpool.c:101-127 | a pool of 128 bytes serves a request of 2^32 - 1 bytes with a block of 32 |
| `BuddyPromises.AllocThenFree` | hello/eleutheria/buddy/mpool.c:86-359 | allocating and freeing again restores all blocks, sizes, availability and flags, with as many merges as splits |
| `BuddyStats.GetBytes` | hello/eleutheria/buddy/mstat.c:23-40 | the totals over all lists are those of the blocks, and add up to the size of the pool |
| `BuddyStats.GetNodes` | hello/eleutheria/buddy/mstat.c:4-21 | the counts are the numbers of available and of used blocks, and add up to 1 + nsplits - nmerges |
| `BuddyStats.GetBlockLength` | hello/eleutheria/buddy/mstat.c:47-60 | the number of blocks of one size, and 0 for a position that does not exist |
| `BuddySim.PlaceBounds` | hello/eleutheria/buddy/test4.c:118-128 | the place of a node in a sorted list is after all that live no longer and before all that live longer |
| `BuddySim.RequestIsSmall` | hello/eleutheria/buddy/test4.c:77-85 | every request of the simulation gets a block of at most 64 bytes |
| `BuddySim.AllocServed` | hello/eleutheria/buddy/test4.c:84-89 | the allocation that the program checks for failure cannot fail; one block more is in use, and it has the size that the request is rounded to |
| `BuddySim.FreeUsed` | hello/eleutheria/buddy/test4.c:148-151 | exactly this block goes out of use, and no used block grows |
| `BuddySim.BooksDrop` | hello/eleutheria/buddy/test4.c:147-152 | the first node's block is in use, and without it the list still accounts for every block |
| `BuddySim.BooksAdd` | hello/eleutheria/buddy/test4.c:84-93 | with the new node the list still accounts for every block |
| `BuddySim.Simulation.AddToList` | hello/eleutheria/buddy/test4.c:108-135 | the list stays sorted by lifetime, with the new node behind those of the same lifetime |
| `BuddySim.Simulation.FreeFromList` | hello/eleutheria/buddy/test4.c:137-156 | frees exactly the blocks that die in this epoch |
| `BuddySim.Simulation.FreeFirst` | hello/eleutheria/buddy/test4.c:147-152 | one block is freed, once, and the list still is the list of the blocks in use |
| `BuddySim.Simulation.EnoughBlocks` | hello/eleutheria/buddy/test4.c:84-89 | in every epoch there is an open window for the next request |
| `BuddySim.Simulation.Epoch` | hello/eleutheria/buddy/test4.c:64-94 | the invariant of a run: sorted list, list and used blocks agree, every block so far lives or has died on time; the epoch's own block has the size that its request is rounded to |
| `BuddySim.Simulation.Birth` | hello/eleutheria/buddy/test4.c:72-93 | the allocation of an epoch succeeds, gets a block of the size that its request is rounded to, and is accounted for |
| `BuddySim.Simulation.Admit` | hello/eleutheria/buddy/test4.c:90-93 | the new node finds its place in the sorted list |
| `BuddySim.Simulation.AllEpochs` | hello/eleutheria/buddy/test4.c:63-97 | every epoch gets a block of the size that its request is rounded to; after the last one the list is empty, each block died in its own epoch, and the pool is one block |
| `BuddySim.Simulate` | hello/eleutheria/buddy/test4.c:34-106 | the same for the whole program, and exactly when its pool can be created |
| `Chains.AndMask` | hello/eleutheria/genstructs/htable/htable.c:156-157 | masking with size - 1 is the remainder, for a size that is a power of 2 |
| `Chains.InsertRepresents` | hello/eleutheria/genstructs/htable/htable.c:162-168 | appending a new entry to its chain is inserting it into the map |
| `Chains.RemoveRepresents` | hello/eleutheria/genstructs/htable/htable.c:190-202 | unlinking an entry from its chain is removing it from the map |
| `Chains.RehashedRepresents` | hello/eleutheria/genstructs/htable/htable.c:122-134 | a table of twice the size, whose chains are the in-order parts of the old ones, means the same map |
| `Chains.DistributeNext` | hello/eleutheria/genstructs/htable/htable.c:129-133 | moving the next node of a traversal to the tail of its new chain keeps every new chain an in-order part of what has been traversed, in any table |
| `Chains.RedistributedIsRehashed` | hello/eleutheria/genstructs/htable/htable.c:122-134 | if every node was in the chain of its key, each new chain is the in-order part of one old chain only |
| `Chains.PlacedRepresents` | hello/eleutheria/genstructs/htable/htable.c:207-222 | a table represents a map as soon as every node is in the chain of its key and no key is twice in a chain |
| `Chains.LookupIsFind` | hello/eleutheria/genstructs/htable/htable.c:207-222 | in such a table, searching one chain finds what searching all nodes would |
| `Chains.FlattenIsMap` | hello/eleutheria/genstructs/htable/htable.c:249-260 | the entries that a traversal meets are exactly those of the map |
| `Chains.FlattenUnique` | hello/eleutheria/genstructs/htable/htable.c:249-260 | a traversal meets no key twice |
| `Chains.VisibleIsAll` | hello/eleutheria/genstructs/htable/htable.c:278-317 | what the iterator yields is a prefix of the traversal that lacks all of the last chain but its head, and all of it if and only if the last chain has at most one entry |
| `HTable.Iterator.constructor` | hello/eleutheria/genstructs/htable/htable.c:262-266 | a new iterator has seen nothing |
| `HTable.Table.constructor` | hello/eleutheria/genstructs/htable/htable.c:7-36 | a new table means the empty map |
| `HTable.Table.Search` | hello/eleutheria/genstructs/htable/htable.c:207-222 | the first node with the key in the chain of the key, in any table; what the map holds, if the table represents one |
| `HTable.Table.Insert` | hello/eleutheria/genstructs/htable/htable.c:147-179 | in any table, rejects a key found in its chain and changes nothing, or appends a node there; inserts into the map, if the table represents one; exactly when the table doubles, and into what |
| `HTable.Table.AppendNode` | hello/eleutheria/genstructs/htable/htable.c:159-168 | the new node is the last one of the chain of its key |
| `HTable.Table.Remove` | hello/eleutheria/genstructs/htable/htable.c:181-205 | removes from the map and reports whether there was anything; every other chain is unchanged and the order is kept |
| `HTable.Table.Scan` | hello/eleutheria/genstructs/htable/htable.c:194-202 | the first entry with the key, or none |
| `HTable.Table.Grow` | hello/eleutheria/genstructs/htable/htable.c:102-145 | each new chain is the in-order part of a traversal that belongs there, in any table; if the table represents a map, it keeps it, and new chain j is the in-order part of old chain j mod the old size; the moves counted in the loop are one for each entry |
| `HTable.Table.Rehash` | hello/eleutheria/genstructs/htable/htable.c:116-134 | the two loops distribute all nodes, leave the old chains empty, and move as many nodes as there are entries |
| `HTable.Table.MoveChain` | hello/eleutheria/genstructs/htable/htable.c:128-133 | the inner loop empties one chain in order, with one move for each node |
| `HTable.Table.MoveFirst` | hello/eleutheria/genstructs/htable/htable.c:129-133 | one node moves from the head of the old chain to the tail of its new one, and is counted |
| `HTable.Table.AmortisedGrowth` | hello/eleutheria/genstructs/htable/htable.c:127-176 | the moves that all grows together have made, counted one by one, are fewer than 3 per insertion; used <= limit; size is the initial size times 2^grows |
| `HTable.Table.Traverse` | hello/eleutheria/genstructs/htable/htable.c:249-260 | meets every entry of the map exactly once, chain by chain |
| `HTable.Table.SkipEmpty` | hello/eleutheria/genstructs/htable/htable.c:287-296 | the first chain that is not empty, from the iterator's position on |
| `HTable.Table.GetNext` | hello/eleutheria/genstructs/htable/htable.c:278-317 | the next place in every case, and when there is none |
| `HTable.Table.Enumerate` | hello/eleutheria/genstructs/htable/htable.c:278-317 | repeated calls yield all chains but the last in full, and of the last one the head |
| `HTable.Table.EnumerationLists` | hello/eleutheria/genstructs/htable/htable.c:278-317 | what is enumerated is in the map, without repetition, and is the whole map if and only if the last chain has at most one entry |
| `FsmWitnesses.ShortEnumeration` | hello/eleutheria/genstructs/htable/htable.c:278-317 | a table with two entries in its last chain, of which the iterator shows one |
| `FsmGraph.PathWithin` | hello/eleutheria/fsm/fsm.c:326-334 | a walk of k transitions ends within k rounds of marking |
| `FsmGraph.WithinPath` | hello/eleutheria/fsm/fsm.c:326-334 | what is within k rounds of marking can be walked to in at most k transitions |
| `FsmGraph.WithinSettles` | hello/eleutheria/fsm/fsm.c:313-336 | after as many rounds as there are states nothing new can be reached |
| `FsmGraph.ReachIsClosure` | hello/eleutheria/fsm/fsm.c:313-336 | the reachable states are the least set that contains the given ones and is closed under transitions |
| `FsmGraph.SuccessorsAre` | hello/eleutheria/fsm/fsm.c:326-334 | the successors of a state are exactly the targets of the events in its table, or of those that the iterator shows, whatever their actions are |
| `FsmGraph.PassesCover` | hello/eleutheria/fsm/fsm.c:313-336 | k calls mark everything within k transitions |
| `FsmGraph.PassesSound` | hello/eleutheria/fsm/fsm.c:313-336 | however many calls mark nothing that cannot be reached |
| `FsmGraph.PassesExact` | hello/eleutheria/fsm/fsm.c:313-336 | as many calls as there are states mark exactly what can be reached along transitions the iterator shows |
| `FsmGraph.PassMarks` | hello/eleutheria/fsm/fsm.c:313-336 | one call marks exactly what was marked before and what can be walked to with all sources in the order of the table |
| `FsmGraph.OnePassExactIff` | hello/eleutheria/fsm/fsm.c:313-336 | from given states, one call is exact if and only if everything that can be reached can be reached in the order of the table |
| `FsmGraph.OnePassAlwaysExactIff` | hello/eleutheria/fsm/fsm.c:120-143 | in a table that has each state once, as every table that is right does, one call is exact from whatever states if and only if everything that takes two transitions can also be reached in the order of the table |
| `FsmGraph.MarkingRightIff` | hello/eleutheria/fsm/fsm.c:313-336 | repeated marking is right from whatever states if and only if every state in the table reaches all its successors along transitions that the iterator shows |
| `FsmGraph.RightIfClosed` | hello/eleutheria/fsm/fsm.c:313-336 | what the iterator hides never makes marking mark too much |
| `FsmGraph.NothingHiddenExact` | hello/eleutheria/fsm/fsm.c:313-336 | so it is right if the last chain of each table has at most one entry |
| `FsmGraph.OnePassMisses` | hello/eleutheria/fsm/fsm.c:128-137 | on a machine of three states, one call misses a reachable state |
| `FsmGraph.HiddenTransitionMissed` | hello/eleutheria/fsm/fsm.c:330-334 | on a machine of three states, no number of calls marks a state one transition away |
| `FsmWitnesses.BuildBackwards` | hello/eleutheria/fsm/states.c:45-76 | the first of these machines is what state_init, state_add_evt and fsm_add_state build |
| `FsmWitnesses.BuildCrowded` | hello/eleutheria/fsm/states.c:45-76 | the second of these machines is what state_init, state_add_evt and fsm_add_state build |
| `Fsm.StableSortUnique` | hello/eleutheria/fsm/fsm.c:189-218 | there is only one order by descending priority, oldest first |
| `Fsm.SameMultiset` | hello/eleutheria/fsm/fsm.c:189-218 | that order has the same events, each as often |
| `Fsm.StableSortCons` | hello/eleutheria/fsm/fsm.c:195-214 | serving the oldest event of the highest priority and then the rest in order is that order |
| `Fsm.Machine.constructor` | hello/eleutheria/fsm/fsm.c:53-56 | a new machine has nothing pending, marked or dispatched |
| `Fsm.Machine.SetState` | hello/eleutheria/fsm/fsm.c:120-143 | an unknown key changes nothing; otherwise the state is marked, one pass is made, and it is the current state; all marks remain reachable from the states that were set |
| `Fsm.Machine.MarkReachable` | hello/eleutheria/fsm/fsm.c:313-336 | the loops of the code are one marking pass, in the iterator's order |
| `Fsm.Machine.MarkTargets` | hello/eleutheria/fsm/fsm.c:330-334 | every target that the iterator shows is marked if the state is, and nothing else |
| `Fsm.Machine.MarkRepeatedly` | hello/eleutheria/fsm/fsm.c:313-336 | k calls cover k transitions; as many as there are states are exact, and exact for all transitions if nothing is hidden |
| `Fsm.NoNullTargetsSafe` | hello/eleutheria/fsm/fsm.c:326-334 | if no transition lacks a target, marking follows no NULL pointer, whatever is marked |
| `Fsm.Machine.QueueEvent` | hello/eleutheria/fsm/fsm.c:150-188 | a priority out of range is rejected without effect; any other event is accepted and pending behind all others |
| `Fsm.AcceptedOfPrio` | hello/eleutheria/fsm/fsm.c:150-188 | of the events that an action queues, those of each priority that there is a queue for are accepted, all of them and in their order |
| `Fsm.Machine.ProcessEvent` | hello/eleutheria/fsm/fsm.c:238-259 | the action runs exactly if there is one; the state changes exactly if there is a target whose key is in the table, and every other case is reported |
| `Fsm.Machine.RunAction` | hello/eleutheria/fsm/fsm.c:246-248 | the events that an action queues go behind all that are pending |
| `Fsm.Machine.DequeueEvent` | hello/eleutheria/fsm/fsm.c:189-218 | serves and deletes the oldest event of the highest priority, and no other, also if its action queues events; reports emptiness exactly when nothing is pending |
| `Fsm.NextIsOldest` | hello/eleutheria/fsm/fsm.c:189-218 | the event served has no event of its priority before it and none of a higher one anywhere, and only its place in the arrivals is deleted |
| `Fsm.Machine.DeleteFirst` | hello/eleutheria/fsm/fsm.c:208-212 | the event deleted is the one that was dispatched; every accepted event is pending or dispatched, once |
| `Fsm.Machine.ServeOne` | hello/eleutheria/fsm/fsm.c:189-218 | the same without new arrivals: one event less is pending |
| `Fsm.Machine.Drain` | hello/eleutheria/fsm/fsm.c:189-218 | without new arrivals, serving until nothing is left dispatches the stable sort of the pending events by descending priority, and the machine goes where they lead |
| `Fsm.NextIsSuccessor` | hello/eleutheria/fsm/fsm.c:238-259 | an event leaves the machine where it is or takes it along a transition of its state |
| `Fsm.RunReaches` | hello/eleutheria/fsm/fsm.c:313-336 | whatever the events are, the machine goes only to states that are reachable, if every state whose key is found stands in the table itself |
| `Fsm.ReachIffRun` | hello/eleutheria/fsm/fsm.c:238-336 | if also the event tables are right and the keys of all targets are in the table, a state is reachable if and only if some events lead to it |
| `Fsm.StrangerEntered` | hello/eleutheria/fsm/fsm.c:250-256 | a machine that goes to a state that is not reachable, because the engine looks up the key of a target and not the target |
| `FsmTables.State.constructor` | hello/eleutheria/fsm/states.c:13-43 | a new state handles no event |
| `FsmTables.State.AddEvent` | hello/eleutheria/fsm/states.c:45-76 | a new event is handled as given, and goes to the end of its chain if the table need not grow; for one that is handled already nothing changes |
| `FsmTables.State.RemoveEvent` | hello/eleutheria/fsm/states.c:78-84 | the event is not handled any more, all others are |
| `FsmTables.Tables.constructor` | hello/eleutheria/fsm/fsm.c:58-65 | a new machine knows no state |
| `FsmTables.Tables.WriteKey` | hello/eleutheria/fsm/fsm.c:76-76 | the state has the new key, and so have all its nodes, which stay in their chains |
| `FsmTables.Tables.AddState` | hello/eleutheria/fsm/fsm.c:70-83 | for every table: a key found in its chain after the key is written is reported, any other is inserted; for one that is right: when the key is reported, whether the table stays right, and what every key finds afterwards |
| `FsmKeys.AddingHasOutcome` | hello/eleutheria/fsm/fsm.c:70-83 | changing the key and then inserting: the result is Exists if and only if the key was taken or the state's own node is in its chain; the old key finds nothing, the new one finds something, and the state if the key was free, all others find what they did |
| `FsmKeys.PlacedIff` | hello/eleutheria/fsm/fsm.c:70-83 | the table stays right if and only if the state is new, keeps its key, or gets a free key of the same chain |
| `FsmKeys.Misplaced` | hello/eleutheria/fsm/fsm.c:70-83 | in all other cases two nodes have the new key, or one stands in a chain that is not its key's, also if the table has grown |
| `FsmKeys.HarmlessKeeps` | hello/eleutheria/fsm/fsm.c:70-83 | with a free key of the same chain, the state is found under it, although the call reports that it is taken |
| `FsmKeys.OldKeyLost` | hello/eleutheria/fsm/fsm.c:70-83 | a state in the table that gets another key is not found under its old one |
| `FsmKeys.OthersFound` | hello/eleutheria/fsm/fsm.c:70-83 | what is found under any other key does not change |
| `FsmKeys.ThroughAfter` | hello/eleutheria/genstructs/htable/htable.c:162-168 | every node of the table, however often its state stands there, keeps the key of its state |
| `FsmWitnesses.Renamed` | hello/eleutheria/fsm/fsm.c:70-83 | a state under key 5 is added again under key 7, free and of the same chain: the call fails, but the state is found under 7 and not under 5 |
| `FsmWitnesses.Doubled` | hello/eleutheria/fsm/fsm.c:70-83 | a state under key 5 is added again under key 6, free and of another chain: the call succeeds, and the table is not right any more |
| `FsmWitnesses.KeyLost` | hello/eleutheria/fsm/fsm.c:70-83 | a state under key 5 is added again under key 6, which another state has: the call fails, and no key finds the state any more |
| `FsmTables.Tables.FoundUnderItsKey` | hello/eleutheria/fsm/fsm.c:120-148 | a state that is found under a key bears that key, whatever keys have been written; while the table is right, a state in it is found under its key |
| `FsmTables.Tables.PlacedMeansEachOnce` | hello/eleutheria/fsm/fsm.c:70-83 | while the table is right, no state stands in it twice |
| `FsmTables.Tables.ViewWellFormed` | hello/eleutheria/fsm/types.h:8-47 | the tables that the program builds are as the engine needs them |
| `FsmTables.Tables.EngineFollowsTables` | hello/eleutheria/fsm/fsm.c:242-256 | the engine takes exactly the transitions that were added to the states, wherever the tables keep them, and reports success exactly when it takes one |
| `Barber.RunInv` | hello/eleutheria/pthreads/sleepbarber.c:50-81 | the invariant holds in every interleaving, and the number of steps taken is known |
| `Barber.OnlyOneInside` | hello/eleutheria/pthreads/sleepbarber.c:68-78 | two customers are never both between wait and post of seasem |
| `Barber.StepCounts` | hello/eleutheria/pthreads/sleepbarber.c:50-81 | every step of every thread is one step less to do |
| `Barber.BarberSafety` | hello/eleutheria/pthreads/sleepbarber.c:52-78 | mutual exclusion; taken seats = cussem + customers about to post + barber about to free a seat, so 0 <= freeseats <= seats; customers served <= the barber's posts, which are counted, <= customers admitted; a customer is being turned away only while no seat is free, and takes one only while one is |
| `Barber.NoDeadlock` | hello/eleutheria/pthreads/sleepbarber.c:50-81 | as long as one customer has not left, some thread can take a step |
| `Barber.BlockedIff` | hello/eleutheria/pthreads/sleepbarber.c:50-81 | a thread has to wait exactly while somebody else is inside, while no customer has announced himself, or while the barber has posted for nobody but those served |
| `Barber.EveryoneLeaves` | hello/eleutheria/pthreads/sleepbarber.c:50-81 | every run is finite, and one that cannot go on has all customers served or turned away, all seats free and the barber asleep, after exactly 13 steps for each one served and 3 for each one turned away |
| `EchoServer.PerIoContext.constructor` | hello/iocp1/server/IocpServer.Cpp:725-732 | a new context is set to read a full buffer |
| `EchoServer.PerIoContext.IoCompleted` | hello/iocp1/server/IocpServer.Cpp:537-609 | the fields after one completion, and what is posted next, are those of the state machine that `EchoProtocol` runs |
| `EchoServer.SendBuffer` | hello/iocp1/client/IocpClient.Cpp:321-345 | the i-th call offers exactly what the calls before it have left over, and what all calls take goes out in order; success means that this is the whole buffer; failure, that it is a proper prefix and only the last call did not work |
| `EchoServer.RecvBuffer` | hello/iocp1/client/IocpClient.Cpp:352-376 | the i-th call asks for exactly what the calls before it have left to fill, and what all calls bring stands in the buffer in order; success means that this is the whole buffer; failure, that only the last call did not work, and the rest of the buffer is untouched |
| `EchoServer.AckExactIff` | hello/iocp1/client/IocpClient.Cpp:242-243 | comparing first and last byte tells a right buffer from every wrong one if and only if a buffer has at most two bytes |
| `EchoProtocol.KernelRecvKeeps` | hello/iocp1/server/IocpServer.Cpp:228-230 | a receive that completes, however little it brings, loses and duplicates nothing: the server holds exactly these bytes, and the rest is still on its way |
| `EchoProtocol.KernelSendKeeps` | hello/iocp1/server/IocpServer.Cpp:570-579 | a send that completes, however little it takes, loses and duplicates nothing: exactly these bytes are on their way back, and the server holds the rest |
| `EchoProtocol.WorkerKeeps` | hello/iocp1/server/IocpServer.Cpp:523-609 | a worker's turn keeps all bytes and has the next operation posted; on loss the connection is closed, and what can still arrive is a prefix |
| `EchoProtocol.ClientRecvKeeps` | hello/iocp1/client/IocpClient.Cpp:240-256 | when the client's buffer is full, it is the buffer that was sent |
| `EchoProtocol.WrongEchoNoticed` | hello/iocp1/client/IocpClient.Cpp:240-256 | whatever a server sends back, the client stops with a report exactly when the first byte or the last of a full buffer is wrong |
| `EchoProtocol.StepKeeps` | hello/iocp1/server/IocpServer.Cpp:494-610 | every step of client, kernel and workers keeps the invariant |
| `EchoProtocol.RunInv` | hello/iocp1/server/IocpServer.Cpp:494-610 | the invariant holds in every reachable state |
| `EchoProtocol.EchoConservation` | hello/iocp1/server/IocpServer.Cpp:494-610 | bytes sent = bytes received ++ on the way back ++ held by the server ++ on the way there, in order; a live context has exactly one operation outstanding; after a loss, what arrives is a prefix |
| `EchoProtocol.AnyFragment` | hello/iocp1/server/IocpServer.Cpp:494-610 | every fragmentation and every failure is covered: in every reachable state, an operation may transfer any number of bytes up to all there are, or fail, and a worker can take every completion |
| `EchoProtocol.EchoIsRight` | hello/iocp1/client/IocpClient.Cpp:234-256 | the client never reports a wrong echo, lost connection or not, and every buffer received in full equals the one sent |
| `EchoProtocol.EchoNeverStuck` | hello/iocp1/client/IocpClient.Cpp:234-256 | without loss, some party can always take a step |
| `EchoProtocol.EchoMakesProgress` | hello/iocp1/client/IocpClient.Cpp:234-256 | without loss, every run of more than 6 * n * size steps has completed n rounds |

## Left out

- BuddyPool.MPool.Free: requires that the pointer belongs to a block in use; what a double free or a foreign pointer does is not modelled. The build with `MPOOL_OPT_FOR_SECURITY`, which looks for the pointer first, is left out.
- BuddyPool.MPool.Init: `1 << n` is exact; in C the shift of an `int` is undefined from 31 on. Running out of memory (`MPOOL_ENOMEM`) is not modelled.
- BuddyLinks.BlockTable.Remove: the LIST_ENTRY fields are kept in an array of their own, by the address of the header, and `le_prev` says whose pointer it points at; the file sys/queue.h is not part of the repository, and its macros are modelled as they are commonly defined.
- BuddyPromises.RoomIffNoOverflow: leaves out a pool whose smallest block already has 2^wordBits bytes, which no machine can hold.
- BuddyStats.GetBytes: the counters are unbounded; they fit into a machine word because the pool does.
- BuddySim.Simulate: the random numbers are parameters, restricted to the ranges that the program draws from; printing the statistics is left out, and a node is named by its epoch instead of by its place in an array.
- HTable.Table.Grow: running out of memory (`HT_NOMEM`) is not modelled, nor are bounds of `ht_size`, `ht_used` and `ht_limit`. A direct call is modelled, but the amortised bound is about tables that grow by insertion only.
- HTable.Table.Search: keys are compared by equality; a NULL that was stored as data and a missing key are told apart, which callers of the program cannot do.
- HTable.Table.GetNext: a node is named by its chain and its place in it; the table must not change between calls. The tail pointers and links of the tail queues are not modelled.
- Fsm.Machine.SetState: requires that marking meets no NULL target (`PassSafe`), which the program would follow without looking: a NULL target on a state that is marked when its turn comes, and on an event that the iterator shows.
- Fsm.Machine.ProcessEvent: requires a current state, which the program follows without looking. An action is the list of events it queues; an action that calls `fsm_dequeue_event` or `fsm_set_state` is not modelled.
- Fsm.Machine.DequeueEvent: requires at least one queue; with none the program reads outside its table. Copying the data of an event and locking the queues are left out.
- FsmTables.Tables.AddState: state objects are named by numbers, and all of them are given in advance; their tables may change at any time before the machine runs.
- Barber.EveryoneLeaves: creating a thread is part of its first step, and printing is not a step; the semaphore counters are unbounded.
- EchoProtocol.EchoConservation: the kernel is modelled as "a posted operation completes with 1 to all of its bytes, or the connection is lost", with unbounded channels. One connection is modelled; contexts of different connections share nothing but the list below. What the client sends may differ from round to round and from byte to byte, which is more than the program does; the buffer size is at least 1.
- The server's list of contexts, its shutdown, the accept loop and the other server in `hello/iocp1/serverex`.
- `mpool_destroy`, `htable_free`, `htable_free_all_obj`, `fsm_free`, `state_free`: releasing memory is not modelled.
- `htable_print`, `fsm_print_states`, `fsm_export_to_dot`, `fsm_validate`, `fsm_minimize` and the remaining getters would only add easy members.
