# A verified model of the storage-engine toolbox

This project models the concurrent protocols, trees, pages and lists of the
storage engine and proves what they are for.  `dafny verify dfyconfig.toml`
checks all of it.

Concurrency is sequentially consistent: a protocol is a transition system whose
actions are single accesses to shared memory, with any number of threads, and a
theorem quantifies over every run.  Everything else is single-threaded code in
the form the program has: classes whose methods change their fields, loops and
in-place arrays.  Where nodes point at each other, the pointers live in a map
from node to record that the methods update.

| files | what they model |
|---|---|
| `Rcu`, `RcuProof`, `RcuRuns`, `RcuClock`, `RcuCalls`, `RcuReuse`, `RcuGet` | the epoch protocol: `fix` as a load and a store, rings of retired objects, the slot scan one slot per action |
| `RbShape`, `RbHeap`, `RbOrder`, `RbTree`, `RbRuns` | the red-black tree on linked nodes with the shared sentinel |
| `LogStore`, `LogStoreProof`, `LogStoreRuns`, `LogCrossing`, `LogAppends`, `LogFlushCalls` | appenders that reserve by compare-and-swap, publish a chunk and store into buffers, and the flusher |
| `LogBuffers`, `LogFlush`, `LogFlusher` | the flusher thread alone: chunk numbers, buffers, the vectored write |
| `PageSearch`, `OrderedPage`, `OrderedNode`, `PageSort` | the slotted page: search, shift loops, space accounting, merge sort |
| `SeqLock`, `SeqLockProof`, `SeqLockCalls` | the sequence lock around the page search |
| `BtShape`, `BtSplit`, `BTree`, `BtStamp`, `BTreeRuns` | the B-tree over such pages |
| `FbNode`, `FbShape`, `FbTree`, `FbSearch`, `FbPath`, `FbInsert`, `FbRemove`, `FbUpdate`, `FbRuns` | the fixed-size B-tree, its path stack, and insertion into and removal from whole trees |
| `SkipRows`, `SkipLast`, `SkipList`, `SkipLevels`, `SkipRuns` | the skip list |
| `DList`, `PooledLists`, `PoolRuns` | circular lists and the pool built on them |
| `Basics` | `Option`, powers of two and sequences without duplicates |

Results that a reader of one function would not expect:

- `reusable_time` of the epoch protocol goes down in some run if and only if there
  are two threads or more (`RcuClock.FallsIff`); objects are protected all the same.
- A log reservation can lie across a chunk boundary.  `go_forward` re-reads the
  position after aligning it and does not test it again.  With values of at most a
  chunk this never happens if and only if there is at most one appender
  (`LogCrossing.NeverCrossesIff`).  Reservations stay disjoint and the flusher still
  waits for every writer (`LogStoreRuns.ReservationsDisjoint`,
  `LogStoreRuns.WritersFinished`), but `append` stores the whole value from one
  pointer on, so the bytes behind the boundary land in the right place if and only
  if the next chunk has the next buffer (`LogCrossing.StoredInPlaceIff`).  Two
  appenders suffice for a run in which the flusher writes out another byte than the
  one appended (`LogCrossing.ReachWrong`); what is written out is right in every run
  without a crossing reservation (`LogStoreRuns.FlushSafety`), and in all runs if and
  only if there is at most one appender (`LogCrossing.AlwaysEmitsRightIff`).
- `rb_remove` copies only the key of the predecessor, so that key ends up with
  the removed key's data.  The map is the old one minus the key if and only if the
  removed node lacks a child on one side or its predecessor has the same data
  (`RedBlackTree.RbTree.Remove`, `RbRuns.RemoveMixes`).
- The page's merge sort ends if and only if the count is at most a quarter of
  what the slot type can count (`PageSort.SortEndsIff`): the level wraps to zero
  otherwise.  A page of the default size has no room for that many slots
  (`PageSort.SortDefaultPage`); a 64 KB page with 16-bit slots has
  (`PageSort.EndlessPage`).
- `ywDList::bring` of an empty list destroys the list it is brought to, and works
  for every other list (`DList.Store.Bring`).  Its callers test first.
- `ywSkipList::remove` of an absent key repeats a round that changes nothing
  forever (`SkipLists.Attempt`).  When it returns, some choice of levels makes the
  list well-formed if and only if the key was not LAST_KEY
  (`SkipLists.SkipList.Remove`): that key makes it unlink the tails.
- `find_leaf` of the B-tree compares the stamps of pages with a 32-bit sequence.
  Until that wraps every lookup returns; right after, none does unless the root is a
  leaf (`BtStamps.ReturnsIff`, `BtStamps.StuckAtWrap`).
- `fb_insert` of an absent key keeps the fixed-size B-tree in order if and only if
  the search for the key ends at a smaller one (`FbInserts.InsertOkIff`).  As long
  as nothing has been removed that means: if and only if the tree is empty or some
  key in it is smaller (`FbRuns.FbTree.TakesIff`, `FbRuns.InsertBelowFirst`).
- `fb_remove` keeps every tree in order, but takes a separator's key from under it:
  a key that was removed and is inserted again breaks the tree if and only if it was
  the first under the lowest node with more than one key under it
  (`FbUpdates.Reinsert`, `FbUpdates.ReinsertBreaks`).
- `fb_find` does not look at the key it ends at: for an absent key it returns the
  data of the greatest key below, or of the smallest key (`FbRuns.FbTree.Find`).

Keys are integers in the order the comparison functions of the engine stand for;
a comparison result above zero means that the left key is the smaller one, as
`ywInt` has it.

## Model

| member | source | states |
|---|---|---|
| `RcuRuns.GracePeriod` | include/ywrcuref.h:92-265 | in every interleaving, when an object is handed out for reuse, every reader that obtained it was inside a section then and has since been outside of all of them, where depth is what the begins and ends of sections alone count, with a two-step fix, nested fixes, a slot scan that is not atomic and a reusable time that goes down |
| `RcuRuns.HandedOutOncePerRegistration` | include/ywrcuref.h:142-184 | over any run the registrations of an object are its hand-outs, plus one if it still waits in a list |
| `RcuRuns.OneList` | include/ywrcuref.h:142-236 | in every reachable state an object that waits is in exactly one list, the latest ring of a thread or a retired ring, and there once |
| `RcuClock.FallsIff` | include/ywrcuref.h:92-109 | from some reachable state some action lowers the reusable time if and only if there are two threads or more |
| `RcuClock.ReusableTimeCanDecrease` | include/ywrcuref.h:92-109 | with two or more threads, a reader stopped between loading the global time and publishing it leads to a run whose last action takes the reusable time from 3 to 2 |
| `RcuClock.LoneClockRises` | include/ywrcuref.h:248-265 | with at most one thread the reusable time never goes down over any stretch of any run |
| `RcuRuns.ReachableInv` | include/ywrcuref.h:82-265 | the invariant behind the grace period holds in every state of every run, from the initial state on |
| `RcuRuns.StillHeld` | include/ywrcuref.h:92-109 | a reader that obtained an object counts as holding it for as long as its begins and ends leave it in a section |
| `RcuRuns.NestCounts` | include/ywrcuref.h:92-113 | in every state of every run a thread has a published time exactly while it is in a section, and `ref` is the number of sections around the innermost one, both counted from its calls alone |
| `RcuCalls.FixReturns` | include/ywrcuref.h:92-101 | a fix that has returned, whatever happened meanwhile, left the thread one section deeper; one from outside published the global time at which it began |
| `RcuCalls.RegisterReturns` | include/ywrcuref.h:142-153 | a registration that has returned put exactly its object, exactly once and as its last step, in front of the latest ring |
| `RcuReuse.AgingReturns` | include/ywrcuref.h:194-236 | an aging that has returned left an empty latest ring, moved all of the old one together to a ring stamped with a global time of the call, and either gave up on a lock that was not free or finished the scan |
| `RcuReuse.AgingUpdates` | include/ywrcuref.h:248-265 | unless it gave up, it stored as reusable time the least of the global time and of the published times of all slots, each as it stood at some moment of the call |
| `RcuReuse.TimeCounts` | include/ywrcuref.h:115-140 | in every state of every run the global time is its initial value plus two for each release, plus one while locked |
| `RcuGet.GetReturns` | include/ywrcuref.h:155-184 | a get that has returned handed out an object as its last step and none before, or returned nothing because no ring came even after change_ring or because both reads of the reusable time had not passed the stamp |
| `RcuGet.PassedHandsOut` | include/ywrcuref.h:170-181 | once the check has passed, the next step of the thread hands out the first object of that very ring whatever the others do; only an empty ring makes it go on |
| `RcuRuns.NobodyHoldsReturned` | include/ywrcuref.h:155-184 | no reader holds what an enabled action is about to hand out |
| `RcuRuns.HomeStep` | include/ywrcuref.h:142-184 | an action puts an object into the lists exactly by registering it and takes it out exactly by returning it; no splice loses or doubles one |
| `RcuProof.StepInv` | include/ywrcuref.h:92-265 | every action of every thread keeps the invariant: lists and ownership of rings, the odd global time while locked, published times, and protection of stamped objects |
| `RcuProof.ScanProtects` | include/ywrcuref.h:248-265 | one step of the slot scan keeps an object protected that a fixed reader holds: the scan is bounded by its stamp already or has yet to read that reader's slot |
| `RcuProof.CheckedRingFree` | include/ywrcuref.h:237-246 | a ring whose stamp the reusable time has passed holds nothing any reader still has |
| `RcuProof.StampObjects` | include/ywrcuref.h:217-221 | stamping the latest ring with the global time protects what readers still hold of it |
| `RcuProof.MoveObjects` | include/ywrcuref.h:217-236 | moving the latest ring's objects into a new ring keeps lists, stamps and protection |
| `RcuProof.TakeObjects` | include/ywrcuref.h:171-181 | popping an object from a ring, or freeing an empty ring, keeps lists, stamps and protection |
| `RedBlackTree.RbTree.Remove` | src/ywrbtree.cc:300-337 | true exactly for a present key; keeps search order, parent links, a black root, no red under red and equal black counts; the key set becomes the old one minus the key, and the map too if and only if no data is mixed; exactly, a removed node with two children leaves its data to its predecessor's key; otherwise nothing changes |
| `RedBlackTree.RbTree.Insert` | src/ywrbtree.cc:245-274 | true exactly if a node was allocated and the key is new; keeps all red-black invariants and adds exactly the new binding; otherwise nothing changes |
| `RedBlackTree.RbTree.Find` | src/ywrbtree.cc:276-290 | the data bound to the key, or the sentinel's NULL |
| `RedBlackTree.RbTree.constructor` | src/ywrbtree.cc:238-243 | a new tree is a valid empty map |
| `RedBlackTree.RbTree.Traverse` | src/ywrbtree.cc:127-142 | ends on the node with the key, or on the missing child where search order puts it, with its parent and side |
| `RedBlackTree.RbTree.ReplaceChild` | src/ywrbtree.cc:79-90 | the child slot of the parent, or the root, and the new child's parent and colour become those of the hole, even if the new child is the sentinel |
| `RbHeap.Rotated` | src/ywrbtree.cc:92-109 | the pointer writes of a rotation, on a store that holds x(a, y(b, e)) in any surroundings, leave y(x(a, b), e) there, every parent link included |
| `RedBlackTree.RbTree.Rotate` | src/ywrbtree.cc:92-109 | x(a, y(b, e)) becomes y(x(a, b), e) on either side, with every link of the tree around it in place |
| `RedBlackTree.RbTree.BalancedRotate` | src/ywrbtree.cc:391-398 | the red child on a side takes its parent's place and colour, and the parent becomes red |
| `RedBlackTree.RbTree.Recover` | src/ywrbtree.cc:400-447 | from a tree that is right but for one red node under a red one, ends in a red-black tree with the same bindings and nodes |
| `RedBlackTree.RbTree.RecoverRedParent` | src/ywrbtree.cc:412-447 | the three cases with a red parent end in a red-black tree with the same bindings |
| `RedBlackTree.RbTree.Recolor` | src/ywrbtree.cc:421-427 | with a red uncle the two black counts meet again at a red grandparent |
| `RedBlackTree.RbTree.TurnOutside` | src/ywrbtree.cc:433-436 | an inner grandchild is rotated outside, keeping everything else about the case |
| `RedBlackTree.RbTree.RotateGrand` | src/ywrbtree.cc:442-446 | the last rotation leaves a red-black tree |
| `RedBlackTree.RbTree.RecoverBlackCount` | src/ywrbtree.cc:339-389 | terminates although the red-sibling case recurses on the same node one level deeper, and leaves the node where it can be taken out: the context wants one black less, has no red under red and, unless the node is the root, its parent is black |
| `RedBlackTree.RbTree.PassUp` | src/ywrbtree.cc:352-359 | all black: the sibling turns red and the parent carries the missing black |
| `RedBlackTree.RbTree.SwapWithRedParent` | src/ywrbtree.cc:362-369 | a red parent and its black-childed sibling exchange colours and nothing is missing any more |
| `RedBlackTree.RbTree.LiftRedSibling` | src/ywrbtree.cc:371-375 | a red sibling is rotated above the parent |
| `RedBlackTree.RbTree.BringBlack` | src/ywrbtree.cc:377-388 | a red nephew lets the sibling take the parent's place and a black come over |
| `RedBlackTree.RbTree.SpliceOut` | src/ywrbtree.cc:329-336 | rebalancing before unlinking: taking out a node with at most one child leaves a red-black tree with exactly the other bindings, also when the black victim has a red child |
| `RedBlackTree.RbTree.Detach` | src/ywrbtree.cc:333-336 | the child takes the node's place and the node's memory goes back to the pool |
| `RedBlackTree.RbTree.GetMaximum` | src/ywrbtree.cc:292-298 | the node of the greatest key under a node |
| `RedBlackTree.RbTree.RemoveByPredecessor` | src/ywrbtree.cc:317-336 | with two children, the predecessor's key moves up and its node goes: one key less, and the map minus the key exactly if both had the same data |
| `RbRuns.HeightBound` | src/ywrbtree.cc:245-447 | a red-black tree of n keys has height at most 2 log2(n + 1) |
| `RbRuns.Run` | src/ywrbtree.cc:245-290 | any run of insertions and lookups on a valid tree answers as a finite map does |
| `RbRuns.RunUpdates` | src/ywrbtree.cc:245-337 | any run of insertions and removals keeps a red-black tree over exactly the right set of keys |
| `RbRuns.RemoveMixes` | src/ywrbtree.cc:317-322 | for any three keys: inserting the middle, the smallest and the greatest and removing the middle one leaves the smallest with the middle one's data |
| `RbRuns.RemoveMiddle` | src/ywrbtree.cc:300-337 | in every tree of three keys, whatever its history, removing the middle one gives its data to the smallest |
| `RbRuns.ThreeNodes` | src/ywrbtree.cc:300-337 | a red-black tree of three nodes has one on each side of the root |
| `RbShape.FillRedBlack` | src/ywrbtree.cc:339-447 | a tree is red-black exactly if a subtree fits the context around it, wherever it is cut |
| `LogStoreRuns.FlushSafety` | src/ywlogstore.cc:136-217 | in every run of many appenders and one flusher, as long as no reservation lies across a chunk boundary, each byte written out at the position of a reservation's byte, whenever in the run that reservation is looked for, is the byte its appender stored for it |
| `LogStoreRuns.WritersFinished` | src/ywlogstore.cc:136-217 | with no assumption on boundaries, every reservation with a byte in a range that is written out had been made and its store was done by then |
| `LogStoreRuns.ReservationsDisjoint` | include/ywpos.h:22-45 | no two appenders are ever given a common byte, with no assumption on chunk boundaries |
| `LogAppends.AppendReturns` | include/ywlogstore.h:84-97 | an append that has returned made exactly one reservation, of its size, at or behind the position it found first, and its store is done: no lost compare-and-swap makes it give up or reserve twice |
| `LogFlushCalls.FlushReturns` | src/ywlogstore.cc:136-217 | a flush that has returned took nothing, or failed to write and is back at its old position, or moved on by whole units and gave up exactly the chunks it completed, while appenders went on |
| `LogFlushCalls.CanReturn` | src/ywlogstore.cc:207-216 | from every reachable state after the write, the flush can recycle what it completed and return |
| `LogStoreRuns.BufferNotRecycled` | include/ywlogstore.h:84-97 | every chunk of the range an appender has still to write keeps its buffer from when it was created, and the pointer it holds is the address of its position |
| `LogStoreRuns.PublishedBelowOwnChunk` | include/ywlogstore.h:90-92 | the assertion in append never fails: the minimum its scan of the published chunks found is at most the chunk it writes to |
| `LogCrossing.NeverCrossesIff` | include/ywpos.h:22-45 | with values of one byte to a chunk, no run has a reservation across a chunk boundary if and only if there is at most one appender |
| `LogCrossing.SoloRun` | include/ywpos.h:22-45 | a single appender never crosses a boundary and never finds the position moved |
| `LogCrossing.WriteLandsIff` | include/ywlogstore.h:177-195 | a value stored from one pointer on lies where the flusher looks for each of its bytes if and only if each further chunk has the buffer behind |
| `LogCrossing.AdjoiningNext` | include/ywlogstore.h:177-195 | for a value of at most a chunk: if and only if it does not cross, or the next chunk is cached in the next buffer |
| `LogCrossing.StoredInPlaceIff` | include/ywlogstore.h:84-97 | in every run, what an appender stores to is the image of its range if and only if its chunks adjoin |
| `LogCrossing.ReachWrong` | src/ywlogstore.cc:136-217 | two or more appenders reach a state in which the flusher has written out a byte that is not the one appended there |
| `LogCrossing.EmitsRightUnlessCrossing` | src/ywlogstore.cc:136-217 | whatever is written out while no reservation crosses is what was appended |
| `LogCrossing.AlwaysEmitsRightIff` | src/ywlogstore.cc:136-217 | the log comes out as appended in all runs if and only if there is at most one appender |
| `LogStoreRuns.ReachableInv` | src/ywlogstore.cc:136-217 | the invariant behind flush safety holds in every state of every run |
| `LogStoreRuns.StepInv` | include/ywlogstore.h:84-97 | every action of an appender or of the flusher keeps that invariant |
| `LogStoreProof.UnitWritten` | src/ywlogstore.cc:155-168 | once the position and all published chunks have let the flusher past a unit, everything reserved in it is written |
| `LogBuffers.Position.GoForward` | include/ywpos.h:22-53 | alone, returns the old position or the next boundary, leaves a value of at most a chunk inside its chunk and skips less than a chunk |
| `LogBuffers.ChunkMgr.AllocChunk` | include/ywchunkmgr.h:73-151 | numbers and places stay in step, so every chunk lies at the place of its number, and the rollback of a full map restores both |
| `LogBuffers.BuffCache.AllocCache` | include/ywbuffcache.h:52-72 | ends whenever a buffer is unused, and marks one that was: the next never used, or else the first unused one from buffer 1 on |
| `LogBuffers.BuffCache.DeallocCache` | include/ywbuffcache.h:74-80 | true exactly for a buffer in use, which then is not |
| `LogBuffers.SomeUnused` | include/ywbuffcache.h:58-66 | when fewer buffers are in use than there are, the scan has one to find |
| `LogFlush.Gather` | src/ywlogstore.cc:153-194 | takes exactly the units that are ready when looked at, in order, and stops only at the first that is not (not appended yet, not cached, or an appender still at or below its chunk) or at FLUSH_COUNT pieces; the pieces concatenate to exactly the addresses of the bytes from the old to the new position, the size is their distance and the finished chunks are exactly the completed ones |
| `LogFlush.GatherStep` | src/ywlogstore.cc:176-193 | one unit, attached to the last piece or as a new one, extends the image by exactly that unit |
| `LogFlusher.FlusherThread.Flush` | src/ywlogstore.cc:136-217 | succeeds if and only if the first unit was ready and the write went through; then it wrote the image of [old, new) at the file offset that equals the old position, new being behind every ready unit up to the first that is not or to FLUSH_COUNT pieces, released exactly the completed chunks and counted them, and rewrote the master chunk if there were any; a failed one changes nothing |
| `LogFlusher.FlusherThread.Release` | src/ywlogstore.cc:207-214 | each finished chunk gives back its own buffer, and the master chunk is rewritten if and only if there was one |
| `LogFlusher.FlusherThread.CreateChunk` | include/ywlogstore.h:130-165 | succeeds if and only if the lock was free and the chunk map has room: a new chunk has the next number, a buffer of its own and the position of its number; a failure gives the buffer back |
| `LogFlusher.FlusherThread.ReserveSpace` | src/ywlogstore.cc:130-134 | prepares exactly one chunk if it can and more than one buffer is left, and otherwise nothing, so one stays spare |
| `LogFlusher.FlusherThread.WriteMasterChunk` | src/ywlogstore.cc:92-105 | finds a buffer, leaves the buffers as they were, and the master chunk holds the chunk numbers and places of that moment |
| `LogFlusher.FlusherThread.SetVictim` | include/ywbuffcache.h:135-155 | true exactly for a cached chunk, which gives up its buffer and no other; false changes nothing |
| `LogFlusher.FlusherThread.constructor` | src/ywlogstore.cc:25-52 | the log starts at chunk 1, with one buffer in use, and the master chunk names both chunks |
| `LogFlusher.LogFlusher` | src/ywlogstore.cc:115-128 | over any number of rounds every search for a buffer ends, the buffers in use are those of the prepared chunks, at most 15 of 16, and each round reserved what it could and then flushed every ready unit it could, advancing the position by exactly those |
| `PageSearch.SearchFloor` | include/yworderednode.h:395-410 | on a sorted page the bisection ends on the last key not above the one searched for, or on -1 |
| `PageSearch.DoubledSearchable` | include/yworderednode.h:142-156 | a sorted page with one element standing twice is sorted, and the search still finds every key |
| `OrderedPage.ShiftIn` | include/yworderednode.h:142-156 | the shift loop of insert puts the new slot at its index, and every state a reader may meet in between is the old page with one slot standing twice |
| `OrderedPage.ShiftOut` | include/yworderednode.h:420-440 | the shift loop of remove takes the slot out, and every state in between is the shortened page with one slot standing twice |
| `OrderedPage.TraceServes` | include/yworderednode.h:142-156 | in each of those states the search finds every key that was there |
| `OrderedNode.Node.Insert` | include/yworderednode.h:116-158 | succeeds exactly if record and slot fit, keeps records and slots apart, puts the key behind the last one not above it, keeps a sorted page sorted, and serves searches of a non-empty sorted page throughout; a failure changes nothing |
| `OrderedNode.Node.RemoveAt` | include/yworderednode.h:420-440 | takes out exactly the slot, and serves searches for every other key throughout |
| `OrderedNode.Node.Remove` | include/yworderednode.h:198-211 | on any page removes one entry of the key exactly if the search ends at it, on a sorted page exactly if there is one; otherwise nothing changes |
| `OrderedNode.Node.Append` | include/yworderednode.h:442-452 | succeeds exactly if record and slot fit, and puts the key last |
| `OrderedNode.Node.Alloc` | include/yworderednode.h:92-100 | takes the record's bytes from the free space exactly if its slot fits too |
| `OrderedNode.Node.BinarySearch` | include/yworderednode.h:395-410 | the loop on slots computes the bisection of the keys |
| `OrderedNode.Node.CopyNode` | include/yworderednode.h:213-227 | appends exactly the keys of the given slots, if and only if their live bytes fit |
| `OrderedNode.Node.Compact` | include/yworderednode.h:229-242 | always succeeds into a page of the same size, with the same keys and the free space of the live records |
| `OrderedNode.RunPage` | include/yworderednode.h:84-158 | over any run of appends, insertions and removals, slots and record bytes never overlap and live records stay pairwise disjoint |
| `PageSort.MergeBlocks` | include/yworderednode.h:270-289 | the merge of two neighbouring blocks of one buffer goes behind what the other buffer holds up to there |
| `PageSort.MergedInOrder` | include/yworderednode.h:270-289 | two ordered runs merge into an ordered one |
| `PageSort.MergedBag` | include/yworderednode.h:270-289 | a merge holds the slots of both runs, each as often |
| `PageSort.Pass` | include/yworderednode.h:258-290 | one pass over one buffer leaves its merged pairs of blocks, ragged last ones included, in the other |
| `PageSort.PassBlocks` | include/yworderednode.h:258-290 | a pass doubles the width of the ordered blocks |
| `PageSort.PassBag` | include/yworderednode.h:258-290 | a pass permutes the slots |
| `PageSort.Passes` | include/yworderednode.h:255-293 | with the buffers changing places after each pass, the one read from last holds an ordered permutation of the original slots |
| `PageSort.SortSlots` | include/yworderednode.h:244-296 | the page's slots, copied out and back, end as an ordered permutation while the level stays representable |
| `PageSort.Sort` | include/yworderednode.h:244-296 | a page is sorted, holds the same keys and is laid out as before |
| `PageSort.SortEndsIff` | include/yworderednode.h:258 | the level of the outer loop reaches the count in a slot type of `bits` bits if and only if the count is at most 2^(bits-2) |
| `PageSort.SortDefaultPage` | include/yworderednode.h:244-296 | on a page of at most 32 KB the loop ends for every count that fits, and the page is sorted |
| `PageSort.EndlessPage` | include/yworderednode.h:258 | a 64 KB page filled with 16385 one-byte records is valid, and no level ever reaches its count |
| `SeqLockProof.SearchLinearizable` | include/ywseqlock.h:31-68 | a search that reports success answered exactly what the search of the page at every moment of its interval gives, which on a sorted page is the greatest key not above the one asked for or else the first key, and a present key itself, with no writer there, unless the 32-bit word went all the way round |
| `SeqLockProof.AnswerNearest` | include/yworderednode.h:378-410 | the search of a sorted page answers with a key of the page: the greatest not above the one asked for, or the first if all are above |
| `SeqLockCalls.SequenceCounts` | include/ywseqlock.h:46-68 | in every state of every run the sequence is twice the number of releases, plus one while there is a writer |
| `SeqLockCalls.LockReturns` | include/ywseqlock.h:46-57 | a lock that has returned succeeded if and only if the word was even when loaded and the same at the compare-and-swap |
| `SeqLockCalls.SucceedsIff` | include/ywseqlock.h:31-44 | a search reports success if and only if the word was even at its beginning and is the same at its end |
| `SeqLockCalls.UndisturbedSucceeds` | include/ywseqlock.h:31-44 | so every search that no writer overlaps succeeds |
| `SeqLockCalls.PageIsLastWrites` | include/yworderednode.h:142-156 | in every run each slot and the count hold what was written to them last, and whoever wrote held the lock |
| `SeqLockProof.StepInv` | include/yworderednode.h:378-410 | every single-slot write and every read step keeps the invariant: one writer, only while the word is odd, and every reader on track while nothing changes |
| `SeqLockProof.StepWriters` | include/ywseqlock.h:46-68 | only a successful compare-and-swap makes a writer, and only if there was none |
| `SeqLockProof.MidKeeps` | include/yworderednode.h:398-407 | one round of a reader's bisection stays inside the slot array whatever it read, and on the way to the right answer while nothing changed |
| `BTreeRuns.Run` | include/ywbtree.h:82-147 | in any run of insertions with distinct keys and lookups, each lookup returns the value of the greatest key not above its own, or of the least key, or nothing from an empty tree |
| `BTreeRuns.BTree.Insert` | include/ywbtree.h:82-101 | adds exactly the binding and keeps the tree: intervals, separators, one height for all leaves, page capacity, no page lost or shared; the structure sequence goes up by two if and only if pages were made |
| `BTreeRuns.BTree.Find` | include/ywbtree.h:135-147 | the value of the greatest key not above the one asked for, or of the least key |
| `BTreeRuns.BTree.constructor` | include/ywbtree.h:305-316 | a new tree is one empty leaf |
| `BTreeRuns.InsertEntry` | include/ywbtree.h:82-101 | inserting into the leaf, or splitting under the structure lock, leaves a tree that holds exactly one binding more |
| `BTreeRuns.Lookup` | include/ywbtree.h:135-147 | descending and searching one leaf answers for the whole tree |
| `BTrees.SplitInsert` | include/ywbtree.h:168-227 | splits a full page and, for as long as they are full, the pages above it, up to a new root; every page ends within its capacity and the leaves hold exactly the old bindings and the pending one |
| `BTrees.Halve` | include/ywbtree.h:172-204 | the two new pages are the halves of the page as it would be with the pending entry, whichever half that went to, and the keys found for the parent are the least key of the left half and the first key of the right one |
| `BTrees.Hang` | include/ywbtree.h:217-224 | the parent takes both halves at once, or is split itself with the right half pending |
| `BTrees.ParentSlot` | include/ywbtree.h:218 | the search of the in-place update ends on the slot of the page that was split, although a leftmost separator may be out of date |
| `BTrees.ParentWhole` | include/ywbtree.h:217-223 | the updated slot and the inserted separator restore the tree, whether or not the parent has room |
| `BTrees.NewRoot` | include/ywbtree.h:206-216 | a split root gets a new root above it and the tree is one level higher |
| `BTrees.LeftmostKey` | include/ywbtree.h:161-167 | the descent to the leftmost leaf ends on the least key under the page |
| `BTrees.FindLeaf` | include/ywbtree.h:229-246 | terminates in the leaf whose interval holds the key; the stamp check never sends a lone thread back to the root |
| `BtStamps.ReturnsIff` | include/ywbtree.h:229-246 | with the sequence and the stamps as 32-bit values, the loop of a lone thread reaches a leaf if and only if every inner page on the key's way has a stamp below the sequence |
| `BtStamps.BackToRoot` | include/ywbtree.h:237-242 | where it does not, the loop comes back to the root again and again |
| `BtStamps.ReturnsBeforeWrap` | include/ywbtree.h:229-246 | so it does for every key of a stamped tree until the sequence wraps |
| `BtStamps.StuckAtWrap` | include/ywbtree.h:229-246 | and right after the wrap it does if and only if the root is a leaf |
| `BTrees.Traverse` | include/ywbtree.h:248-271 | the stack holds the path from the root to that leaf |
| `BTrees.LeafAnswers` | include/ywbtree.h:135-147 | in the leaf a search ends in, the slot it follows is the answer among all stored keys |
| `BTrees.LeafInsert` | include/yworderednode.h:116-158 | an entry put into the leaf its key belongs to keeps the tree and adds one binding |
| `BtSplit.SplitBelow` | include/ywbtree.h:191-223 | splitting any page below a parent, with both halves in the parent, leaves a tree |
| `BtSplit.SplitContents` | include/ywbtree.h:191-192 | a split moves bindings between leaves and loses none |
| `BtSplit.OneParent` | include/ywbtree.h:158-160 | a page hangs in one slot of one page only |
| `BtShape.Routed` | include/ywbtree.h:229-246 | following the searched slot stays inside the interval that holds the key |
| `FbTrees.SplitNode` | src/ywfbtree.cc:514-606 | on any well-formed tree, with recursive splits and a new root, the in-order sequence of bindings is kept, every search, also for an absent key, ends at the same binding, the tree stays well-formed with all leaves at one depth, the path stack leads to the same slot, that slot's node has room, and nothing at or below the split level changes |
| `FbTrees.SplitRoot` | src/ywfbtree.cc:557-569 | the old root's halves under a new root; the stack gets one more level |
| `FbTrees.SplitBelow` | src/ywfbtree.cc:570-602 | the parent, split first if it is full, takes both halves |
| `FbTrees.RootPath` | include/ywfbstruct.h:125-138 | pushing the new root under the stack leaves a path whose next level is the half the stack pointed into |
| `FbTrees.PathHung` | include/ywfbstruct.h:131-145 | repositioning the parent's entry and moving its index past the left half leaves a path from the root through both |
| `FbTrees.AttachHalves` | src/ywfbtree.cc:585-601 | the clone of the parent stands for it in place, in its grandparent or as the root, and the stack follows |
| `FbTrees.Cut` | src/ywfbtree.cc:529-541 | where a full node is cut, and that the slot of interest goes right exactly if it is at or behind the cut |
| `FbTrees.Find` | src/ywfbtree.cc:303-317 | for every key the data at which the search ends, which is the key's own if it is present |
| `FbTrees.FoundPresent` | src/ywfbtree.cc:303-317 | in a well-formed tree a search for a present key ends at its binding |
| `FbTrees.Traverse` | src/ywfbtree.cc:682-694 | the stack holds a path to a leaf, each node searched for the key |
| `FbUpdates.MakeRoom` | src/ywfbtree.cc:164-190 | traversal, duplicate check, and split with retry: ends after one retry at most, with the path of the search in a leaf that has room and all bindings and answers unchanged, or with nothing changed for a duplicate |
| `FbUpdates.RoomAfterSplit` | src/ywfbtree.cc:185-190 | after the split the repeated search ends in a leaf with room |
| `FbUpdates.InsertInto` | src/ywfbtree.cc:136-206 | fails exactly for a key the search ends at and then changes nothing; otherwise some levels make the tree well-formed if and only if the search ended at a smaller key, for which the smallest key decides where searches are tight, and then exactly the one binding is added, in order |
| `FbUpdates.SmallestDecides` | src/ywfbtree.cc:666-694 | where searches are tight, a search ends at a key not above its own if and only if the smallest key is not above it |
| `FbPaths.TreeSwapped` | src/ywfbtree.cc:405-418 | replacing any node of the path by a clone that fits its interval leaves a well-formed tree in which only the bindings under that node are others |
| `FbPaths.AnswerAfter` | src/ywfbtree.cc:405-418 | and every search ends where it did unless it comes by the clone |
| `FbPaths.NotOkWithout` | src/ywfbtree.cc:405-418 | and no choice of levels makes the tree well-formed if the clone is not in order |
| `FbInserts.InsertOkIff` | src/ywfbtree.cc:192-200 | cloning an absent key into the leaf its search ends in leaves a tree that some levels make well-formed if and only if the search ended at a smaller key |
| `FbInserts.InsertGrows` | src/ywfbtree.cc:192-200 | then the in-order bindings are the old ones with the new one at its place |
| `FbInserts.InsertBreaks` | src/ywfbtree.cc:192-200 | a key put behind a greater one leaves a tree that no levels make well-formed |
| `FbInserts.InsertTight` | src/ywfbtree.cc:192-200 | an insertion keeps all searches from the smallest key on ending at keys not above theirs, and keeps the smallest key |
| `FbInserts.AnswerIsFloor` | src/ywfbtree.cc:666-694 | such searches end at the greatest key that is not above the one searched for |
| `FbRemoves.RemoveFrom` | src/ywfbtree.cc:230-301 | fails exactly for an absent key and then changes nothing; the last key leaves no tree; otherwise every tree stays well-formed and loses exactly the one binding, the search for it ends at a smaller key if and only if the slot that went was not the first of its node, and tight searches stay tight if and only if it was not, or the key was the smallest |
| `FbRemoves.FreeUp` | src/ywfbtree.cc:270-286 | the loop stops at the lowest node of the path with more than one slot, or has freed the root |
| `FbRemoves.RemoveShrinks` | src/ywfbtree.cc:270-295 | freeing one-slot nodes up the path and cloning the next without its slot keeps the whole tree well-formed and takes out exactly the one binding |
| `FbRemoves.RemoveAnswers` | src/ywfbtree.cc:288-295 | where every search ends afterwards: as before, or below the slot that went, or above its own key if that slot was the first |
| `FbRemoves.RemoveTightIff` | src/ywfbtree.cc:288-295 | tight searches stay tight if and only if the slot that went was not the first of its node, or the key was the smallest |
| `FbUpdates.Reinsert` | src/ywfbtree.cc:136-301 | a removed key inserted again: some levels make the tree well-formed if and only if the key was not the first under the lowest node with more than one, and then its bindings are what they were |
| `FbUpdates.ReinsertBreaks` | src/ywfbtree.cc:136-301 | from a well-formed tree of two leaves, for any three keys, the first key of the second leaf removed and inserted again leaves a tree that is not well-formed |
| `FbRuns.InsertBelowFirst` | src/ywfbtree.cc:136-206 | into every sound tree that has keys, a key below all of them is accepted, and no levels make the tree well-formed |
| `FbRuns.FbTree.Insert` | src/ywfbtree.cc:113-206 | for every key and tree, the empty one included: true exactly for an absent key; the tree stays well-formed if and only if the search ends at a key not above, and then exactly that binding is added and soundness kept |
| `FbRuns.FbTree.TakesIff` | src/ywfbtree.cc:113-206 | in a sound tree that is so if and only if the tree is empty or has a key not above |
| `FbRuns.FbTree.Remove` | src/ywfbtree.cc:208-301 | for every key and tree: true exactly for a present key, which is then gone; the tree stays well-formed, and sound on the exact condition above |
| `FbRuns.FbTree.Find` | src/ywfbtree.cc:303-317 | the data of a present key; in a sound tree, for every other key that of the greatest key below it, or else of the smallest key |
| `FbRuns.Run` | src/ywfbtree.cc:113-317 | any run of lookups, and of insertions of keys not below all others, from an empty or sound tree and across any number of splits, answers as a map that replies with the nearest key |
| `FbRuns.RunRemovals` | src/ywfbtree.cc:208-317 | any run of removals and lookups on any well-formed tree, down to the empty one, answers as a map |
| `FbRuns.FbTree.constructor` | src/ywfbtree.cc:88-105 | a new tree is empty |
| `FbShape.Lift` | src/ywfbtree.cc:405-418 | replacing a child by a node that stands for it disturbs neither well-formedness nor the order of bindings anywhere in the tree |
| `FbShape.NewParentStands` | src/ywfbtree.cc:585-595 | the cloned parent with both halves stands for the old parent |
| `FbShape.SplitHalves` | src/ywfbtree.cc:542-548 | the halves are well-formed on either side of the separator and share exactly the node's bindings |
| `FbNode.SearchInNode` | src/ywfbtree.cc:666-680 | the halving loop returns the last slot whose key is not above the searched one, or 0 |
| `FbNode.InsertSlots` | src/ywfbtree.cc:426-447 | cloning with an insertion is an insertion into the used slots |
| `FbNode.RemoveSlots` | src/ywfbtree.cc:449-468 | cloning with a removal is a removal from the used slots, and keeps the node in order |
| `FbNode.InsertOrdered` | src/ywfbtree.cc:426-447 | an insertion behind the searched slot keeps the node in order if and only if the key is above the node's first key |
| `FbNode.LeftSlots` | src/ywfbtree.cc:544-545 | the left half holds exactly the slots before the cut |
| `FbNode.RightSlots` | src/ywfbtree.cc:547-548 | the right half holds exactly the slots from the cut on |
| `SkipLists.SkipList.Search` | include/ywskiplist.h:311-334 | over towers of any shape terminates with the predecessor on every level, the bottom one being what a scan of the bottom level finds |
| `SkipLists.SkipList.Insert` | include/ywskiplist.h:97-149 | every level from the drawn height down gains exactly the key, and the others nothing; INIT_KEY, LAST_KEY and a present key change nothing; levels stay strictly sorted, nested and linked up and down |
| `SkipLists.SkipList.Remove` | include/ywskiplist.h:151-208 | a present key leaves every level, and levels stay strictly sorted, nested and linked up and down; INIT_KEY changes nothing; some choice of levels makes the list well-formed afterwards if and only if the key was not LAST_KEY |
| `SkipLists.SkipList.Find` | include/ywskiplist.h:258-261 | the least stored key not below the target, or LAST_KEY |
| `SkipLists.SkipList.GetNewLevel` | include/ywskiplist.h:245-256 | counts modulo 2^64 and returns the greatest height whose mask the counter covers |
| `SkipLists.SkipList.constructor` | include/ywskiplist.h:272-294 | a new list has empty, linked levels |
| `SkipLists.SearchDown` | include/ywskiplist.h:311-334 | the loop along and down finds the predecessor on every level |
| `SkipLists.InsertKey` | include/ywskiplist.h:110-143 | the tower is built exactly if the key is new |
| `SkipLists.BuildTower` | include/ywskiplist.h:127-143 | the list is valid after every node, and ends with the key on exactly the lowest levels of the given number |
| `SkipLists.CheckGaps` | include/ywskiplist.h:114-124 | without interference the second look finds every gap still open, so the loop runs once |
| `SkipLists.Attempt` | include/ywskiplist.h:163-186 | a round of remove asks for a retry if and only if the key is absent and not LAST_KEY; otherwise it has the whole tower and the predecessor on each of its levels |
| `SkipLists.RemoveKey` | include/ywskiplist.h:188-199 | unlinking bottom-up takes the tower out of its levels, and no other level had the key; the result is well-formed for some choice of levels if and only if the key was not LAST_KEY |
| `SkipRuns.RunList` | include/ywskiplist.h:97-208 | any legal run from a new list is a run on a sorted set: each search finds the least key not below its target |
| `SkipLast.RemoveLastBreaks` | include/ywskiplist.h:188-199 | once the tail of a level is unlinked, no set of nodes is a level between its head and tail |
| `SkipLast.NoLevelsLeft` | include/ywskiplist.h:188-199 | after the whole call with LAST_KEY, whatever the unlinks on the other levels did, no choice of levels makes the list well-formed |
| `SkipRows.KeysNested` | include/ywskiplist.h:272-294 | the keys of every level are among those of the bottom level |
| `SkipRows.NotAbove` | include/ywskiplist.h:172-186 | above its tower a key is on no level |
| `SkipLevels.AboveExactly` | include/ywskiplist.h:245-256 | of the first n calls exactly (n + 1) / 8^i returned a height above i, for every 0 < i below the number of levels, also when the counter wraps |
| `SkipLevels.TotalBound` | include/ywskiplist.h:245-256 | n calls ask for at most n + (n + 1) / 7 nodes in all |
| `DList.Store.Attach` | include/ywsl.h:26-29 | the node becomes the first of the list, and no other node's links change |
| `DList.Store.Detach` | include/ywsl.h:31-33 | exactly the node leaves its list |
| `DList.Store.Pop` | include/ywsl.h:35-43 | the first node, which leaves the list, or nothing from an empty one |
| `DList.Store.Bring` | include/ywsl.h:45-58 | the whole other list goes to the front and the other is empty, if and only if it was not empty; after an empty one no list can be followed from the head |
| `DList.BringRings` | include/ywsl.h:48-58 | a front segment of one list moves to the front of another, and the rest stays |
| `PooledLists.Pool.Push` | include/ywpool.h:86-100 | the node comes first in its thread's list (in the shared one without private lists); at the threshold, with the lock free, exactly the first PRIVATE_COUNT nodes, or all, go to the front of the shared list; no other list changes and counts stay lengths |
| `PooledLists.Pool.Pop` | include/ywpool.h:102-118 | nothing if and only if the thread's list is empty and the shared one is empty or its lock taken (without private lists: the shared one is empty); otherwise the first node of the thread's list, or of the shared one, of which up to PRIVATE_COUNT then moved over; the node returned is in no list any more |
| `PooledLists.PopGivesRight` | include/ywpool.h:102-118 | the same of the lists as values, for every thread, configuration and lock outcome |
| `PooledLists.PushPutsRight` | include/ywpool.h:86-100 | the same for a push |
| `PooledLists.Pool.constructor` | include/ywpool.h:74-78 | every slot starts as an empty list with count 0 |
| `PooledLists.Pool.PushSlot` | include/ywpool.h:14-17 | one slot gains the node at its front |
| `PooledLists.Pool.PopSlot` | include/ywpool.h:19-26 | one slot loses its first node |
| `PooledLists.Pool.BringSlot` | include/ywpool.h:38-44 | the first k nodes move between two slots together with their count |
| `PooledLists.Pool.BringFirst` | include/ywpool.h:46-61 | the walk stops at the last node or after n, and exactly those nodes move |
| `PooledLists.Pool.MoveToShared` | include/ywpool.h:164-182 | the first PRIVATE_COUNT nodes, or all, move if and only if the lock was free |
| `PooledLists.Pool.BringFromShared` | include/ywpool.h:184-193 | the same in the other direction |
| `PooledLists.Pool.Tail` | include/ywpool.h:170-177 | the walk ends on the last of the first n nodes |
| `PooledLists.Pool.Validation` | include/ywpool.h:28-36 | walking a list always finds its recorded count |
| `PoolRuns.Conservation` | include/ywpool.h:86-118 | over any run by any threads, for every node, what is in the lists and what was handed out is what was there and what was pushed |
| `PoolRuns.HandedOutOncePerPush` | include/ywpool.h:86-118 | at every point of a run a node has been handed out as often as it was pushed, or once less |
| `PoolRuns.RunPool` | include/ywpool.h:86-118 | the linked lists follow that run step by step |

## Left out

- Hash probing of `ywBuffCache`: the cache is a map from chunk id to buffer; nothing is claimed about which registered ids a lookup finds.
- Real key comparison (`ywLong`, `ywBarray`): keys are integers in their usual order.
- Concurrent use of `ywBTree`, of the fixed-size B-tree, of the red-black tree, of the skip list and of the page's writers beyond the sequence lock: these models are single-threaded.
- `ywBTree` after removals, with records of different sizes, or when its fixed-size stacks or the allocator run out.
- Returning freed nodes of the fixed-size B-tree to its pool: a freed node is out of the tree and not used again.
- The root split of the fixed-size B-tree does not free the old root; node counts are not part of the model.
- Memory reuse in the trees: a freed node or page is not handed out again within one run, which the epoch protocol is there to delay.
- Wrap-around of the 64-bit log position and of the 64-bit global time.
- The locks of the skip list and of the pool are their outcome: they are always free for a lone thread in the skip list, and an arbitrary answer in the pool.
- How often `lock` of the epoch protocol tries again: after each failed attempt it may go on or give up, which covers every timeout.
- `reload_master` and `read_master_chunk`: what is written to the master chunk is modelled, as a value; its byte format and reading it back are not.
- `ywQueueHead`, `ywWorkerPool`, `ywTimer`, `ywWaitEvent`, `ywFSNode`, files, threads, printing, symbols and configuration.
- SkipLists.SkipList.Remove: leaves out an absent key, for which the program does not return (`SkipLists.Attempt`).
- SkipLists.SkipList.Insert: does not model the key and node counters.
- FbTrees.SplitNode: models a split for which memory and the free list suffice.
- BTrees.FindLeaf: the structure sequence does not wrap here, nor in `BTreeRuns`; what the 32-bit word (include/ywbtree.h:326) does to a lookup is stated by `BtStamps.ReturnsIff`.
- BTreeRuns.BTree.Insert: leaves out a key that is already stored, for which the program adds a second entry beside the first.
- BTreeRuns.InsertEntry: leaves out a key that is already stored, as above.
- BTrees.SplitInsert: a page is the sequence of its entries; how the page stores them is the subject of `OrderedNode`.
