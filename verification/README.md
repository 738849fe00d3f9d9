# Verification models

Dafny models of the algorithms at the heart of these services, with proofs of what they promise.
`dafny verify dfyconfig.toml` checks everything. Each module follows one part of the code.

**The run queue of nivisor.** `MemoryPool` is the block pool with its lazily initialised free
list. `RedBlackTree` is the tree of scheduling entities on node objects with parent pointers;
`RedBlackModel` holds the functional trees, the one-hole contexts and the link predicates that its
methods are proved against, and `RedBlackRun` states the result for whole sequences of operations.
`FairQueue` says what one turn of the scheduler does to its queue, as a function of the queue and
of what the threads will do, and proves bounded unfairness, conservation of tasks and freedom from
starvation over whole runs; `FairAccount` says the same turn again from the steps and positions of
the threads alone, and what it charges for. `CfsScheduler` is the scheduler on objects (entities and threads are in
`Entities`), and every turn of it is proved to be a turn of `FairQueue`.

**Copy-on-write memory of nivisor.** `AddressSpace` says where areas lie and where the scan puts a
new one. `CowModel` describes a family of forked address spaces: areas, shared backing objects and
the memory file, with the invariant that only copy-on-write areas share backing and that different
backing lies apart. `CowMemory` has the managers themselves (translation, splitting on write,
forking, placing new areas), `UserMemory` the page-by-page copies in and out, and `CowFamily` the
steps of one process of a family as the others see them. `SeparateMemory` defines what processes
with memories of their own answer to any sequence of operations, with an account of the file, and
`CowRun` proves that a family of forked processes, from its first process on, gives exactly these
answers, whether or not the file has room (`CowLedger` relates shared objects to the account).
`MemoryRuns` says when nothing is ever refused, and `FullFile` what a full file can do.

**Perplexity.** `RoomGraph` and `GameGenerator` are the random generation of the map, for any
outcome of the draws, and `GameDraws` says which rooms and exits these give; `RoomCodes` (with `Bits`) the room codes of display, keypad and script; and
`WheelLock` the combination lock.

**Hashes.** `Sha512` and `Sha1` are the two streaming implementations against their definitions in
FIPS 180-4; `BlockHash` and `ByteSeq` hold what they share. `Numbers` and `Sums` are the arithmetic
that several parts use.

**The regular-expression matcher of router-pi** is in `Regex`, with the language of a compiled
pattern defined by concatenation.

**The mambo channel** is in `MamboCipher`, `MamboInstr` and `MamboChannel`: key set-up, the stream
cipher, encoding and parsing, and both ends of a conversation.

Conventions. Objects whose fields the code updates are classes; ghost copies of their fields in
maps keep the reasoning about links free of the heap. What threads do, random draws and messages
from the network are parameters: a function giving the outcome of every step, a finite sequence of
draws (generation that runs out of them is unfinished), a sequence of messages.

Where code and expectation differ, the model follows the code and says exactly when it is right:

- A write to a copy-on-write area that the file has no room to copy replaces the area's object by
  an empty one before it finds out, so the contents are lost. `TranslateAddr` keeps every byte
  exactly when this does not happen, and `LossReached` is a run in which it does, under any limit.
- The scan for a free address can stop on a conflict at the upper bound, and only the first page is
  checked afterwards. `NewVmaAnywhere` says exactly when the areas stay apart, `OverlapReached` is a
  run after which they do not.
- The SHA-1 update adds lengths in 32 bits: it works exactly when pending bytes plus data stay below
  2^32. SHA-512 sets the high half of the length to zero: `PadsAgree`.
- Sorting a room's exits loses one exactly when two share a direction: `SortLosesNone`; generation
  never makes such a room.
- The server ignores the lowest bit of an opcode, so LD4, ST4 and PUSH are not run as such:
  `ParsesBackIffEven`. A read-buffer length of 252 or more wraps: `ReadBufferTakes`.
- The program's heap has 21 pool blocks; `ThirtyBlocksFit` and `ThirtyBlocksNeeded`: 30 are enough,
  fewer are not.
- The script's test for -1 after a search is never reached: the search raises an exception instead.

## Model

| member | source | states |
|---|---|---|
| MemoryPool.ChainFromHead | nivisor/src/pool.cpp:169-179 | Following the links from the head gives the free blocks in order and then the first uninitialised index: the chain visits each once. |
| MemoryPool.EveryFreeBlockOnChain | nivisor/src/pool.cpp:144-196 | An initialised block is on the chain exactly when no client holds it. |
| MemoryPool.Popped | nivisor/src/pool.cpp:169-179 | Handing out the head keeps the free list right for one more live block; the head was not live. |
| MemoryPool.Pushed | nivisor/src/pool.cpp:182-196 | Giving a live block back puts it at the head of a right free list. |
| MemoryPool.Untouched | nivisor/src/pool.cpp:144-196 | Whatever a client writes to the first word of a block it holds, the free list stays right. |
| MemoryPool.Refilled | nivisor/src/pool.cpp:126-142 | Blocks initialised with consecutive links form a right free list. |
| MemoryPool.MemPool.constructor | nivisor/src/pool.cpp:7-37 | The pool has as many blocks as fit behind the header, none live. |
| MemoryPool.MemPool.GetBlockN | nivisor/src/pool.cpp:47-53 | The index of block n is n again. |
| MemoryPool.MemPool.InitMoreBlocks | nivisor/src/pool.cpp:111-142 | Initialises as many blocks as are left, at most ten; live blocks are not written. |
| MemoryPool.MemPool.AllocBlock | nivisor/src/pool.cpp:144-180 | Never returns a live block, fails only when all blocks are live, and writes no live block. |
| MemoryPool.MemPool.FreeBlock | nivisor/src/pool.cpp:182-196 | The block is no longer live and is the next to be handed out. |
| MemoryPool.MemPool.ClientWrite | nivisor/src/pool.cpp:144-196 | A client write to a live block leaves the pool valid. |
| RedBlackModel.RotatedLeftOrder | nivisor/src/myrb.cpp:346-491 | A left rotation keeps the in-order sequence. |
| RedBlackModel.RotatedRightOrder | nivisor/src/myrb.cpp:496-576 | A right rotation keeps the in-order sequence. |
| RedBlackModel.LeftTurnConfig | nivisor/src/myrb.cpp:346-491 | The pointer updates of a left rotation leave parent, child and side links that spell out the rotated tree in its place. |
| RedBlackModel.RightTurnConfig | nivisor/src/myrb.cpp:496-576 | The same for a right rotation. |
| RedBlackModel.PaintedConfig | nivisor/src/myrb.cpp:172-223 | Recolouring a node changes nothing else. |
| RedBlackModel.CorrectedRepairs | nivisor/src/myrb.cpp:172-268 | One repair step either ends with no red node below a red one, or moves the only violation two levels up; black heights stay equal. |
| RedBlackModel.CorrectedKeeps | nivisor/src/myrb.cpp:172-268 | A repair step keeps the in-order sequence and the set of nodes. |
| RedBlackModel.LeafInOrder | nivisor/src/myrb.cpp:271-305 | Hung where the keys before are smaller and those after are not, the new node stands just before the first key not smaller than its own. |
| RedBlackModel.RedSiblingRepairs | nivisor/src/myrb.cpp:774-933 | Red sibling: after the rotation the path is still one black short, with a black sibling and a red parent. |
| RedBlackModel.NearNephewRepairs | nivisor/src/myrb.cpp:774-933 | Black sibling with only the near nephew red: the rotation leaves a red far nephew, the path still one black short. |
| RedBlackModel.FarNephewRepairs | nivisor/src/myrb.cpp:774-933 | Red far nephew: the rotation makes all black heights equal again. |
| RedBlackModel.BlackNephewsRepair | nivisor/src/myrb.cpp:774-933 | Both nephews black: recolouring ends the repair at a red parent, or passes the missing black to the parent. |
| RedBlackModel.SplicedWhole | nivisor/src/myrb.cpp:632-771 | Replacing the leftmost black node by its red right child, recoloured, leaves a red-black tree. |
| RedBlackModel.WholeWithout | nivisor/src/myrb.cpp:632-771 | Taking out the doomed leaf after the repair leaves a red-black tree of the other nodes. |
| RedBlackModel.LeftmostOrder | nivisor/src/myrb.cpp:620-630 | The leftmost node is the first of the in-order sequence. |
| RedBlackModel.LeftmostCases | nivisor/src/myrb.cpp:632-771 | The leftmost node of a red-black tree is red without children, black with one red right child, or black without children. |
| RedBlackModel.HeightLogarithmic | nivisor/src/myrb.cpp:226-243 | The height is at most twice the binary logarithm of size + 1. |
| RedBlackModel.GoodIsBalanced | nivisor/src/myrb.cpp:226-243 | In a red-black tree every path down has the same number of black nodes. |
| RedBlackModel.InsertSplits | nivisor/src/myrb.cpp:271-305 | Insertion goes just before the first key that is not smaller; everything else stays in order. |
| RedBlackModel.InsertSorted | nivisor/src/myrb.cpp:271-341 | Insertion keeps the sequence sorted and adds one element. |
| RedBlackModel.InsertKeepsOthers | nivisor/src/myrb.cpp:271-341 | Insertion loses and duplicates nothing. |
| RedBlackTree.RBTree.constructor | nivisor/src/myrb.cpp:950-955 | An empty valid tree over a fresh pool. |
| RedBlackTree.RBTree.LeftRotate | nivisor/src/myrb.cpp:346-491 | Links, root and sides spell out the left-rotated tree in its place. |
| RedBlackTree.RBTree.RightRotate | nivisor/src/myrb.cpp:496-576 | The same to the right. |
| RedBlackTree.RBTree.RightLeftRotate | nivisor/src/myrb.cpp:593-597 | The two rotations one after the other, seen from the grandparent. |
| RedBlackTree.RBTree.LeftRightRotate | nivisor/src/myrb.cpp:613-617 | The mirror image. |
| RedBlackTree.RBTree.Rotate | nivisor/src/myrb.cpp:130-169 | Which rotation the two sides select, with the result as one tree in its place. |
| RedBlackTree.RBTree.CorrectTree | nivisor/src/myrb.cpp:172-223 | A red aunt recolours the grandparent and its children; otherwise the grandparent is rotated. |
| RedBlackTree.RBTree.CheckColor | nivisor/src/myrb.cpp:246-268 | The recursive repair ends with a red-black tree of the same nodes in the same order. |
| RedBlackTree.RBTree.AddBelow | nivisor/src/myrb.cpp:271-305 | The descent hangs the node in its place in the order, keeping the links of all others. |
| RedBlackTree.RBTree.InsertNode | nivisor/src/myrb.cpp:309-341 | A red-black tree again, with the node inserted in order. |
| RedBlackTree.RBTree.Add | nivisor/src/myrb.cpp:309-341 | One more node, in one more block, just before the first key not smaller; the tree, its size and the pool stay valid. |
| RedBlackTree.RBTree.AllocNode | nivisor/src/myrb.cpp:937-942 | The node is placed in a block that no other node has. |
| RedBlackTree.RBTree.DeleteNode | nivisor/src/myrb.cpp:945-948 | The block of exactly this node becomes free. |
| RedBlackTree.RBTree.GetLeftmostNode | nivisor/src/myrb.cpp:620-630 | The node with nothing before it, or null for an empty tree. |
| RedBlackTree.RBTree.FixDB | nivisor/src/myrb.cpp:774-933 | With the path to the node one black short, the repair ends with equal black heights and the node still in its place. |
| RedBlackTree.RBTree.MendRedSibling | nivisor/src/myrb.cpp:774-933 | Red sibling: recoloured and rotated above the parent, after which the repair starts again below a red parent. |
| RedBlackTree.RBTree.MendBlackNephews | nivisor/src/myrb.cpp:774-933 | Both nephews black: the sibling becomes red, and the repair ends at a red parent or goes on at a black one. |
| RedBlackTree.RBTree.TakeOut | nivisor/src/myrb.cpp:632-771 | Each way of taking the leftmost node out leaves a red-black tree of the others, in order. |
| RedBlackTree.RBTree.RemoveLeftmostNode | nivisor/src/myrb.cpp:632-771 | Returns the first node of the order and leaves exactly the rest; null exactly for an empty tree. |
| RedBlackTree.RBTree.NumBlackNodes | nivisor/src/myrb.cpp:226-243 | Gives the common number of black nodes, and reports a mismatch exactly when two paths differ. |
| RedBlackTree.RBTree.OneBlockEach | nivisor/src/myrb.cpp:935-948 | With nothing detached there are as many live blocks as queued nodes. |
| RedBlackRun.KeysInserted | nivisor/src/myrb.cpp:309-341 | On keys, insertion is insertion into a sorted list ahead of equal keys. |
| RedBlackRun.Replay | nivisor/src/myrb.cpp:309-341 | After any sequence of insertions and removals from the empty tree: a red-black tree, the removed keys and the remaining keys are those of the sorted list, and the height is logarithmic. |
| FairQueue.TaskKeeps | nivisor/src/scheduler.cpp:160-217 | Running one thread keeps the queue sorted, within its bounds, and the number of tasks right. |
| FairQueue.TurnKeepsFair | nivisor/src/scheduler.cpp:150-243 | One turn keeps all vruntimes within one slice of the smallest, which does not decrease; no idle entities; tasks counted right and at most 30. |
| FairQueue.RunIsFair | nivisor/src/scheduler.cpp:150-243 | The same at every head of the run loop, whatever the threads do, including splits and new entities. |
| FairQueue.StartIsFair | nivisor/src/main.cpp:246-261 | The state the program starts in satisfies the invariant. |
| FairQueue.TotalInsert | nivisor/src/scheduler.cpp:150-243 | Queueing an entity adds exactly its threads to the total. |
| FairQueue.TurnServes | nivisor/src/scheduler.cpp:157-230 | A turn of another entity strictly reduces what is ahead of a waiting one. |
| FairQueue.NoStarvation | nivisor/src/scheduler.cpp:157-230 | In a stretch of (others) x (slice + 1) turns without setsid, and with no more threads in an entity than steps in a slice, every queued entity is picked, unchanged until then; what happens after the stretch does not matter. |
| FairQueue.AlwaysRoomy | nivisor/src/scheduler.cpp:157-175 | With a slice of at least 30 no entity ever has more threads than steps to share. |
| FairQueue.ThirtyBlocksFit | nivisor/src/syscall.cpp:24-40 | A pool of 30 blocks is never exhausted: setsid is refused in time. |
| FairQueue.ThirtyBlocksNeeded | nivisor/src/syscall.cpp:24-40 | With fewer blocks some behaviour of the threads exhausts the pool within two turns. |
| FairAccount.ThreadRuns | nivisor/src/scheduler.cpp:160-217 | The run of one thread from the steps and positions alone: it stops at the first exit, fault or granted setsid or after its share; its entity pays for every step but that one; what it split off, and it itself after a success, wait at the end of the queue in order; a granted setsid moves it to a new entity at the old vruntime; the tasks are counted accordingly. |
| FairAccount.TurnRuns | nivisor/src/scheduler.cpp:157-243 | A turn runs each thread of the first entity once, in order, for the slice divided by how many they are, and then queues the entity before the first one whose vruntime is not smaller, or drops it. |
| FairAccount.TurnCharged | nivisor/src/scheduler.cpp:172-217 | Over a turn the vruntime of the entity grows by the number of steps that neither exited nor faulted, less the granted setsids; of the setsids as many are granted as there is room for below 29. |
| FairAccount.QuietTurnCharged | nivisor/src/scheduler.cpp:172-217 | In a turn without setsid it grows by exactly the number of steps that neither exited nor faulted. |
| FairAccount.TurnUninterrupted | nivisor/src/scheduler.cpp:157-217 | n threads that do not stop use n x (slice / n) steps, all charged to their entity; the others stay as they are. |
| FairAccount.RunRuns | nivisor/src/scheduler.cpp:150-243 | Every turn of a run is such a turn of its first entity. |
| FairAccount.RunCharged | nivisor/src/scheduler.cpp:150-243 | Over any number of turns, what was charged and the number of entities created are together the number of steps that neither exited nor faulted. |
| FairAccount.QuietRunCharged | nivisor/src/scheduler.cpp:150-243 | Without setsid no entity is created and what was charged is exactly that number. |
| FairAccount.RunUninterrupted | nivisor/src/scheduler.cpp:150-243 | While no thread stops, every turn of a run takes n x (slice / n) steps for the n threads of its first entity and charges them to it. |
| CfsScheduler.BookInsert | nivisor/src/scheduler.cpp:99-131 | Queueing an entity with threads nobody else has keeps every thread in exactly one queue, that of its own entity. |
| CfsScheduler.BookRemove | nivisor/src/scheduler.cpp:160 | Taking the first entity off leaves the others and their threads as they were. |
| CfsScheduler.CFSScheduler.constructor | nivisor/src/scheduler.cpp:74-92 | An empty queue, no tasks, no pending entity. |
| CfsScheduler.CFSScheduler.SwitchAndExec | nivisor/src/syscall.cpp:24-40 | One step of a thread: splits below 30 tasks, setsid below 29 queued entities with the vruntime inherited, exits and faults. |
| CfsScheduler.CFSScheduler.ScheduleClone | nivisor/src/scheduler.cpp:99-131 | A clone joins the queue of the entity it inherited; the abort at more than 30 tasks is not reached. |
| CfsScheduler.CFSScheduler.ScheduleThread | nivisor/src/scheduler.cpp:99-131 | A thread with an entity of its own puts that entity into the tree under its vruntime, with itself as the only thread. |
| CfsScheduler.CFSScheduler.RunSlice | nivisor/src/scheduler.cpp:172-188 | Up to the share of steps, ended early by an exit or a fault; the last result code is kept. |
| CfsScheduler.CFSScheduler.SettleTask | nivisor/src/scheduler.cpp:189-214 | The thread goes to the back of its queue, moves to its new entity, or is dropped and uncounted. |
| CfsScheduler.CFSScheduler.RunTask | nivisor/src/scheduler.cpp:160-217 | One thread of the entity runs as the model says and as its steps demand: where it stops, what its entity pays, who waits where afterwards; every invariant of queue, tree and pool holds again. |
| CfsScheduler.CFSScheduler.TakeLeftmost | nivisor/src/scheduler.cpp:160 | The entity with the smallest vruntime comes off the tree and keeps its node block. |
| CfsScheduler.CFSScheduler.FinishTurn | nivisor/src/scheduler.cpp:219-243 | The block of the old node is freed and an entity with threads left is queued again under its new vruntime. |
| CfsScheduler.CFSScheduler.RunTurn | nivisor/src/scheduler.cpp:157-243 | One turn of the objects is one turn of the model, with each thread of the entity run in order and charged for its steps. |
| CfsScheduler.CFSScheduler.Run | nivisor/src/scheduler.cpp:150-243 | Any number of turns of the run loop is that many turns of the model, with the slice fixed at the start. |
| CfsScheduler.CFSScheduler.Launch | nivisor/src/main.cpp:246-249 | One entity with one thread, one task; the fairness invariant holds. |
| CfsScheduler.CFSScheduler.OneBlockEach | nivisor/src/scheduler.cpp:150-243 | The live blocks of the pool are exactly those of the queued nodes and of the node of the running entity. |
| CfsScheduler.CFSScheduler.EachThreadOnce | nivisor/src/scheduler.cpp:99-131 | Every live thread sits in exactly one place of exactly one queue, that of the entity it is charged to. |
| CfsScheduler.RunProgram | nivisor/src/main.cpp:198-261 | From the start of the program, after any number of turns: within one slice, tasks counted right and at most 30, every step paid for once but for exits, faults and granted setsids, the run of the model, and one live block per queued node. |
| CowModel.GrowKeeps | nivisor/src/mm.cpp:187-205 | Backing given on first use changes no byte of any area, and no two objects overlap. |
| CowModel.WriteKeeps | nivisor/src/mm.cpp:63-107 | A write into one backing object is seen through no other. |
| CowModel.MoveKeeps | nivisor/src/mm.cpp:251-254 | An area moved to an object of its own keeps the family sound; other areas are untouched. |
| CowModel.ShareKeeps | nivisor/src/mm.cpp:41-61 | A second area for the object of a copy-on-write area reads the same bytes and keeps the family sound. |
| CowModel.WriteIsolated | nivisor/src/mm.cpp:224-270 | A write through an area that is not copy-on-write changes that area and no other in any process. |
| CowModel.WroteChunk | nivisor/src/ctx.cpp:357-371 | After a chunk within one page the process sees the data there and everything else as before. |
| CowModel.OtherSeesTheSame | nivisor/src/mm.cpp:532-567 | A process that shares no area with the writer reads the same at every address. |
| AddressSpace.NoConflictIsFree | nivisor/src/mm.cpp:114-142 | A scan that meets no area at any of its pages has found a stretch free of all areas. |
| AddressSpace.ScanFindsRoom | nivisor/src/mm.cpp:109-144 | The scan ends; without a conflict, or with no area beyond the bound, what it returns is free. |
| AddressSpace.FirstPageOnly | nivisor/src/mm.cpp:284-287 | Checking the first page alone is enough exactly when no area starts further inside. |
| AddressSpace.ScanNear | nivisor/src/mm.cpp:109-144 | The scan ends where it started or at most one area length past the end of some area. |
| AddressSpace.ConflictIsFirst | nivisor/src/mm.cpp:114-142 | A conflict is the area at the first of the probed pages that is not free; without one all probed pages are free. |
| AddressSpace.ScanTrail | nivisor/src/mm.cpp:109-144 | Where the scan ends: each guess is past the one before by the length of the first area in its way, and the last has nothing in its way or is at or past the bound. |
| AddressSpace.ChosenAnswers | nivisor/src/mm.cpp:274-290 | A request is answered for its own address, or for the place where the guesses end unless that is the upper bound: there, unless an area holds it. |
| AddressSpace.ScanFits | nivisor/src/mm.cpp:109-144 | What the scan returns, if its first page is free, fits exactly when there was no conflict or no area starts further inside. |
| AddressSpace.LowFits | nivisor/src/mm.cpp:109-144 | While all areas and the start of the scan lie below the upper bound, the result always fits. |
| AddressSpace.ScanCanOverlap | nivisor/src/mm.cpp:109-144 | With an area beyond the bound the result can overlap it and still pass the check of its first page. |
| CowModel.AreaKey | nivisor/src/mm.cpp:146-177 | The area an address is looked up in is the one the layout has there. |
| CowModel.AddToMap | nivisor/src/mm.cpp:274-303 | The areas stay apart exactly when the new one fits as a whole. |
| CowModel.CloneSeesTheSame | nivisor/src/mm.cpp:532-561 | A cloned address space reads the same as the original at every address. |
| CowMemory.PhysMemoryManager.FindBackingMemSpace | nivisor/src/mm.cpp:333-355 | The file grows by zeros at its end, or stays as it is when the limit would be passed. |
| CowMemory.PhysMemoryManager.MapPmaIntoHost | nivisor/src/mm.cpp:187-219 | Succeeds exactly when the object has backing or the file has room; contents do not change. |
| CowMemory.MemoryManager.CopyPmaForWrite | nivisor/src/mm.cpp:63-107 | A private copy of the bytes exactly when the file has room for what is needed; otherwise an empty object. |
| CowMemory.MemoryManager.VmaForAddr | nivisor/src/mm.cpp:146-177 | The one area that holds the page, by its key or by search; null exactly when there is none. |
| CowMemory.MemoryManager.TranslateAddr | nivisor/src/mm.cpp:224-270 | Succeeds exactly when area, permission and room allow; gives the place in the file; never changes another area; keeps all bytes exactly unless a failed split loses a backed non-zero area; and which objects it makes and gives a place, and how far the file grows. |
| CowMemory.MemoryManager.NextFreeAddr | nivisor/src/mm.cpp:109-144 | Ends, with the address the scan is specified to end at. |
| CowMemory.MemoryManager.NewVma | nivisor/src/mm.cpp:274-303 | Which of the three outcomes, told by the place asked for or where the guesses end; the new zeroed area and its owner; and the address space stays valid exactly when the area fits. |
| CowMemory.MemoryManager.NewVmaAnywhere | nivisor/src/mm.cpp:274-303 | A request for whole pages at address 0: the areas stay apart exactly when the scan met no conflict or none starts further inside than the page checked; always while everything lies below the upper bound; and the start of the next scan stays whole pages. |
| CowMemory.OverlapReached | nivisor/src/mm.cpp:109-144 | Requests after which two areas overlap: the scan stopped on a conflict at the upper bound, with an area placed beyond it; none asks for more than a system call allows. |
| CowMemory.MemoryManager.CloneCOW | nivisor/src/mm.cpp:532-567 | The child has a clone of every area, reads the same, owns its areas alone; nobody's bytes change; original and clone share the object of every area, both copy-on-write. |
| UserMemory.PageLeft | nivisor/src/ctx.cpp:307-308 | The rest of the page comes out right even where the rounded address wraps. |
| UserMemory.WriteToUser | nivisor/src/ctx.cpp:338-375 | Success: exactly the data at the destination; failure: exactly the bytes before the first page that cannot be translated; other processes see no difference. |
| UserMemory.ReadFromUser | nivisor/src/ctx.cpp:300-336 | The bytes the process sees, up to the first page that cannot be translated, with the rest counted; nobody sees a change. |
| UserMemory.WriteThenRead | nivisor/src/ctx.cpp:300-375 | What was written is read back whole, none left, across pages and areas, shared or not. |
| CowFamily.OtherKept | nivisor/src/mm.cpp:224-270 | A process whose areas the writer does not have reads the same at every address. |
| CowLedger.AccessedMirrors | nivisor/src/mm.cpp:63-107 | What an access does to shared objects is what it does to the account that separate memories keep of the file. |
| CowLedger.TranslationTouches | nivisor/src/mm.cpp:224-270 | A permitted translation touches exactly the cell of the area at the address, and succeeds exactly when the account has room. |
| UserMemory.ChunkBooked | nivisor/src/ctx.cpp:300-375 | Each chunk of a copy takes the access one page further in the account, or ends it where the account does. |
| CowFamily.Write | nivisor/src/ctx.cpp:338-375 | The bytes up to the page that stops it are stored, the writer sees exactly those, and zeros in an area that could not be split off; how far it gets and what it takes of the file is what the account says; no other process sees a difference. |
| CowFamily.Read | nivisor/src/ctx.cpp:300-336 | What the process reads, exactly as far as the account says; nothing changes for anybody. |
| CowFamily.Fork | nivisor/src/mm.cpp:532-567 | The new process reads everything its parent reads, through areas in the same places with the same objects, all copy-on-write; nothing changes for the others. |
| CowFamily.NewArea | nivisor/src/mm.cpp:274-303 | A process that maps an area which fits reads zeros there and everything else as before, the others notice nothing, and the family stays one; it does not exactly when the area does not fit. |
| MemoryRuns.AccessMay | nivisor/src/ctx.cpp:300-375 | An access stops before the first byte that may not be used. |
| MemoryRuns.AccessOwes | nivisor/src/mm.cpp:333-355 | The file with all that objects and copies may still take is the same after an access, and if it stays within the limit, the access stops only where it is not permitted and loses nothing. |
| MemoryRuns.NeverShort | nivisor/src/ctx.cpp:300-375 | With a file as large as the operations can need, reads and writes go exactly as far as the areas permit and nothing is lost. |
| MemoryRuns.AlwaysPlaced | nivisor/src/mm.cpp:109-144 | As long as requests are for whole pages at address 0, of at most the length a system call allows, and the bound is far enough, every one is met and none makes areas overlap. |
| CowRun.WriterHolds | nivisor/src/ctx.cpp:338-375 | A write does to what the process reads what it does to a separate memory, refused or not. |
| CowRun.DoWrite | nivisor/src/ctx.cpp:338-375 | A write gives the answer of separate memories and agrees with them afterwards. |
| CowRun.DoRead | nivisor/src/ctx.cpp:300-336 | A read gives exactly the bytes of separate memories, no more and no fewer. |
| CowRun.DoFork | nivisor/src/mm.cpp:532-567 | A fork agrees with copying everything. |
| CowRun.DoMap | nivisor/src/mm.cpp:274-303 | A request ends up exactly where the separate memory has it, or is refused for the same reason; afterwards both agree, unless it misfits. |
| CowRun.Replay | nivisor/src/mm.cpp:41-303 | In any sequence of forks, new areas, reads and writes, whether they succeed or not, every answer is the one that separate memories, copied whole at each fork, give: where regions are placed, how far reads and writes get, what they read. It ends early exactly at a request that misfits. |
| CowRun.RunProcesses | nivisor/src/mm.cpp:14-303 | The same from the first process with an empty file; with a file as large as needed nothing is ever stopped by it, and four million ordinary operations all take place. |
| FullFile.SplitLoses | nivisor/src/mm.cpp:63-107 | Under every file limit that a region fits into, some run loses bytes: the write after the fork is refused, and the writer reads 0 where it read 7. |
| FullFile.LossReached | nivisor/src/mm.cpp:63-107 | The same of the processes themselves: the writer reads 0, the other process still 7. |
| FullFile.LossInProgram | nivisor/src/mm.cpp:14-34 | So it is under the limit of the program, with regions of the greatest length a system call allows. |
| RoomGraph.CircleConnected | Perplexity/generategame.cc:81-153 | A circle of forward exits makes every room of a loop reach every other. |
| RoomGraph.Joined | Perplexity/generategame.cc:384-388 | A door and a way back make two connected groups one. |
| RoomGraph.AddedExit | Perplexity/generategame.cc:46-59 | An exit in a free direction keeps directions pairwise different. |
| RoomGraph.ConnectedStays | Perplexity/generategame.cc:176-210 | Adding exits and rooms keeps rooms connected. |
| RoomGraph.SortLosesNone | Perplexity/generategame.cc:265-305 | Sorting loses an exit exactly when two exits share a direction. |
| RoomGraph.ByDirectionOrdered | Perplexity/generategame.cc:283-303 | The sorted exits are in strictly increasing order of direction. |
| GameGenerator.Generator.GetUsedRoomDirections | Perplexity/generategame.cc:46-59 | A bit is set exactly for the directions in use. |
| GameGenerator.Generator.RoomExits | Perplexity/generategame.cc:86-153 | Exits, direction and draws of one room: back, opposite to the way in, if the way in leads back (in the last room, if it was not entered in the direction kept for the first); forward opposite to the way in, or in the first direction drawn that is not the way back; a door when the draw says so. |
| GameGenerator.Generator.GenerateCircle | Perplexity/generategame.cc:81-153 | Every room of the loop has the exits its draws give: its way forward, and at most two. |
| GameGenerator.Generator.AddTeleporter | Perplexity/generategame.cc:155-166 | The search for a free direction ends; the room drawn gets a teleporter in the first direction free from the one drawn on and nothing else changes. |
| GameGenerator.Generator.GenerateRoomLoop | Perplexity/generategame.cc:61-174 | Between 5 and 14 new rooms, as drawn, each reaching every other, older rooms unchanged. |
| GameGenerator.Generator.LinkIfFree | Perplexity/generategame.cc:195-208 | A door in the first free direction going round from the start, or nothing exactly when none is free. |
| GameGenerator.Generator.RandomLinkRooms | Perplexity/generategame.cc:176-210 | The first draw says how many attempts there are, each with three draws; in the end every attempt has a door between its rooms or the room it was to lead from has all directions in use, and there are as many new exits as attempts that met a free direction; nothing but such doors is added. |
| GameDraws.DoorsSeen | Perplexity/generategame.cc:176-210 | The same of any log of attempts, each a door in the first direction free from the one drawn on, or nothing when all are in use. |
| GameDraws.GameStaged | Perplexity/generategame.cc:580-628 | In a finished game doors were tried in thirteen stages, and every attempt of each has its door or a full room. |
| GameGenerator.Generator.FindLink | Perplexity/generategame.cc:321-346 | The search for a link finishes exactly with the first draws that give two rooms which can be linked, in the first direction that fits from the one drawn on. |
| GameGenerator.Generator.FindFree | Perplexity/generategame.cc:409-442 | The search for a place of the way out finishes exactly with the first draw of a room with a free direction. |
| GameGenerator.LinkSearchEnds | Perplexity/generategame.cc:321-346 | Whatever has been drawn, more draws can end the search for a link exactly when some two rooms can be linked. |
| GameGenerator.FreeSearchEnds | Perplexity/generategame.cc:409-442 | More draws can end the search for the way out exactly when some room has a free direction. |
| GameGenerator.Generator.GenerateLoopLinks | Perplexity/generategame.cc:307-388 | One link or two, as drawn, each a door and a way back between the rooms found first; the new loop and the rooms before it reach each other. |
| GameGenerator.Generator.AddExitRoom | Perplexity/generategame.cc:409-442 | The first room drawn that has a free direction gets the way out in its lowest one, and the exit joins the rooms; nothing else changes. |
| GameGenerator.Generator.SortExits | Perplexity/generategame.cc:277-303 | The loop over the bits gives the exits in the order of directions. |
| GameGenerator.Generator.SortRoomDirections | Perplexity/generategame.cc:265-305 | Each room keeps all its exits, sorted. |
| GameGenerator.Generator.GenerateGame | Perplexity/generategame.cc:580-628 | Whatever the draws, once finished: 35 to 98 rooms and the exit, different directions per room, every ordinary room reaches every other and one has the way out, exits sorted; rooms and exits are those of the draws, and every attempt at a door has its door or a full room. |
| Regex.TokensMean | router-pi/src/re.c:109-250 | Every list of items has a well-formed compiled pattern that determines it. |
| Regex.AcceptsRun | router-pi/src/re.c:461-494 | A match is a run of characters for the first item followed by a match of the rest. |
| Regex.MatchStar | router-pi/src/re.c:404-422 | True exactly when some run of the character, possibly empty, is followed by a match. |
| Regex.MatchPlus | router-pi/src/re.c:424-440 | The same for a run of at least one. |
| Regex.MatchQuestion | router-pi/src/re.c:442-457 | True exactly when the rest matches here, or after one passing character. |
| Regex.MatchPattern | router-pi/src/re.c:461-494 | Terminates, and succeeds exactly when some stretch from here is in the language of the pattern. |
| Regex.Matchp | router-pi/src/re.c:78-107 | The least index below the text length that matches, else -1; 0 or -1 for anchored patterns. |
| Sha512.PadIsLeast | NautilusRand/sha512.c:176-187 | The number of zeros is the least that leaves 16 bytes for the length (section 5.1.2 of FIPS 180-4). |
| Sha512.CircleStep | NautilusRand/sha512.c:243-248 | One step in the circle of sixteen words gives the next word of the full schedule and keeps the other fifteen. |
| Sha512.RunRounds | NautilusRand/sha512.c:241-262 | The rounds over the circle are the 80 rounds over the 80-word schedule (section 6.4.2 of FIPS 180-4). |
| Sha512.SameForms | NautilusRand/sha512.c:50-51 | The choice and majority of the program are those of the standard (section 4.1.3 of FIPS 180-4), bit by bit. |
| Sha512.DigestWords | NautilusRand/sha512.c:196-206 | Read big-endian, each eight bytes of the digest are that word of the final hash value (section 6.4 of FIPS 180-4). |
| BlockHash.Absorbed | NautilusRand/sha512.c:133-159 | A chunk that fits either waits in the buffer or completes a block. |
| Sha512.PadsAgree | NautilusRand/sha512.c:167-192 | The padding is that of the standard exactly for messages under 2^64 bits. |
| Sha512.Sha512Context.constructor | NautilusRand/sha512.c:102-119 | The initial hash value, nothing buffered. |
| Sha512.Sha512Context.ProcessBlock | NautilusRand/sha512.c:215-273 | The hash value becomes the compression of the block; the buffer is overwritten. |
| Sha512.Sha512Context.Update | NautilusRand/sha512.c:128-159 | However the message is cut, the context stands for all of it. |
| Sha512.Sha512Context.Final | NautilusRand/sha512.c:167-207 | The digest of everything hashed; the one of the standard for messages under 2^64 bits. |
| Sha512.Sha512Hash | NautilusRand/sha512.c:275-287 | The digest of a whole message. |
| BlockHash.FoldSplit | nivisor/src/sha1.c:198-227 | A fold over blocks may be carried on from any cut with what was left over. |
| BlockHash.ByteOf | nivisor/src/sha1.c:259-262 | Byte i of k of a number is its digit to the base 256 at place k - 1 - i. |
| BlockHash.NumberHas | nivisor/src/sha1.c:34-40 | And a number read from bytes has them as its digits. |
| Sha1.PadIsLeast | nivisor/src/sha1.c:264-270 | The number of zeros is the least that leaves 8 bytes for the length (section 5.1.1 of FIPS 180-4). |
| Sha1.CircleStep | nivisor/src/sha1.c:41-42 | One step in the circle of sixteen words gives the next word of the full schedule. |
| Sha1.R | nivisor/src/sha1.c:45-49 | One macro round with its names rotated is one round of the standard. |
| Sha1.RunRounds | nivisor/src/sha1.c:85-166 | The unrolled rounds are the plain 80 rounds (section 6.1.2 of FIPS 180-4). |
| Sha1.SameForms | nivisor/src/sha1.c:45-49 | The choice and majority of the macros are those of the standard (section 4.1.1 of FIPS 180-4), bit by bit. |
| Sha1.DigestWords | nivisor/src/sha1.c:270-274 | Read big-endian, each four bytes of the digest are that word of the final hash value (section 6.1 of FIPS 180-4). |
| Sha1.CountAdd | nivisor/src/sha1.c:208-211 | The two words with the carry are 8 x length modulo 2^64. |
| Sha1.PlaceIs | nivisor/src/sha1.c:212 | The place in the buffer that the low word gives is the length modulo 64. |
| Sha1.CountBytes | nivisor/src/sha1.c:259-262 | The eight count bytes are the 64-bit length of the standard. |
| Sha1.Sha1Ctx.Transform | nivisor/src/sha1.c:54-177 | The state becomes the compression of the block. |
| Sha1.Sha1Ctx.Update | nivisor/src/sha1.c:198-227 | Succeeds exactly when pending bytes and data together stay below 2^32, and then the context stands for the longer message. |
| Sha1.Sha1Ctx.Final | nivisor/src/sha1.c:231-280 | The digest of everything hashed, padded as the standard says. |
| Sha1.OverrunExample | nivisor/src/sha1.c:213 | One pending byte and a piece of 2^32 - 1 bytes make the sum wrap. |
| Sha1.Sha1 | nivisor/src/sha1.c:282-294 | The byte-at-a-time wrapper gives the digest of the message. |
| Bits.XorTwice | Perplexity/item.roomdisplay.cc:33 | Masking twice gives the number back. |
| Bits.XorBit | Perplexity/item.roomdisplay.cc:33 | Every bit of a masked number is set exactly when it is set in one of the two. |
| Bits.XorWord | Perplexity/room_convert.py:38 | A number may be cut to 64 bits before or after masking. |
| RoomCodes.ReadSpelled | Perplexity/direction.teleporter.cc:199-222 | Letters spelled with the turning alphabet are read back as the same digits. |
| RoomCodes.SpelledRead | Perplexity/direction.teleporter.cc:199-222 | And what can be read is spelled that way only. |
| RoomCodes.EncodedShows | Perplexity/item.roomdisplay.cc:28-56 | The letters of a code by number: each is the alphabet's letter at place, earlier digits, letters before and own digit added up modulo 17. |
| RoomCodes.DecodedShows | Perplexity/direction.teleporter.cc:176-235 | A code can be decoded exactly when all its letters are in the alphabet, and then its letters show the digits of the number decoded. |
| RoomCodes.DigitsAre | Perplexity/item.roomdisplay.cc:38-52 | The digits shown are those of the number to the base 17, without leading zeros. |
| RoomCodes.ValueHas | Perplexity/direction.teleporter.cc:212-222 | A sequence of digits stands for the number that has them at its places. |
| RoomCodes.MaskTurns | Perplexity/item.roomdisplay.cc:33 | The mask of place 0 is the constant, and each next one is it turned left by one more bit. |
| RoomCodes.DecodesEncoded | Perplexity/item.roomdisplay.cc:28-56 | Decoding undoes encoding for every 64-bit number and place; at most 1 + 16 letters. |
| RoomCodes.ShowRoom | Perplexity/item.roomdisplay.cc:28-56 | Letter 0 is the one of the place; letter j + 1 stands at that place plus the digits before plus j plus digit j, modulo 17, for the base-17 digits of the masked number, no more than needed; it is the code that is decoded, and fits its buffer. |
| RoomCodes.Keypad | Perplexity/direction.teleporter.cc:176-235 | Decodes every input of at most 32 letters of the alphabet, and nothing else, to the number whose digits the letters show. |
| RoomCodes.ConvertRoomIDToMem | Perplexity/room_convert.py:6-40 | The script does the same for every code of such letters, without the limit. |
| WheelLock.DirectionWheelLockDoor.ValidateCombo | Perplexity/direction.wheellock.cc:173-223 | True exactly when the sequences are equal; the exact matches are the places with equal entries, those out of place the size of the multiset intersection of the other places, together that of the whole; nothing is counted for unequal numbers. |
| WheelLock.DirectionWheelLockDoor.CountOutOfPlace | Perplexity/direction.wheellock.cc:208-219 | The greedy pairing counts exactly the common shapes. |
| WheelLock.ElsewhereCounts | Perplexity/direction.wheellock.cc:193-206 | What is left for the second count is each symbol as often as it stands at a place that does not match. |
| WheelLock.AllAgree | Perplexity/direction.wheellock.cc:193-206 | All places agree exactly when the sequences are equal. |
| MamboCipher.KeyedPermutation | mambo/mambo.c:437-462 | The keyed state is a permutation of 0..255. |
| MamboCipher.CryptPermutes | mambo/mambo.c:53-69 | It stays one however much is enciphered. |
| MamboCipher.CryptTwice | mambo/mambo.c:91-95 | Deciphering with the same state gives the message back and leaves the same state. |
| MamboCipher.StreamSteps | mambo/mambo.c:53-95 | The key bytes between any message and its encipherment are generated by consecutive steps of the state. |
| MamboCipher.KeySchedule | mambo/mambo.c:437-462 | The keyed state is the last of the schedule of exchanges. |
| MamboCipher.XorByteBit | mambo/mambo.c:53-69 | Every bit of the exclusive or of two bytes is set exactly when it is set in one of them. |
| MamboCipher.EachByteOnce | mambo/mambo.c:447-459 | A permutation state holds every byte value once. |
| MamboCipher.CryptoState.PRGA | mambo/mambo.c:53-69 | The byte, exclusive-ored with the entry at last ^ ctr, is the sum of the entries at ctr and last; ctr moves on by one, last becomes the entry at the byte, and the entries at the two are exchanged. |
| MamboCipher.CryptoState.InitCryptoState | mambo/mambo.c:437-462 | From the identity, 5120 exchanges: entry i mod 256 with the one that i and the key byte, mixed with its place and the side, give; the counter stays; the result is a permutation. |
| MamboCipher.CryptoState.Stream | mambo/mambo.c:91-95 | Message and output differ by key bytes that the state generates step by step from the one before to the one after; the counter moves on by the length. |
| MamboInstr.ShortRegisters | mambo/mamboclient.c:50-65 | Of registers in the short form the server reads the lower five bits of two and nothing of the third: exactly those below 32 come back. |
| MamboInstr.WireFormat | mambo/mamboclient.c:50-74 | The bytes of an instruction: opcode and form, the registers whole or shifted by three, then the payload. |
| MamboInstr.RegistersRead | mambo/mambo.c:161-190 | The registers read are those bytes, whole or without their lower three bits. |
| MamboInstr.HighThenLow | mambo/mambo.c:191-428 | Of a sendable instruction the command in the upper part of the opcode is run first, with the payload, then the one in the lower three bits; a part that is zero is none. |
| MamboInstr.ServerEnds | mambo/mambo.c:191-428 | Opcodes 0x40 to 0x47 end the server with 0; those from 0x48, 0x68 and 0x70 on that are no commands with 1; no others do. |
| MamboInstr.ShortFormRead | mambo/mambo.c:161-173 | Two register bytes are accepted exactly when they encode some registers, which are then the ones read; otherwise the server exits with 19. |
| MamboInstr.ParseInstruction | mambo/mambo.c:191-428 | The commands an instruction runs and the bytes it takes, or how it ends. |
| MamboInstr.ParseEncoded | mambo/mambo.c:191-428 | Every sendable instruction parses back to its commands and takes exactly its bytes, whatever follows. |
| MamboInstr.OddOpcodeLost | mambo/mambo.c:194 | The lowest bit of an opcode is lost on the server. |
| MamboInstr.ParsesBackIffEven | mambo/mambo.c:194 | A well-formed instruction parses back to its own commands exactly when the lowest bit of its opcode is clear. |
| MamboInstr.ReadBufferTakes | mambo/mambo.c:330 | A read-buffer command takes its payload exactly up to 251 bytes. |
| MamboChannel.SendInstructions | mambo/mamboclient.c:50-74 | The encoded list, enciphered, is what is sent. |
| MamboChannel.Server.FillBuffer | mambo/mambo.c:110-151 | A message within the buffer is deciphered in place; a longer one ends the program. |
| MamboChannel.Server.ParseMessage | mambo/mambo.c:575-584 | The cursor goes through a message of whole instructions and gives its commands. |
| MamboChannel.Server.DoChallenge | mambo/mambo.c:561-602 | All messages in turn give all commands in order, and the cipher ends where the client's does. |
| MamboChannel.AfterPermutes | mambo/mambo.c:53-151 | Both states remain permutations all run. |
| MamboChannel.Converse | mambo/mambo.c:437-602 | From key set-up on: any list of sendable instructions, cut into messages, is carried out as sent, and both ends' states are equal permutations at the end. |

## Left out

- Process tracing, injected system calls, signal handling, page faults of the guest, and coherence of the guest's own mappings with splits made by the host. A thread's step is one of: nothing special, split, setsid, exit, fault, error.
- `BUG1`, `GROWUP`, the build without the pool, and the plain (not CFS) scheduler.
- CfsScheduler.CFSScheduler.Run: stops after a given number of turns, because the loop of the program need not end; the number of turns is arbitrary. A pool large enough for the run is a precondition; the heap of the program has 21 blocks and 30 always suffice.
- RedBlackTree.RBTree.constructor: starts `m_size` and `high_mark` at 0; the program leaves them uninitialised.
- RedBlackTree.RBTree.Add: the overflow of 64-bit vruntimes is not modelled, because a run would need 2^64 steps.
- FairQueue.NoStarvation: excludes setsid from the stretch of turns in question, because a thread that calls it first in every turn keeps its vruntime and goes ahead of ties.
- KillTasks, spids, `m_slice`, `high_mark_task` and the print functions.
- The root's `m_pos` is not in the invariant; it may be stale.
- CowMemory.MemoryManager.CopyPmaForWrite: mapping a range of the file into the host and growing the file within the limit are taken to succeed; a host address is represented by the place in the file it stands for.
- CowMemory.MemoryManager.CloneCOW: the write protection of guest pages is left out, and so is its failure; areas are cloned in any order, the parent's marked first; the child is made with the parent's file at once.
- CowMemory.MemoryManager.NewVma: addresses and lengths are unbounded numbers, because no wrap-around occurs below 2^63; area flags and file descriptors are left out. Changing protection, unmapping and `Clear` are left out; an area's protection is fixed.
- CowRun.Replay: ends at a request that misfits (its first page is free, but it runs into an area, is not made of whole pages or ends past 2^63), because the areas of the process are then no longer apart.
- UserMemory.WriteToUser: guest writes between the pages of one copy are not modelled.
- Items, descriptions, journal; the power switch, wheels and keys of doors. The draws that only make or place these (among them the display of each loop, between its teleporter and its links) are not in the sequence; every value of the remaining draws is covered.
- GameGenerator.Generator.GenerateGame: says nothing of the rooms of runs that do not finish; they have used up all draws. More draws can end the searches for a link and for the place of the way out exactly while a fitting direction is left (LinkSearchEnds, FreeSearchEnds); which draws leave none is not part of this model.
- GameGenerator.Generator.AddExitRoom: the door leads out of the game rather than to a second, unlisted exit object; the listed exit room has no exits.
- Doors of every kind count as passable; a teleporter leads nowhere.
- Compilation of regular expressions from text, the inside of character classes, and `matchlength`; single-character tests are given predicates. Stray anchors and quantifiers are excluded by well-formedness.
- Sha512.Sha512Context.Final: the hash words are not converted in place; wiping of buffers is left out.
- Sha1.Sha1Ctx.Update: what the overrun destroys is not modelled; the result says that it happens.
- RoomCodes.Keypad: the mask at place 0 shifts by 64, which C++ leaves undefined; it is taken as the script computes it. The check of the address against the memory map is left out. Both decoders share the method that collects digits.
- Execution of commands (registers, heap, arithmetic), the server's answers, partial reads and writes, and rekeying; the counters of both ciphers start equal, as zeroed memory makes them.
- MamboChannel.Server.ParseMessage: parsing one message and reading the next are two nested loops instead of one.
- The Core War machines, Web4Factory, the router's HTTP code, DNS, `base32.c` and exploit scripts.
