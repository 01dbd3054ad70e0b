# Verified models of a packet-processing runtime

The runtime moves vectors of packets between nodes that a loop thread and worker threads poll. Under it lie
hand-written data structures. This project models the hard ones in Dafny, in the form they have in Go (fields and
arrays updated in place, loops, index links), and proves what they are for.

- **Timed events** (`fib_*.dfy`, `event_pool.dfy`): an index-linked Fibonacci heap and the event pool on it. Every
  operation keeps the child rings doubly linked, the counts exact and the forest free of cycles; cascading cuts keep
  every subtree exponentially large, so the 32 degree slots of `Min` are enough below F(34) elements.
- **Block allocator** (`heap_model.dfy`, `block_heap.dfy`, `heap_runs.dfy`): blocks tile the heap, free blocks are
  coalesced, each is filed once, and blocks in use never overlap or move. The free-list corruption panic is
  characterised exactly, reached by a concrete run, and excluded once the largest size has been asked for.
- **Poller protocol** (`poller_*.dfy`): atomic steps of one loop thread, one goroutine for each node and any number of
  workers, in any interleaving; the channels between loop and goroutines included, so a suspended caller waits.
- **Bucketed hash** (`hash_*.dfy`, `pair_hash.dfy`): displacement by exclusive or, a bound per bucket, growth that
  moves every key; its client is a finite map.
- **Ternary match tree** (`mask_tree*.dfy`): trees whose leaves share reference-counted vectors, under split, join,
  clone, accept, restart, add and delete; save and restore.
- **Fast paths** (`enqueue_refs.dfy`, `if_output.dfy`, `buffer_pool.dfy`): speculative enqueue, transmit packing and
  the buffer pool agree with the plain statement of what they do.
- **Round trips and ordering** (`fdt_*.dfy`, `srpc_*.dfy`, `dep_order.dfy`): flattened device trees (Devicetree
  Specification, sections 5.2 to 5.6), two streams framed on one connection, dependency sorting.

Ghost fields hold the abstract value of a class (the shape of the forest, the list of blocks, the tree) and `Valid`
ties it to the real fields. Facts about those values are lemmas; `hide` keeps definitions out of proofs that do not
use them.

## What the code does differently from what it says

- `freeElt` files a block by the largest size asked for so far, `removeFreeElt` looks it up by the number of lists
  (goes/elib/heap.go:121-155). `BlockHeap.Heap.RemoveFreeElt`, `Put` and `GetAligned` say exactly when the panic is
  reached; `HeapRuns.CorruptRun` reaches it in a handful of requests, and `HeapRuns.Run` excludes it under a guard on
  each request.
- A block freed twice is told only while it still stands as a block of its own. Once a neighbour's free has swallowed
  it, the second free files its poisoned element (`BlockHeap.Heap.Put`, `HeapRuns.UntoldFree`).
- Roots of the Fibonacci heap may be marked, although a comment says not (`FibHeaps.MarkedRoot` makes one); the mark is
  cleared when a root is linked under another (goes/elib/fibheap.go:194). The forest invariant therefore counts marks,
  not only children.
- `nActive` of the poller can stay above the number of nodes to poll, since a decrement that overtakes its increment is
  clamped at zero. `PollerTheorems.ActiveCount` says exactly when; `OvertakenIncrement` is a run that ends in the "too
  many active pollers" panic, and `NeverTooMany` says what rules it out.
- A resume can be forgotten. The loop clears it when it takes the answer of the suspended goroutine
  (goes/elib/loop/poller.go:540-555), also if the resume came before that answer was taken; with no data activity left
  the node then needs no polling, and the goroutine stays parked until some further call on its node
  (`PollerTheorems.ClearedIff`, `ForgottenForEver`; `ResumeForgotten` is such a run, for any limits).
- Adding a key to the match tree that is stored already leaves the kept costs wrong
  (`MaskTreeTrials.Trials.AddDel`, an exact condition).
- Saving a tree keeps only the low byte of a split bit, so a tree comes back with its splits exactly when all of them
  are below 256 (`MaskTreeSaves.RestoredIff`, `RoundTrip`); `WideSplitLost` is a tree that does not.
- At temperature zero the join of two empty leaves is turned down and gives back a vector that does not exist
  (`MaskTreeTrials.Trials.Join`).
- `Step` never returns when the tree is one leaf that cannot be split: then no draw does anything
  (`MaskTreeTrials.Trials.Step`, `MaskTreeDraws.DoableIff`).
- `Unset` on a hash that never grew panics, where `Get` does not (`HashTables.Hash.Unset`).
- A frame header near 2^64 wraps the frame length and panics (`SrpcConns.Conn.Input`; `SrpcFrames.BigWraps` is one); no
  peer sends one.
- A node name that is empty or holds a NUL does not survive flattening (`FdtRoundTrip.NameSurvives`).
- A second sort reads dependencies by position among elements that the first one moved. Its order respects what it
  read, which is what was asked exactly when every position an element's dependencies name holds one of them
  (`DepOrder.Deps.Sort`); `SecondSortLoses` is a run whose second order puts an element before its dependency.
- With buffers of more than half a megabyte the growth loop of the buffer pool can halve its request to nothing and
  then repeats for ever (`BufferPools.GrowsIff`).

## Model

| member | source | states |
|---|---|---|
| `FibLinks.RingInsert` | goes/elib/fibheap.go:59-67 | linking an element after another puts it right there in a doubly linked ring and leaves the rest of the ring linked |
| `FibLinks.RingRemove` | goes/elib/fibheap.go:73-80 | unlinking an element leaves a doubly linked ring of the others, in order |
| `FibDegree.SpreadRemove` | goes/elib/fibheap.go:118-151 | at most k children with fewer than k vouched for survives losing any child |
| `FibDegree.SpreadInsert` | goes/elib/fibheap.go:166-209 | the same survives gaining a child that has at least as many children as its new parent had |
| `FibDegree.SpreadSum` | goes/elib/fibheap.go:32-35 | children so spread, each with the least subtree its own children and mark vouch for, add up to F(d+2) nodes |
| `FibDegree.Fib34` | goes/elib/fibheap.go:32-35 | the bound that 32 degree slots are enough below, F(34), is 5702887 elements |
| `FibForest.DetachInv` | goes/elib/fibheap.go:118-151 | taking any node out of its parent's ring leaves a forest whose one gap is that parent's count |
| `FibForest.SettleInv` | goes/elib/fibheap.go:130-150 | lowering the parent's count, marking it or making it due for a cut, closes that gap |
| `FibForest.HangChildInv` | goes/elib/fibheap.go:180-205 | hanging a tree under a root of equal degree keeps the whole forest invariant |
| `FibSize.SubtreeSize` | goes/elib/fibheap.go:130-150 | every subtree of root degree d holds at least F(d+2) nodes, marked roots included |
| `FibSize.DegreeBound` | goes/elib/fibheap.go:32-35 | with fewer than F(d+2) live nodes no node has d children |
| `FibHeaps.LeastRoot` | goes/elib/fibheap.go:211-224 | an element that no root precedes precedes every live element, however deep |
| `FibHeaps.FibHeap.Add` | goes/elib/fibheap.go:82-96 | the forest stays valid, gains exactly this index, and is in order for every Compare that only this key had upset |
| `FibHeaps.FibHeap.CutChildren` | goes/elib/fibheap.go:98-116 | every child becomes a root, in a forest otherwise untouched |
| `FibHeaps.FibHeap.TellParents` | goes/elib/fibheap.go:130-150 | the cascade ends, leaves a valid forest, and changes no parent but those it cuts to the root; the node told first is marked, and cut exactly if it was marked before and had a parent |
| `FibHeaps.FibHeap.Del` | goes/elib/fibheap.go:118-152 | the forest stays valid and loses exactly this index; its parent is marked and, if it was marked before, a root; the cached minimum is dropped only with its element |
| `FibHeaps.FibHeap.Update` | goes/elib/fibheap.go:154-157 | a changed key is put back in order: whatever Compare agreed but for this element agrees again |
| `FibHeaps.FibHeap.LinkPair` | goes/elib/fibheap.go:180-205 | of two roots of one degree the later in order goes under the other, and the degree slots still file the roots scanned |
| `FibHeaps.FibHeap.Consolidate` | goes/elib/fibheap.go:166-209 | consolidation ends and files every root under its own degree; it indexes past slot 31, and panics, only with at least F(34) live elements |
| `FibHeaps.FibHeap.FindMin` | goes/elib/fibheap.go:166-227 | unless it panics so, no two roots have one degree, the least of the filed roots is a least element, and there is none exactly when the heap is empty |
| `FibHeaps.FibHeap.Min` | goes/elib/fibheap.go:159-227 | for any total preorder returns a live index that no live index precedes, valid exactly when one is live; panics only with at least F(34) live elements |
| `FibHeaps.MarkedRoot` | goes/elib/fibheap.go:82-227 | two additions, a Min and the deletion of the element that is no root leave the other one a marked root |
| `EventPool.TimeCompareExact` | goes/elib/event/event.go:26-37 | the wrapping 64-bit difference orders two times correctly when they are less than 2^63 apart |
| `EventPool.Pool.Add` | goes/elib/event/event.go:41-48 | a fresh index, the event pending under it, all other events as before |
| `EventPool.Pool.Del` | goes/elib/event/event.go:50-53 | exactly this event leaves, and its slot joins the free ones |
| `EventPool.Pool.NextTime` | goes/elib/event/event.go:76-84 | the time of a pending event that none precedes, valid exactly when an event is pending |
| `EventPool.Pool.TakeDue` | goes/elib/event/event.go:55-74 | one round takes an earliest event if it is due and otherwise leaves only events that are not |
| `EventPool.Pool.AdvanceAdd` | goes/elib/event/event.go:55-87 | ends; takes exactly the events due, appends each once in time order, leaves the others pending |
| `HeapModel.LiveDisjoint` | goes/elib/heap_debug.go:25-130 | blocks in use lie inside the heap, are not empty and do not overlap |
| `HeapModel.WellFiledNeverMisfiled` | goes/elib/heap.go:121-155 | a heap filed under its largest size has no block the two size rules disagree about |
| `HeapModel.PutOk` | goes/elib/heap.go:339-383 | freeing a block coalesces it with free neighbours on both sides, keeps the tiling and frees nothing else |
| `HeapModel.SplitAtOk` | goes/elib/heap.go:83-100 | splitting a free block serves its front exactly and files the rest as one free block |
| `HeapModel.GetOk` | goes/elib/heap.go:193-273 | each of the three ways to serve a request grants one fresh block of exactly that size and moves none |
| `BlockHeap.AlignUpExact` | goes/elib/heap.go:303-337 | rounding up leaves an offset alone exactly when it is aligned |
| `BlockHeap.Heap.FreeElt` | goes/elib/heap.go:121-135 | the element gets one list slot that points back to it, under its size or list 0 |
| `BlockHeap.Heap.RemoveFreeElt` | goes/elib/heap.go:137-155 | fails exactly when the element is not on the list its size now names; otherwise takes it off, swapping the last entry in |
| `BlockHeap.Heap.CutAfter` | goes/elib/heap.go:289-301 | a new element takes the tail of a block, linked after it |
| `BlockHeap.Heap.CutBefore` | goes/elib/heap.go:275-287 | a new element takes the front of a block, linked before it |
| `BlockHeap.Heap.FreeAfter` | goes/elib/heap.go:83-100 | the tail of a block becomes a free block of its own |
| `BlockHeap.Heap.GetSized` | goes/elib/heap.go:193-273 | the last block on the list of exact size, else the first of list 0 that fits, else an extension; fails for size zero and exactly when the length limit stops an extension |
| `BlockHeap.Heap.Get` | goes/elib/heap.go:189-273 | the blocks in use gain exactly one, of the size asked for and with a fresh identity |
| `BlockHeap.Heap.GetAligned` | goes/elib/heap.go:303-337 | the block is aligned and of exactly the size asked for; "corrupt free list" is reached exactly when the front trimmed off meets a misfiled free block |
| `BlockHeap.NotABlock` | goes/elib/heap.go:121-187 | an element that is not a block is one of the poisoned ones that wait to be recycled |
| `BlockHeap.Heap.Put` | goes/elib/heap.go:339-383 | the blocks in use lose exactly this one, and "corrupt free list" is reached exactly when a free neighbour is misfiled; a second free is told exactly while the block still stands as its own, and otherwise files the poisoned element under a size that wraps |
| `HeapRuns.Serve` | goes/elib/heap.go:189-383 | one request in any state: granted exactly as asked, refused only when for nothing or beyond a limit, given back exactly; in a heap whose list 0 holds only blocks larger than any size asked for so far, it corrupts nothing and keeps that if it asks for no more than ever before or less than any block on list 0 |
| `HeapRuns.Run` | goes/elib/heap.go:121-383 | over any run by a client that holds blocks already, every request is served so and every block held stays in use; if each meets that guard when its turn comes, "corrupt free list" is never reached |
| `HeapRuns.UntoldFree` | goes/elib/heap.go:339-383 | two neighbours freed, then the swallowed one again: no panic, and an element that waits to be recycled stands on a free list |
| `HeapRuns.CorruptRun` | goes/elib/heap.go:121-155 | without that condition a concrete run from an empty heap ends in "corrupt free list" |
| `PollerWords.NodeUnpacksPacked` | goes/elib/loop/poller.go:347-366 | unpacking a packed node word gives back the counts and the state |
| `PollerWords.NodePacksUnpacked` | goes/elib/loop/poller.go:347-366 | packing an unpacked node word gives back the word |
| `PollerWords.LoopUnpacksPacked` | goes/elib/loop/poller.go:377-388 | the same for the loop word, its count coming back exactly when it fits 31 bits |
| `PollerWords.LoopPacksUnpacked` | goes/elib/loop/poller.go:377-388 | packing an unpacked loop word gives back the word |
| `PollerSafety.AddActivityOk` | goes/elib/loop/poller.go:116-210 | a word that addActivity commits has inactive only with counts zero and suspend within the limit; only a node leaving inactive asks for a poller, and it does unless a call adds to the suspend count |
| `PollerTheorems.DataAdds` | goes/elib/loop/poller.go:116-210 | AddDataActivity changes the active count by exactly what it is given and nothing else, except that an inactive node that gets activity becomes active and asks for a poller; it panics exactly below zero or past 31 bits |
| `PollerTheorems.ActivateFlips` | goes/elib/loop/poller.go:116-223 | Activate adds one exactly to a node without activity that should have some, and takes one off exactly one that should not |
| `PollerTheorems.SuspendsOver` | goes/elib/loop/poller.go:143-186 | an active or resumed node whose suspend count would go over the limit is suspended with its count as it was; below that the count is added and the state kept |
| `PollerTheorems.SuspendsInactive` | goes/elib/loop/poller.go:143-186 | an inactive node becomes active and asks for a poller if the count stays within the limit, and else is suspended without one |
| `PollerTheorems.ResumesBelow` | goes/elib/loop/poller.go:143-186 | a suspended node is resumed exactly when its count is brought to the resume limit or below, by however much |
| `PollerTheorems.ResumeCounts` | goes/elib/loop/poller.go:143-191 | such a call makes the node need polling and its thread go on to count it |
| `PollerSafety.WordsKept` | goes/elib/loop/poller.go:116-210 | every step of any thread keeps all node words so |
| `PollerSafety.WaitsKept` | goes/elib/loop/poller.go:390-447 | every step keeps: the wait bit means no active poller, and a sleeping loop either still has it set or will be woken |
| `PollerSafety.CountsKept` | goes/elib/loop/poller.go:188-217 | every step keeps the balance of nActive, nodes to poll, counts owed and clamps |
| `PollerSafety.OwnersKept` | goes/elib/loop/poller.go:475-538 | every step keeps each node's request or poller in the one place recorded for it |
| `PollerSafety.PollsKept` | goes/elib/loop/poller.go:278-331 | every step keeps the handshake: a poll under way is with one of the signal, the goroutine and its answer; a suspended node's goroutine is inside the call that did it; a node the loop may free is at rest and not resumed |
| `PollerSafety.ServedKept` | goes/elib/loop/poller.go:475-538 | every step keeps that a node whose goroutine works has its poller |
| `PollerSafety.InvKept` | goes/elib/loop/poller.go:116-721 | every atomic step, by any thread, keeps all of these together |
| `PollerSafety.RunInv` | goes/elib/loop/poller.go:116-721 | every state of every interleaving from the start satisfies them |
| `PollerTheorems.NoLostWakeup` | goes/elib/loop/poller.go:390-447 | while the loop sleeps and a node needs polling, an interrupt is queued, about to be, or a worker still owes the increment that raises it |
| `PollerTheorems.IncrementWakes` | goes/elib/loop/poller.go:188-217 | that owed increment, once its swap succeeds, does queue the interrupt |
| `PollerTheorems.ActiveCount` | goes/elib/loop/poller.go:421-447 | nActive is at least nodes to poll less increments owed plus decrements owed, and equal exactly when no decrement was clamped |
| `PollerTheorems.SleepsIff` | goes/elib/loop/event.go:495-528 | with nothing in flight an attempt to wait puts the loop to sleep with the wait bit set exactly when no node needs polling and no decrement was clamped; else the loop goes on to poll |
| `PollerTheorems.WakesUp` | goes/elib/loop/event.go:495-528 | an event ends the sleep: it is consumed, the wait bit is cleared and the loop polls |
| `PollerTheorems.SignalsNeedy` | goes/elib/loop/poller.go:661-690 | a round signals, and waits for, exactly the nodes with a poller that need polling |
| `PollerTheorems.FreesIdle` | goes/elib/loop/poller.go:519-538 | a node whose poll is over becomes inactive and loses its poller and its slot exactly if both its counts are zero |
| `PollerTheorems.NeverAlreadyAllocated` | goes/elib/loop/poller.go:475-499 | a node handed out has no poller yet; no pending vector or pool names a node twice |
| `PollerTheorems.OnePlace` | goes/elib/loop/poller.go:237-255 | every node that is not inactive is with one worker, queued, being handed out or has its poller: exactly one; an inactive node is in none |
| `PollerTheorems.SuspendedParks` | goes/elib/loop/poller.go:286-331 | a suspended node has its poller, and its goroutine is parked or about to park, with no signal on its way |
| `PollerTheorems.NeverStranded` | goes/elib/loop/poller.go:268-288 | a call that adds to a suspend count finds its node with a poller and not inactive, and getPoller never panics for a node's own goroutine |
| `PollerTheorems.PanicsWithout` | goes/elib/loop/poller.go:268-288 | another thread's call to take packets off a node panics exactly if the node has no poller, and never while it is suspended |
| `PollerTheorems.NeverBlocks` | goes/elib/loop/poller.go:26-32 | the channels of one place are empty whenever the loop signals or a goroutine answers, so neither ever blocks on a send |
| `PollerTheorems.GoesOn` | goes/elib/loop/poller.go:286-331 | a parked goroutine that is signalled makes its suspend call again and goes on with its poll if there is room by now |
| `PollerTheorems.FreedAtRest` | goes/elib/loop/poller.go:519-538 | a node that is freed does not need polling and its goroutine is at rest, so no active count is lost with it |
| `PollerTheorems.OvertakenIncrement` | goes/elib/loop/poller.go:421-447 | a run of one node and two workers: a decrement overtakes its increment, the excess stays, and a later increment panics |
| `PollerTheorems.NeverTooMany` | goes/elib/loop/poller.go:421-447 | over any run in which every increment reads the loop word with no decrement owed and none ever clamped, no increment finds too many active pollers |
| `PollerTheorems.ClearedIff` | goes/elib/loop/poller.go:540-555 | clearing the resume of a parked goroutine's node leaves it parked and not signalled, and the node needing polling exactly if it is active |
| `PollerTheorems.ForgottenForEver` | goes/elib/loop/poller.go:286-331 | a goroutine parked at a node that needs no polling, with no signal and no call under way, stays so over any run without a call on its node |
| `PollerTheorems.ResumeForgotten` | goes/elib/loop/poller.go:540-555 | for any limits a run of one node, its goroutine and one worker: suspended at the limit, resumed before the loop takes the answer, parked for good while the loop may sleep |
| `HashProbe.XorSelf` | goes/elib/hash.go:245-283 | displacing twice by the same amount leads back |
| `HashProbe.XorOneToOne` | goes/elib/hash.go:245-283 | different displacements of one base reach different slots |
| `HashProbe.XorSameBucket` | goes/elib/hash.go:235-277 | a displacement below the bucket size stays in the bucket |
| `HashProbe.XorBits` | goes/elib/hash.go:235-277 | bit by bit a probe is the exclusive or of base and displacement |
| `HashProbe.Alloc` | goes/elib/hash.go:420-462 | allocation fixes a geometry whose second half, if any, is a whole number of buckets |
| `HashProbe.AllocSays` | goes/elib/hash.go:420-462 | the bucket is the largest power of two, up to 128, that leaves its square within half the first part; the second part holds a bucket at least; the first part's share of hash values is its share of slots |
| `HashProbe.BucketsFill` | goes/elib/hash.go:420-462 | the capacity is a whole number of buckets, one or two powers of two |
| `HashProbe.BaseInRange` | goes/elib/hash.go:213-219 | for any hash value and seed the base index is a slot of the table |
| `HashProbe.BaseSays` | goes/elib/hash.go:213-219 | the high half of the first word chooses the part of the table and the second word, cut to its size, the slot in it |
| `HashProbe.ProbeInRange` | goes/elib/hash.go:235-277 | every probe is a slot of the table and of its base's bucket |
| `HashTables.PlaceOk` | goes/elib/hash.go:181-207 | storing a new key at a free probe keeps the table invariant, raising the bucket's bound |
| `HashTables.RemoveOk` | goes/elib/hash.go:377-389 | clearing a slot keeps it |
| `HashTables.FoundOnProbe` | goes/elib/hash.go:235-256 | a stored key lies on a probe of its own base no further than the bucket's bound, so the early stop misses nothing |
| `HashTables.PairTable.HashResize` | goes/elib/mctree/pair.go:66-76 | the client moves each offset from its old slot to its new one |
| `HashTables.DictMoved` | goes/elib/mctree/pair.go:66-76 | two tables that hold the same offsets, each once, are the same map |
| `HashTables.CopyDone` | goes/elib/hash.go:464-490 | after a growth that finished, every key is in exactly one new slot and the map is unchanged |
| `HashTables.Hash.SearchBase` | goes/elib/hash.go:235-256 | finds a slot that holds the key, or the key is nowhere in the table |
| `HashTables.Hash.SearchFree` | goes/elib/hash.go:265-277 | takes a free slot of the base's bucket, or every one of them is taken |
| `HashTables.Hash.Get` | goes/elib/hash.go:323-335 | ok exactly when the key is stored, with a slot that holds it |
| `HashTables.Hash.Unset` | goes/elib/hash.go:377-389 | ok exactly when the key is stored; the slot is freed, the count drops, the rest stays findable; panics exactly before the first growth |
| `HashTables.Hash.CopySlot` | goes/elib/hash.go:464-490 | one key of the old table gets one free slot of the new one |
| `HashTables.Hash.Copy` | goes/elib/hash.go:464-490 | a copy that finishes moves every key once; one that does not leaves the old table as it was, and some key's new bucket is full |
| `HashTables.Hash.TrySet` | goes/elib/hash.go:337-357 | done exactly if the key is stored or its bucket has a free slot, with the slot that holds it or one reserved for it |
| `HashTables.Hash.GrowAndCopy` | goes/elib/hash.go:357-375 | tries the sizes in turn until one takes every key, or all are used up; the map is unchanged |
| `HashTables.Hash.Set` | goes/elib/hash.go:337-375 | existing exactly when stored, else a slot reserved for the key; grows exactly if the key is not stored and its bucket is full, uses no more sizes than it must, and fails only when all are used up; the map is unchanged |
| `PairHashes.PairHash.Set` | goes/elib/mctree/pair.go:127-139 | the map gains or keeps exactly this key; a stored key keeps its offset, a new one gets an offset not in use; it grows exactly if the hash has no room, and fails only when all sizes are used up |
| `PairHashes.PairHash.Get` | goes/elib/mctree/pair.go:155-161 | ok exactly for the keys of the map, with the offset stored |
| `PairHashes.PairHash.Unset` | goes/elib/mctree/pair.go:141-153 | the map loses exactly this key and gives back its offset; panics exactly before the first growth |
| `MaskTrees.GoesIff` | goes/elib/mctree/mctree.go:417-426 | a pair is compatible with a child's key exactly when it is with its parent's and the split bit sends it there |
| `MaskTrees.LookupFinds` | goes/elib/mctree/mctree.go:226-245 | the one leaf a search key leads to holds every stored pair that matches the key |
| `MaskTrees.LookupOnce` | goes/elib/mctree/mctree.go:226-245 | that leaf holds only stored pairs, each once |
| `MaskTrees.GraftCost` | goes/elib/mctree/mctree.go:315-332 | replacing a subtree changes the summed costs by the difference of the two subtrees |
| `MaskTreePools.Partition` | goes/elib/mctree/mctree.go:427-458 | each pair of a leaf goes to the side its split bit matches, and to both when it does not mask the bit, in order |
| `MaskTreePools.Merge` | goes/elib/mctree/mctree.go:499-548 | the pairs of both leaves, those that were on both sides only once |
| `MaskTreePools.SplitHolds` | goes/elib/mctree/mctree.go:427-458 | the parts hold exactly the stored pairs compatible with the two children's keys |
| `MaskTreePools.JoinHolds` | goes/elib/mctree/mctree.go:499-548 | the union holds exactly the stored pairs compatible with the parent's key |
| `MaskTreePools.JoinAfterSplit` | goes/elib/mctree/mctree.go:427-591 | joining what was split gives back the same pairs, none twice |
| `MaskTreeMains.Pool.PutVec` | goes/elib/mctree/mctree.go:74-94 | one reference less, and the vector is freed exactly when it was the last |
| `MaskTreeMains.Pool.AddReference` | goes/elib/mctree/mctree.go:96-105 | one reference more, counted exactly |
| `MaskTreeMains.Pool.AllocSubs` | goes/elib/mctree/mctree.go:226-245 | two fresh empty nodes whose keys fix the split bit to 0 and to 1 |
| `MaskTreeMains.Pool.GetSplit` | goes/elib/mctree/mctree.go:427-458 | both parts of a leaf in fresh vectors, nothing shared disturbed |
| `MaskTreeMains.Pool.GetJoin` | goes/elib/mctree/mctree.go:499-548 | the union in a fresh vector, or none when it is empty |
| `MaskTreeMains.Pool.CloneNode` | goes/elib/mctree/mctree.go:607-624 | a tree of the same shape in fresh nodes, sharing every leaf vector with one reference more each |
| `MaskTreeMains.Pool.FreeTree` | goes/elib/mctree/mctree.go:593-605 | gives back exactly the tree's nodes and one reference for each of its leaves |
| `MaskTreeSteps.SplitTree` | goes/elib/mctree/mctree.go:459-496 | an accepted split leaves a good tree whose costs, adjusted in place, equal the sums over its leaves |
| `MaskTreeSteps.JoinTree` | goes/elib/mctree/mctree.go:549-591 | so does an accepted join |
| `MaskTreeEdits.EditLeaf` | goes/elib/mctree/mctree.go:716-746 | the leaf's own vector gains or loses exactly this pair |
| `MaskTreeEdits.EditTree` | goes/elib/mctree/mctree.go:748-763 | every leaf the pair is compatible with is edited, no other; costs move by exactly the change, for a deletion or a fresh pair |
| `MaskTreeTrials.Trials.constructor` | goes/elib/mctree/mctree.go:851-875 | an empty tree that satisfies everything Validate checks |
| `MaskTreeTrials.Trials.Split` | goes/elib/mctree/mctree.go:427-497 | accepted or not, all invariants hold; accepted whenever the cost falls, and with a rise never at temperature zero; the sums are those of the parts; rejected, the trial tree is as before |
| `MaskTreeTrials.Trials.Join` | goes/elib/mctree/mctree.go:499-591 | accepted or not, all invariants hold; accepted whenever the cost falls, and when it stays exactly if the temperature is not zero; rejected, the trial tree is as before; panics exactly at temperature zero on two empty leaves |
| `MaskTreeTrials.Trials.AcceptCostChange` | goes/elib/mctree/mctree.go:334-339 | a cost that does not fall is never accepted at temperature zero, and always at any other if it stays |
| `MaskTreeTrials.Trials.CloneTree` | goes/elib/mctree/mctree.go:626-633 | the trial starts with the shape and the costs of the last tree |
| `MaskTreeTrials.Trials.Advance` | goes/elib/mctree/mctree.go:799-849 | the trial becomes the last tree and the old last tree is given back whole |
| `MaskTreeTrials.Trials.Restart` | goes/elib/mctree/mctree.go:791-797 | the trial is given back whole |
| `MaskTreeTrials.Trials.RandomMaskedBit` | goes/elib/mctree/mctree.go:635-678 | whatever is drawn, a bit chosen for splitting is masked by a pair of the leaf and not yet in its key, and there is none only if some pair has no such bit |
| `MaskTreeDraws.DoableIff` | goes/elib/mctree/mctree.go:685-699 | some draw of coins does something exactly when the tree is split already or its one leaf is large enough and there is room for one more |
| `MaskTreeDraws.FirstDecides` | goes/elib/mctree/mctree.go:811-831 | how a row of draws ends is settled by the first that does something |
| `MaskTreeDraws.SameDraws` | goes/elib/mctree/mctree.go:607-633 | the same draws do something, and panic, in a tree and in its clone |
| `MaskTreeTrials.Trials.Turn` | goes/elib/mctree/mctree.go:811-831 | a draw does something exactly if its coins lead to a fork of two leaves and prefer it, or to a leaf large enough with room for one more; what makes it panic is told exactly; if accepted the tree has that fork joined or that leaf split, and else nothing changes |
| `MaskTreeTrials.Trials.Step` | goes/elib/mctree/mctree.go:799-849 | every invariant holds and the stored pairs stay; the last tree changes only to one of strictly lower cost, which is a clone of the tree drawn from with one fork joined or one leaf split where a draw led; it ends exactly if some draw does something, panics exactly if the first that does fails, and ends only if the tree is split or its one leaf can be |
| `MaskTreeTrials.Trials.AddDel` | goes/elib/mctree/mctree.go:765-789 | the stored pairs change by exactly this one; tree, keys and references stay right, and the costs too exactly for a deletion or a fresh key |
| `MaskTreeTrials.Trials.SearchFinds` | goes/elib/mctree/mctree.go:226-245 | in every reachable tree a search key's one path finds every stored pair that matches, once |
| `MaskTreeSaves.SaveHelper` | goes/elib/mctree/save.go:21-34 | writes the split flags and split bits of the tree in preorder |
| `MaskTreeSaves.RestoreHelper` | goes/elib/mctree/save.go:36-50 | from whatever save wrote rebuilds the shape, each fork on the low byte of its bit, a bit that is in the key already keeping its value on one side, and reads exactly what save wrote |
| `MaskTreeSaves.RestoredIff` | goes/elib/mctree/save.go:21-50 | a tree comes back with its splits and keys exactly when every split bit is below 256 |
| `MaskTreeSaves.RoundTrip` | goes/elib/mctree/save.go:21-50 | save then restore from a fresh root reads every flag and byte, and gives a tree with the same splits and keys exactly then |
| `MaskTreeSaves.WideSplitLost` | goes/elib/mctree/save.go:21-50 | a key of 257 bits split on the last one comes back split on the first |
| `FdtFormat.CellRoundTrip` | goes/internal/fdt/fdt.go:99-103 | in either byte order a 32-bit cell reads back as written |
| `FdtFormat.CellBack` | goes/internal/fdt/fdt.go:99-103 | in either byte order any four bytes are the cell of the value they read as |
| `FdtFormat.CellWeights` | goes/internal/fdt/fdt.go:299-306 | big-endian the first byte weighs most, little-endian the last |
| `FdtFormat.IndexNulIs` | goes/internal/fdt/fdt.go:105-109 | a NUL-free string before a NUL is found whole |
| `FdtFormat.GetCell` | goes/internal/fdt/fdt.go:99-103 | exactly when four bytes are left, the 32-bit value whose cell they are |
| `FdtFormat.CloseNode` | goes/internal/fdt/fdt.go:164-180 | an end-node token files the node with its parent, or makes it the root |
| `FdtFormat.ReadProp` | goes/internal/fdt/fdt.go:185-204 | a property token takes its name from the strings block and moves the cursor on, aligned |
| `FdtFormat.Parse` | goes/internal/fdt/fdt.go:117-212 | for every buffer the loop ends with the result of the token-by-token reading, a panic included |
| `FdtFormat.BlobParses` | goes/internal/fdt/fdt.go:131-213 | a blob written out byte by byte, with a property, a child and a no-op, parses to the tree it means |
| `FdtFlatten.PutProps` | goes/internal/fdt/fdt.go:364-391 | in any map order every property is written once, with its name's offset in the strings |
| `FdtFlatten.PutKids` | goes/internal/fdt/fdt.go:364-391 | in any map order every child is written once |
| `FdtFlatten.PutNode` | goes/internal/fdt/fdt.go:364-391 | the bytes and strings written are those of some listing of the node |
| `FdtRoundTrip.FlattenTreeToSlice` | goes/internal/fdt/fdt.go:397-427 | header, reserve block, tokens, end and strings of that listing, each block where the header says |
| `FdtRoundTrip.HeaderSays` | goes/internal/fdt/fdt.go:397-428 | the header's ten cells: magic number, total size, the offsets of the blocks, versions 17 and 16, processor 0 and the sizes of the blocks, which fill the rest |
| `FdtRoundTrip.RunNode` | goes/internal/fdt/fdt.go:131-212 | the tokens of any listing of a node rebuild exactly that node |
| `FdtRoundTrip.NestedNode` | goes/internal/fdt/fdt.go:131-212 | no token of a listing closes a node or adds a property outside one |
| `FdtRoundTrip.TokStep` | goes/internal/fdt/fdt.go:131-212 | at each token's first byte, the parser reads that token and stops at the next one's first byte |
| `FdtRoundTrip.ParseRun` | goes/internal/fdt/fdt.go:131-212 | so the parser's state after any number of tokens is that of the tokens read one by one |
| `FdtRoundTrip.RoundTrip` | goes/internal/fdt/fdt.go:131-212 | any listing of a well-named tree parses back to the tree, with the stack empty, in either byte order |
| `FdtRoundTrip.WriteThenRead` | goes/internal/fdt/fdt.go:397-427 | flattening a well-named tree and parsing the result rebuilds it |
| `FdtRoundTrip.NameSurvives` | goes/internal/fdt/fdt.go:151-163 | a node name is read back as written exactly when it is not empty and holds no NUL |
| `DepOrder.OrderedAcyclic` | goes/elib/dep/dep.go:49-59 | an order that respects every dependency exists only without cycles |
| `DepOrder.NotOnPath` | goes/elib/dep/dep.go:49-59 | without cycles the recursion never meets an element it has not finished |
| `DepOrder.Deps.Add` | goes/elib/dep/dep.go:32-36 | one element more, with its dependencies, and the order is stale |
| `DepOrder.Deps.Collect` | goes/elib/dep/dep.go:83-92 | the bits set are the dependencies and the anti-dependencies turned round, no others |
| `DepOrder.Deps.OrderHelper` | goes/elib/dep/dep.go:49-59 | ends on any graph, appends each element reached once, after all it depends on if there is no cycle; what it appends for h is what h depends on, in the order of its list and each after what it reaches, and h last |
| `DepOrder.Deps.WalkAll` | goes/elib/dep/dep.go:110-118 | the order takes the elements as sorted, each after what it reaches that is not there yet; it is the sorted order itself when that respects the lists |
| `DepOrder.Deps.Sort` | goes/elib/dep/dep.go:83-118 | at any sort each element gets what stands where it wanted, which is what it wanted exactly when every position named holds one of its dependencies, as before the first sort; whatever permutation the name sort leaves, the order is a permutation and respects the lists exactly when they have no cycle; lists keep the elements' order, the elements are taken as sorted, each after what it reaches, and a sorted order that respects the lists is kept as it is |
| `DepOrder.Deps.Index` | goes/elib/dep/dep.go:61-78 | the i-th of that order or of its reverse, sorting first if an element was added since; i itself without elements |
| `DepOrder.Renaming` | goes/elib/dep/dep.go:94-105 | converted lists read position j of the elements for index j |
| `DepOrder.StableIff` | goes/elib/dep/dep.go:94-105 | so they name what was wanted exactly when the elements map each wanted set into itself |
| `DepOrder.SecondSortLoses` | goes/elib/dep/dep.go:61-118 | three elements in a chain are added and sorted, a fourth is added: the lists the second sort is given make 2 wait for 1, its order puts 2 before 1 |
| `SrpcFrames.VarintRead` | goes/elib/srpc/srpc.go:141-160 | a header written reads back with its length, whatever follows |
| `SrpcFrames.VarintCut` | goes/elib/srpc/srpc.go:155-160 | a header cut short is never taken for a header |
| `SrpcFrames.EncodedFirst` | goes/elib/srpc/srpc.go:141-160 | a frame at the front of a buffer is read whole and as sent |
| `SrpcFrames.EncodedCut` | goes/elib/srpc/srpc.go:162-199 | a proper prefix of a frame is never taken for one |
| `SrpcFrames.EncodedNoWrap` | goes/elib/srpc/srpc.go:141-199 | no part of a frame that was sent has a length that wraps |
| `SrpcFrames.EncodedBytes` | goes/elib/srpc/srpc.go:141-160 | the header bytes of short frames: twice the length, one more for a client's, seven bits a byte, the low ones first |
| `SrpcFrames.BigWraps` | goes/elib/srpc/srpc.go:141-199 | the ten bytes of the greatest 64-bit value are a header whose frame length wraps |
| `SrpcFrames.CutAnywhere` | goes/elib/srpc/srpc.go:201-217 | frames and residue of a stream do not depend on where it is cut into reads |
| `SrpcFrames.WirePrefix` | goes/elib/srpc/srpc.go:162-217 | what has arrived of a run of frames is a prefix of them, and the residue a proper prefix of the next, whose length does not wrap |
| `SrpcConns.Conn.Input` | goes/elib/srpc/srpc.go:162-199 | for any bytes each side's stream gains the contents of its peer's whole frames in order; what is left is the residue, and it panics exactly when the residue starts with a frame length that wraps 64 bits |
| `SrpcConns.Conn.Serve` | goes/elib/srpc/srpc.go:201-217 | over any reads, the same as if the bytes had come at once, up to the first residue that wraps |
| `SrpcConns.Conn.Read` | goes/elib/srpc/srpc.go:69-96 | with a buffer of any size a side reads the front of its own stream, as much as fits of what a short read left over or else of the next buffer, and leaves the rest, and the other side's, as it was |
| `SrpcConns.Delivered` | goes/elib/srpc/srpc.go:162-217 | at any moment a side has been handed exactly its peer's first frames that have arrived whole |
| `SrpcConns.AllDelivered` | goes/elib/srpc/srpc.go:98-217 | when all has arrived each side has all its peer sent and no residue is left |
| `SrpcConns.OneSided` | goes/elib/srpc/srpc.go:128-133 | what a client sends reaches the server alone, and what a server sends the client alone |
| `EnqueueRefs.Enqueue.SetLen` | goes/elib/loop/call.go:378-390 | after SetLen, GetLen returns that length, 256 included, or 256 for a zero on a pending output; no other output changes, and a first positive length makes the output the last pending one |
| `EnqueueRefs.Enqueue.Sync` | goes/vnet/node.go:96-101 | the length of every output is the number of refs sent to it, and the cached one is pending if it has any |
| `EnqueueRefs.Enqueue.Put` | goes/vnet/node.go:117-120 | a ref for an output that is not cached goes to its end and nowhere else |
| `EnqueueRefs.Enqueue.Put1` | goes/vnet/node.go:122-140 | exactly this ref goes to the end of exactly this output |
| `EnqueueRefs.Enqueue.Put2` | goes/vnet/node.go:149-180 | the same as two single puts in order, whichever guess was rolled back; two refs to one output make it the cached one |
| `EnqueueRefs.Enqueue.Put4` | goes/vnet/node.go:182-209 | the same as four single puts in order; the last two refs, if to one output, make it the cached one |
| `EnqueueRefs.Enqueue.Run` | goes/vnet/node.go:96-209 | over any sequence of puts each output gains the refs sent to it, in order |
| `EnqueueRefs.Enqueued` | goes/vnet/node.go:96-209 | after any sequence of at most 256 refs and a sync, each output's vector holds exactly its refs in order, and it is pending exactly if it has any |
| `IfOutput.CopyChain` | goes/vnet/interface_node.go:297-319 | every buffer of the packet is copied, in order, and every byte counted |
| `IfOutput.SlowPath` | goes/vnet/interface_node.go:297-352 | a packet that does not fit starts the next vector whole, one that just fits ends this one, nothing is sent while there is room left, and one that fits no vector panics |
| `IfOutput.Step1` | goes/vnet/interface_node.go:260-272 | one packet more, whole, on either path, with bytes and packets exact; panics exactly if it fits no vector |
| `IfOutput.Step4` | goes/vnet/interface_node.go:239-259 | four packets more, on the fast path or redone on the slow one; panics exactly if one of them fits no vector |
| `IfOutput.IfOutput` | goes/vnet/interface_node.go:225-294 | for any input the vectors sent are its packets cut between packets, at most 256 buffers each and none sent before it is full or the next packet does not fit; packet counts exact; all packets and their bytes counted unless it panics, which it does exactly on an empty input or a packet that fits no vector |
| `IfOutput.PackedAll` | goes/vnet/interface_node.go:218-294 | put together they are all the input's buffers in order, and all its packets |
| `IfOutput.SamePacking` | goes/vnet/interface_node.go:225-352 | the input fixes the vectors: two such packings of all of it are the same |
| `BufferPools.HalvedPositive` | goes/elib/hw/buf.go:516-523 | with buffers of at most half a megabyte a growth makes at least one and stays within a megabyte |
| `BufferPools.GrowsIff` | goes/elib/hw/buf.go:516-523 | the growth loop makes progress on every request exactly when a buffer is at most half a megabyte |
| `BufferPools.ChainKept` | goes/elib/hw/buf.go:618-633 | following a chain reads only the buffers before its last |
| `BufferPools.FollowNext` | goes/elib/hw/buf.go:618-633 | lists every buffer of the chain after the head, in order, and stops at the last |
| `BufferPools.StridedAt` | goes/elib/hw/buf.go:592-611 | the i-th source ref ends up at i strides |
| `BufferPools.StridedElse` | goes/elib/hw/buf.go:592-611 | places between strides are left alone |
| `BufferPools.CopyRefs` | goes/elib/hw/buf.go:592-611 | the four-at-a-time copy is the one-at-a-time copy, for every stride |
| `BufferPools.HeadsAndTails` | goes/elib/hw/buf.go:676-759 | heads and followed buffers of disjoint acyclic chains are all their buffers, each once |
| `BufferPools.TailKept` | goes/elib/hw/buf.go:637-698 | resetting the heads freed so far leaves the rest of every chain readable |
| `BufferPools.BufferPool.Carve` | goes/elib/hw/buf.go:524-549 | a chunk of memory becomes exactly its buffers, the one at its start last, which overlap neither each other nor any older one; older headers are as they were |
| `BufferPools.BufferPool.Grow` | goes/elib/hw/buf.go:516-551 | exactly the halved request more buffers, at least one, from the next memory; the free ones before it and all headers in place |
| `BufferPools.BufferPool.AllocRefsStride` | goes/elib/hw/buf.go:508-582 | hands out that many different buffers that nobody held, from the end of the free list, at the stride asked for; grows only if it must and by fewer than 256 too many; headers as they were; free and held stay a partition of all carved |
| `BufferPools.BufferPool.FreeRefsNoNext` | goes/elib/hw/buf.go:700-713 | every ref once, in order, flags cleared; exactly these buffers' headers are reset |
| `BufferPools.BufferPool.FreeRefsNext` | goes/elib/hw/buf.go:676-698 | the heads once, in order, and the list of what follows them; exactly the heads' headers are reset |
| `BufferPools.BufferPool.FreeRefs` | goes/elib/hw/buf.go:717-759 | gives back the heads, and with freeNext every buffer of every chain exactly once; exactly the headers of those given back are reset; free and held stay a partition of all carved |
| `BufferPools.ChainSurvivesFree` | goes/elib/hw/buf.go:637-759 | a chain of buffers that are not given back is the same chain after any free |
| `BufferPools.ChainSurvivesAlloc` | goes/elib/hw/buf.go:508-582 | every chain is the same after any allocation |

## Left out

Contracts that are weaker than the source, or narrower than all its inputs:

- FibHeaps.FibHeap.Min: that it panics only with F(34) live elements or more; not which heaps of that size make it. The event pool keeps below that.
- EventPool.Pool.Add: times within 2^63 of each other, since the wrapping comparison is no order otherwise; indices stay below the two sentinels of the heap.
- BlockHeap.Heap.GetAligned: a zero size with an alignment above one is excluded: it slips past the size check of the source, asks for the padding alone and ends in a block of size zero. Alignment is passed as a number, not as its logarithm.
- BlockHeap.Heap.Get: the heap stays below 2^32 - 1, where the 32-bit offsets of the source would wrap.
- HeapRuns.Run: aligned requests as in `GetAligned`, and heaps below 2^32 - 1.
- HashTables.Hash.Set: capacities and seeds of successive growths are inputs, because their rounding uses floating point and their seeds are random; the source never runs out of them.
- HashTables.PairTable.HashResize: offsets count keys; the source scales them by the number of pairs in a key.
- MaskTreeTrials.Trials.Step: the coins are given as a finite row of draws, where the source draws for ever. The bits split on, and whether a rise in cost is accepted, are nondeterministic. Costs are compared exactly, where the source rounds them to floats. The count of steps is raised before the edit rather than after.
- MaskTreeTrials.Trials.Join: the temperature is only zero or not; whether a rise in cost is accepted at any other is open.
- MaskTreeTrials.Trials.AddDel: pairs come with the offset the pair hash gives them; the keys' hash is modelled apart.
- MaskTreeSaves.RoundTrip: the words that hold the flags are sets of bits.
- FdtRoundTrip.WriteThenRead: trees whose names are not empty and free of NULs, whose map keys are the names and whose depths are the levels, in fewer than 2^32 bytes.
- FdtFormat.Parse: Go's `int` has 64 bits and a slice's capacity is its length, so a read past the end panics.
- DepOrder.Deps.Sort: every element named by another has been added, and once only.
- SrpcConns.Conn.Serve: the residue and the next read fit one buffer, whose length is an `int`.
- SrpcConns.Conn.Read: called when there is something to read; the source blocks otherwise.
- EnqueueRefs.Enqueued: at most 256 refs in total, the vector the source takes them from.
- BufferPools.BufferPool.AllocRefsStride: buffers of at most half a megabyte, by `GrowsIff`; DMA memory is handed out by a bump allocator that never fails.
- BufferPools.BufferPool.FreeRefs: chains disjoint, acyclic and held by the caller, as the source's own debug states demand.

Not modelled:

- `FibHeap.Merge` (it does not keep the forest), `Heap.GetUsage` and `Heap.Foreach` (they visit recycled elements), `BitmapPool.AndNot`.
- Bitmaps, which are sets; pools of free indices, which are sets except in the event pool.
- The mixing of hash values, statistics, event logs, interface counters, debug states of buffers.
- The hash that finds an offset inside one leaf's vector, which is a plain sequence here; float costs.
- Files and gob encoding around save and restore; queries on device trees and reading those of the kernel.
- The channels by which the loop hands events to nodes, the handlers of events, timeouts, `delActive`, and the stale argument that `Activate` keeps when its swap is retried (its steps are in the protocol, no property is stated of them).
- The debug check that a suspend call still names the poller its node was polled with; it looks up the one the node has. Counts are added by a node's own goroutine only, as every caller in the repository does.
- Depth of the event channel: a full channel passes events to the timed pool.
- A transmit interface that is down, the free list of transmit vectors and suspension by a full transmit queue.
- Buffer templates, `InitRefs`, the saved header word, `AllocCachedRefs`, `RefChain.Append`, the receive ring.
- Recycling of read buffers, partial writes and closing of connections.
- Recover handlers, and the checks of `Validate` methods that only restate invariants proved here.
