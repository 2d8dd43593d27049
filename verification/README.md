# The nginx core under Nginx::Engine, in Dafny

Nginx::Engine is an asynchronous engine for Perl built on the core of nginx 0.8.54. This project models the data
structures, allocators and protocols the engine rests on, and the engine's own writer, and proves what they are for.
Code that changes things in place is a class whose fields are the memory the code changes: a node, a page descriptor or
a cache entry is a record in a map or a sequence, a pointer is a key of it, and ghost fields hold what the memory stands
for. Each operation is a method with the branches of the source, and the invariant of a class is preserved by all of
its methods, save the cases named below.

- `RbLinks`, `RbColour`, `RbUnlink`, `RbTree`, `RbShape`: the red-black tree with parent pointers and a shared sentinel.
  `RbLinks` has the pointer structure, `RbColour` colours and black heights, `RbUnlink` the substitution of a deleted node,
  `RbTree` the operations, `RbShape` what the pointer invariant means for the tree they span. The parent of the root is
  left free, because delete leaves it stale.
- `StrTree`: runs of inserts and deletes, and the lookup of strings by hash, length and bytes.
- `Timers`: timers whose millisecond keys wrap around, related to true deadlines.
- `AcceptMutex`: any number of workers that compete for the accept mutex, as interleaved steps.
- `SlabLists`, `SlabPool`, `SlabSteps`, `Slab`: the slab allocator and its doubly linked lists. `SlabWords`,
  `SlabPacked`: the same state packed into 64-bit words, where lengths, marks, shifts, maps and page types share fields.
- `Basics`: powers of two and sequences without duplicates.
- `FileCache`: the open file cache with its tree, queue, counter, reference counts and descriptors.
- `Radix`: the binary trie of 32-bit prefixes with its free list.
- `ConfToken`, `ConfText`: the configuration scanner behind its 4096-byte buffer, and directives written for it.
- `Writers`: the three write handlers, as refinements of one byte stream.
- `GmTime`, `Crc32`, `Inet6`, `Base64`, `Uri`: calendar, checksum and text codecs.
- `Pool`: the memory pool and the array that grows in it.
- `Hash`: the packed hash table.

Some properties one would expect of the code are not true of it. Each has an input that shows it and a condition under
which, and only under which, it holds:

- A worker that polls with accept events owns the mutex if and only if it went through the trylock in this iteration,
  provided no registration of events failed (`AcceptMutex.PollingOwnsLock`); `AcceptMutex.SkippedTrylockPolls` and
  `AcceptMutex.FailedAddPolls` are runs in which it does not.
- The accounts of the file cache balance after an open if and only if the answers about a held file agree: stat must not
  show a directory under the number of the open file, nor another file while the open that follows finds the old one
  (`FileCache.Cache.OpenCached`). `FileCache.RaceLost` is such an open.
- The slab allocator frees live blocks, and besides them accepts the head of a free run of pages and the chunks of a page
  that hold its bitmap (`Slab.AcceptsIff`). A free run is only moved to the front; the pool is damaged if and only if the
  chunk of a bitmap was freed (`Slab.Pages.FreeLocked`), as in `Slab.FreedBitmap`. It looks behind its descriptors exactly
  for addresses between the last page and the end of the pool, such as that end (`Slab.FreedEnd`).
- An allocation from the slab pool whose size wraps around when it is rounded up to pages ruins the pool if and only if
  there is a free run (`Slab.Pages.AllocLocked`, `Slab.AskedForAll`).
- The IPv6 parser reads through a null pointer if and only if the text begins, after at most one colon, with one to four
  hexadecimal digits and a dot (`Inet6.WildIff`). The parser of networks hands it every such text that the IPv4 parser
  refuses, and of the dotted quads that is 255.255.255.255 alone (`Inet6.ParseEither`, `Inet6.QuadLost`,
  `Inet6.AllOnesLost`).
- The radix tree reads the parent of its root if and only if the empty prefix is deleted from a root without children
  (`Radix.Tree.Delete`), as from a new tree (`Radix.RootLost`).
- The loop that expires timers ends when handlers set timers with positive delays (`Timers.Timers.ExpireTimers`). An action
  makes a timer due if and only if it sets one with a delay of 0 that is not already set near now
  (`Timers.FewerDueIff`), and then the loop need not end (`Timers.Timers.Spin`).
- The date stored for a time is right if and only if its year is below 0x80000000 (`GmTime.StoredIsRight`).
- Unescaping undoes escaping with the refresh table if and only if the string has no percent sign (`Uri.RoundTrip`,
  `Uri.PercentLost`). The comment above that table says that percent signs are escaped; the mask does not do so, and the
  model follows the mask.
- Printed IPv6 text is read back unless it ends in 255.255.255.255 (`Inet6.RoundTrip`, `Inet6.Broadcast`).
- The element pushed to an array lies in the array's memory if and only if the array had room for an element before or
  could grow in place (`Pool.Array.Push`, `Pool.PushedOutside`).
- For sizes of 16 bits, the sums of the hash table decide whether names fit if and only if buckets have fewer than 32768
  usable bytes, which are those of the bucket size but 8 (`Hash.AcceptsIff`, `Hash.SumWraps`).
- A wrapped key difference is the time difference if and only if that lies in half the key range
  (`Timers.WindowDiffIff`, `Timers.HalfRangeAhead`).

What the system does (memory, files, sockets, the clock, other handlers) is a parameter of the methods that ask for it.

## Model

| member | source | states |
|---|---|---|
| `RbTree.Tree.constructor` | nginx/src/core/ngx_rbtree.h:43-47 | the empty tree with a black sentinel satisfies the invariant |
| `RbTree.Tree.LeftRotate` | nginx/src/core/ngx_rbtree.c:325-352 | a left rotation is the one of the textbook on the linked tree, keeps every link, the in-order sequence, all colours and all data |
| `RbTree.Tree.RightRotate` | nginx/src/core/ngx_rbtree.c:355-382 | the same for the right rotation |
| `RbTree.Tree.FindLeaf` | nginx/src/core/ngx_rbtree.c:96-118 | the walk ends at a free pointer whose place in the in-order sequence is one where the new node is sorted |
| `RbTree.Tree.InsertValue` | nginx/src/core/ngx_rbtree.c:96-118 | the new node becomes a red leaf at its sorted place; at most its own red parent is wrong |
| `RbTree.Tree.RedUncle` | nginx/src/core/ngx_rbtree.c:53-57 | recolouring around a red uncle moves the only possible fault up to the grandparent |
| `RbTree.Tree.InsertFixupLeft` | nginx/src/core/ngx_rbtree.c:50-68 | one turn of the insert loop keeps the tree correct but for its focus, and ends the loop or moves to a larger subtree |
| `RbTree.Tree.InsertFixupRight` | nginx/src/core/ngx_rbtree.c:70-88 | the mirror image of that turn |
| `RbTree.Tree.InsertFixup` | nginx/src/core/ngx_rbtree.c:46-92 | the insert loop terminates with a red-black tree whose in-order sequence and data are unchanged |
| `RbTree.Tree.Insert` | nginx/src/core/ngx_rbtree.c:23-93 | insert keeps the red-black invariant and the order, and adds exactly the node, at a sorted place |
| `RbTree.SortedInsert` | nginx/src/core/ngx_rbtree.c:96-118 | an entry put at a place below which nothing exceeds it leaves the in-order sequence sorted, duplicates included |
| `RbTree.Tree.Min` | nginx/src/core/ngx_rbtree.h:72-80 | the leftmost node is the first of the subtree in in-order sequence |
| `RbTree.Tree.FixRedSiblingLeft` | nginx/src/core/ngx_rbtree.c:264-269 | the red-sibling step leaves the same short subtree with a black sibling |
| `RbTree.Tree.FixInnerNephewLeft` | nginx/src/core/ngx_rbtree.c:276-281 | the inner-nephew step brings the red nephew to the outside |
| `RbTree.Tree.FixOuterNephewLeft` | nginx/src/core/ngx_rbtree.c:283-287 | the outer-nephew step repairs the missing black node for good |
| `RbTree.Tree.DeleteFixupLeft` | nginx/src/core/ngx_rbtree.c:261-288 | one turn of the delete loop keeps the tree correct but for one missing black node, and ends the loop or moves to a larger subtree |
| `RbTree.Tree.DeleteFixupRight` | nginx/src/core/ngx_rbtree.c:290-317 | the mirror image of that turn |
| `RbTree.Tree.DeleteFixup` | nginx/src/core/ngx_rbtree.c:257-321 | the delete loop terminates with a red-black tree |
| `RbTree.Tree.TakeRoot` | nginx/src/core/ngx_rbtree.c:187-198 | deleting a root with a free child pointer: the child becomes a black root, whose parent field stays as it was |
| `RbTree.Tree.UnlinkSelf` | nginx/src/core/ngx_rbtree.c:200-211 | unlinking a node with a free child pointer removes exactly it, and at most one black node is missing |
| `RbTree.Tree.UnlinkSubst` | nginx/src/core/ngx_rbtree.c:177-251 | the in-order successor takes links and colour of the deleted node; exactly the node is removed |
| `RbTree.Tree.Delete` | nginx/src/core/ngx_rbtree.c:157-322 | delete of a node of the tree keeps the red-black invariant and the order and removes exactly that node, whose links are cleared |
| `RbColour.RedParentFacts` | nginx/src/core/ngx_rbtree.c:48-51 | in a faulty insert state the parent is not the root and the grandparent is black |
| `RbColour.Recoloured` | nginx/src/core/ngx_rbtree.c:53-57 | the new colours around a red uncle keep equal black heights |
| `RbColour.OuterTurn` | nginx/src/core/ngx_rbtree.c:65-67 | the recolouring and rotation of the outer case keep equal black heights and remove the red-red pair |
| `RbColour.RedSibling` | nginx/src/core/ngx_rbtree.c:264-269 | the red-sibling rotation keeps black heights and the short subtree short by one |
| `RbColour.BlackNephews` | nginx/src/core/ngx_rbtree.c:271-273 | a black sibling with black children turns red, which moves the missing black node to the parent |
| `RbColour.OuterNephew` | nginx/src/core/ngx_rbtree.c:283-287 | after the outer-nephew rotation no black node is missing |
| `RbShape.ColouredIsRedBlack` | nginx/src/core/ngx_rbtree.c:23-93 | the pointer invariant means: the tree read off the pointers is red-black with a black root and its in-order walk is the ghost sequence |
| `RbShape.LogarithmicHeight` | nginx/src/core/ngx_rbtree.c:23-93 | every state of the invariant has height at most 2 log2(n + 1) |
| `StrTree.Run` | nginx/src/core/ngx_rbtree.c:157-382 | any run of inserts and deletes of present nodes ends in a sorted red-black tree of logarithmic height that holds exactly the inserted and not deleted nodes, each once and with the entry it was given |
| `StrTree.NumberTree` | nginx/src/core/ngx_rbtree.c:96-118 | after any run from the empty tree the keys of the in-order walk ascend |
| `StrTree.StrLessOrdering` | nginx/src/core/ngx_string.c:1678-1715 | comparing hash, length and bytes in this order is a strict weak order |
| `StrTree.Lookup` | nginx/src/core/ngx_string.c:1718-1758 | the lookup returns a node with this hash and these bytes if the rebalanced tree has one, and NULL only if it has none |
| `StrTree.StringTree` | nginx/src/core/ngx_string.c:1678-1758 | after any run from the empty tree the lookup finds a node if and only if an entry with this hash and these bytes was inserted and not deleted, and then one that has them |
| `Timers.WindowDiffIff` | nginx/src/core/ngx_rbtree.c:121-154 | the wrapped signed difference of two keys is the difference of the times exactly when that is in half the key range |
| `Timers.HalfRangeAhead` | nginx/src/core/ngx_rbtree.c:121-154 | a time half the key range after another one compares as earlier |
| `Timers.WindowOrdering` | nginx/src/core/ngx_rbtree.c:121-154 | within a window of half the key range the wrapping comparison is a strict weak order |
| `Timers.SortedByDeadline` | nginx/src/core/ngx_rbtree.c:121-154 | in such a window the in-order walk visits timers in the order of their true deadlines |
| `Timers.Timers.constructor` | nginx/src/event/ngx_event_timer.c:26-47 | the empty timer tree |
| `Timers.Timers.AddTimer` | nginx/src/event/ngx_event_timer.h:57-98 | adding sets the true deadline to now plus delay, except that a set timer less than the lazy delay away is kept; no other deadline changes |
| `Timers.Timers.DelTimer` | nginx/src/event/ngx_event_timer.h:34-54 | deleting removes exactly this deadline |
| `Timers.Timers.FindTimer` | nginx/src/event/ngx_event_timer.c:50-72 | the time to wait is the one until the nearest true deadline, 0 when one is due, infinite when there is none |
| `Timers.FewerDueIff` | nginx/src/event/ngx_event_timer.h:57-98 | an action of a handler makes no timer due, except exactly when it sets one with a delay of 0 that is not already set near now |
| `Timers.Timers.ExpireOne` | nginx/src/event/ngx_event_timer.c:83-155 | one turn fires the nearest timer if it is due, after which the deadlines are those its handler leaves, and else says that none is |
| `Timers.Timers.ExpireTimers` | nginx/src/event/ngx_event_timer.c:75-158 | with handlers that delete timers or set them with a positive delay the loop terminates, fires only due timers in the order of their deadlines, none twice, and leaves none due; with idle handlers exactly the due ones are gone |
| `Timers.Timers.Spin` | nginx/src/event/ngx_event_timer.c:75-158 | a handler that sets its own timer with a delay of 0 keeps the loop turning, however many turns it has made |
| `AcceptMutex.WorkerStepInv` | nginx/src/event/ngx_event_accept.c:268-369 | every step of a worker, failed registrations included, keeps its registered accept events consistent with its memo of the lock |
| `AcceptMutex.WorkerStepLock` | nginx/src/core/ngx_shmtx.h:30-38 | a step takes a free lock, releases its own lock or leaves the lock word |
| `AcceptMutex.RunInv` | nginx/src/event/ngx_event.c:221-258 | the invariant holds after any interleaving of any number of workers |
| `AcceptMutex.PollingOwnsLock` | nginx/src/event/ngx_event.c:221-245 | whatever failed, a worker that polls owns the lock if and only if this iteration went through the trylock and left the memo set; with accept events, none of whose registrations failed, the memo is set |
| `AcceptMutex.OnePoller` | nginx/src/event/ngx_event_accept.c:268-306 | at most one worker polls with accept events after the trylock |
| `AcceptMutex.LockDiscipline` | nginx/src/event/ngx_event.c:221-258 | no step releases another worker's lock, a worker starts an iteration without the lock, and the unlock at the end of an iteration that took the lock frees it, whatever failed and whether or not the trylock was skipped |
| `AcceptMutex.SkippedTrylockPolls` | nginx/src/event/ngx_event.c:221-258 | a run of two workers in which one that skipped the trylock polls with accept events while the other owns the lock |
| `AcceptMutex.FailedAddPolls` | nginx/src/event/ngx_event_accept.c:283-286 | a run in which a failed registration leaves a worker polling with an accept event and without the lock |
| `SlabPool.LivePlaced` | nginx/src/core/ngx_slab.c:155-398 | a live block lies in the pool, is aligned to its size and does not cover the bitmap of its page |
| `SlabPool.LiveDisjoint` | nginx/src/core/ngx_slab.c:155-398 | two live blocks do not overlap |
| `SlabPool.PagesAccounted` | nginx/src/core/ngx_slab.c:620-693 | each page is in exactly one free run, block or slab page, and the three counts add up to the number of pages |
| `SlabPool.SlotListing` | nginx/src/core/ngx_slab.c:195-328 | a slab page is in its slot list if and only if it has a free chunk, and nothing else is |
| `Slab.Pages.constructor` | nginx/src/core/ngx_slab.c:75-137 | after the initialisation the pages fit behind the descriptors, all are free and nothing is live |
| `Slab.Pages.AllocPages` | nginx/src/core/ngx_slab.c:620-666 | the first run long enough is cut; NULL only if there is none |
| `Slab.Pages.FreePages` | nginx/src/core/ngx_slab.c:669-693 | exactly the block of the freed run stops being live |
| `Slab.Pages.UseChunk` | nginx/src/core/ngx_slab.c:196-328 | a listed page gives its lowest free chunk and leaves the list exactly when it was the last |
| `Slab.Pages.AllocLocked` | nginx/src/core/ngx_slab.c:155-398 | one new live block, the smallest of its kind that holds the size, or nothing changes and there was no room for it; a request is lost, with a free run cut for no page at all, if and only if rounding it up wraps around and there is a free run |
| `Slab.AskedForAll` | nginx/src/core/ngx_slab.c:162-178 | a new pool and a size for which that happens |
| `Slab.Pages.FreeLocked` | nginx/src/core/ngx_slab.c:412-617 | free reads behind its descriptors exactly for addresses between the last page and the end of the pool; it succeeds exactly on the addresses of `Slab.AcceptsIff`; a live block exactly stops being live, the head of a free run changes no block, and the invariant is lost if and only if a chunk of a bitmap was freed, which can then be handed out; a refused address is no block and nothing changes |
| `Slab.AcceptsIff` | nginx/src/core/ngx_slab.c:412-617 | of all addresses in the pool, free accepts the starts of live blocks, the heads of free runs and the chunks reserved for a bitmap, and no address is two of these |
| `Slab.FreedBitmap` | nginx/src/core/ngx_slab.c:412-490 | a pool with one chunk of 8 bytes in which the chunk of the bitmap is freed and the invariant lost |
| `Slab.FreedEnd` | nginx/src/core/ngx_slab.c:421-431 | the end of any pool is such an address |
| `Slab.Replay` | nginx/src/core/ngx_slab.c:155-617 | over any run of allocations and frees of held pointers what is held is what the answers say was allocated and not freed, lies in the pool, has the size asked for and never overlaps; the run is one of the steps that `SlabPacked.PerformAll` follows |
| `Slab.ScanSmall` | nginx/src/core/ngx_slab.c:202-250 | the scan of a bitmap of words finds the lowest free chunk and whether it was the last |
| `Slab.ShiftFor` | nginx/src/core/ngx_slab.c:181-190 | the chunk size is the least power of two that holds the bytes |
| `SlabWords.ScanWord` | nginx/src/core/ngx_slab.c:213-218 | the walk of a mask over a word that is not all ones finds its lowest clear bit and sets exactly that one |
| `SlabWords.TakeChunk` | nginx/src/core/ngx_slab.c:196-328 | in the words of a small, exact or big page the lowest free chunk is marked, shift, type and the other chunks stay, and the page is found full, and its links are cleared, if and only if no chunk is free |
| `SlabWords.DropChunk` | nginx/src/core/ngx_slab.c:433-560 | the test of a chunk reads its bit, the clearing changes no other chunk, shift or type, the page is found empty if and only if no chunk is left that a caller has, and it is linked to the front of its slot if and only if it was full |
| `SlabWords.NewPage` | nginx/src/core/ngx_slab.c:330-386 | the words of a page just cut up stand for its shift and for a map in which the chunks of the bitmap itself and the one handed out are in use |
| `SlabWords.SetPrev` | nginx/src/core/ngx_slab.c:352-356 | page type and pointer are read back from the one field that holds both |
| `SlabWords.TakeRun` | nginx/src/core/ngx_slab.c:627-652 | comparison of a length word and the mark at the start of a block: the length is read back |
| `SlabWords.DropRun` | nginx/src/core/ngx_slab.c:562-585 | a page outside the slabs is found free, inside a block or the head of a run exactly when its word stands for that, and the length without the mark is the length of the run |
| `SlabPacked.TakeFrom` | nginx/src/core/ngx_slab.c:196-328 | taking a chunk in the packed words is the step of the pool, for the lowest free chunk |
| `SlabPacked.DropFrom` | nginx/src/core/ngx_slab.c:433-560 | freeing a chunk in the packed words is the step of the pool if and only if the chunk is in use, and else changes nothing |
| `SlabPacked.CutAt` | nginx/src/core/ngx_slab.c:330-386 | so is cutting up a page |
| `SlabPacked.TakePages` | nginx/src/core/ngx_slab.c:620-666 | so is taking pages from a run, the rest of the block and the rest of the run included |
| `SlabPacked.GivePages` | nginx/src/core/ngx_slab.c:669-693 | so is giving back a block or an emptied page |
| `SlabPacked.MovePages` | nginx/src/core/ngx_slab.c:669-693 | and so is freeing a run that is free already |
| `SlabPacked.PerformAll` | nginx/src/core/ngx_slab.c:155-693 | over any run of these steps the packed words stand for the pool that the steps lead to |
| `FileCache.Counts` | nginx/src/core/ngx_open_file_cache.c:129-460 | the counter is the number of entries in the tree |
| `FileCache.Accounts` | nginx/src/core/ngx_open_file_cache.c:129-460 | each open descriptor is in exactly one entry, each count is the number of cleanups still to run, and an entry outside the tree is in use |
| `FileCache.Cache.constructor` | nginx/src/core/ngx_open_file_cache.c:42-71 | the empty cache satisfies the invariant |
| `FileCache.Cache.Expire` | nginx/src/core/ngx_open_file_cache.c:722-770 | the expired entries are the last ones of the queue, at most three or two, inactive except the one forced out, and expiry stops only at an active one; no cleanup is lost and no descriptor closed twice |
| `FileCache.Cache.Evict` | nginx/src/core/ngx_open_file_cache.c:749-768 | the entry leaves tree and queue and, if nobody uses it, is closed and freed; other entries are as before |
| `FileCache.Cache.Requeue` | nginx/src/core/ngx_open_file_cache.c:659-699 | the entry becomes the most recently used one and is closed exactly when it is unused and was used too seldom |
| `FileCache.Cache.Cleanup` | nginx/src/core/ngx_open_file_cache.c:645-656 | one cleanup less for this entry, the same for the others, and the invariant is kept |
| `FileCache.Cache.Revalidate` | nginx/src/core/ngx_open_file_cache.c:196-326 | from a found entry every path leads to a label with the accounts that label needs, unless the file was replaced between two looks |
| `FileCache.Cache.Retest` | nginx/src/core/ngx_open_file_cache.c:250-326 | looking at the name again ends with the accounts of its label if and only if the two system calls agree on the file |
| `FileCache.Cache.Abandon` | nginx/src/core/ngx_open_file_cache.c:306-325 | an entry whose file was replaced is emptied for the new one, or orphaned when in use |
| `FileCache.Cache.Admit` | nginx/src/core/ngx_open_file_cache.c:336-367 | room is made by expiry and a new entry enters the tree within the limit |
| `FileCache.Cache.Settle` | nginx/src/core/ngx_open_file_cache.c:369-460 | what follows the labels restores the invariant and registers a cleanup exactly for an open file |
| `FileCache.Cache.OpenCached` | nginx/src/core/ngx_open_file_cache.c:129-460 | a caller gets the answer of the system, or the one the cache holds while that is young enough, with success exactly when it is one; the invariant holds afterwards if and only if stat and open did not disagree on a held file, and then exactly one cleanup was registered for an open file and none else |
| `FileCache.RaceLost` | nginx/src/core/ngx_open_file_cache.c:250-326 | a file that is opened, and opened again when stat shows a directory under its number: the invariant is lost |
| `FileCache.Cache.Drain` | nginx/src/core/ngx_open_file_cache.c:74-126 | destroying the cache empties tree and queue and closes all but the descriptors in use |
| `Radix.Tree.constructor` | nginx/src/core/ngx_radix_tree.c:14-55 | the new tree holds no prefix |
| `Radix.Tree.Find` | nginx/src/core/ngx_radix_tree.c:235-262 | find returns the value of the longest stored prefix of the key |
| `Radix.Tree.Insert` | nginx/src/core/ngx_radix_tree.c:107-169 | a stored prefix is refused as busy, another gets the value, no other prefix changes, and with memory there is no error |
| `Radix.Tree.Delete` | nginx/src/core/ngx_radix_tree.c:172-232 | exactly the prefix is removed; in a tree without empty leaves it fails if and only if the prefix is not stored; the parent of the root is read, through a null pointer, if and only if the empty prefix is deleted from a root without children, which in such a tree means that no other prefix is stored |
| `Radix.RootLost` | nginx/src/core/ngx_radix_tree.c:172-206 | a new tree is one |
| `Radix.AloneIff` | nginx/src/core/ngx_radix_tree.c:200-229 | in a tree without empty leaves the root has a child if and only if a prefix other than the empty one is stored |
| `Radix.Tree.Prune` | nginx/src/core/ngx_radix_tree.c:205-229 | unlinking a leaf and its empty ancestors changes no other prefix and puts the nodes on the free list |
| `Radix.Tree.Alloc` | nginx/src/core/ngx_radix_tree.c:265-290 | a node comes from the free list or from memory no node lies in |
| `Radix.GrownInv` | nginx/src/core/ngx_radix_tree.c:144-164 | linking a new node keeps tree, free list and their separation |
| `Radix.PrunedInv` | nginx/src/core/ngx_radix_tree.c:205-216 | unlinking a leaf keeps tree, free list and their separation |
| `Radix.Tree.Run` | nginx/src/core/ngx_radix_tree.c:107-290 | after any run of inserts and deletes, some of which may find no memory, the tree is the map of the prefixes and each answer is the one for the map; while no insert has failed the run ends early exactly at a delete of the empty prefix when no other is stored; with memory enough no insert fails |
| `ConfToken.ConfFile.constructor` | nginx/src/core/ngx_conf_file.c:445-459 | the scan begins at the start of the file |
| `ConfToken.ConfFile.ReadToken` | nginx/src/core/ngx_conf_file.c:433-737 | through the refilled buffer a call gives the code, words, line and position that a scan of the whole file gives, or a read error, this exactly when the scan has to refill the buffer more often than reads succeed |
| `ConfToken.RefillsBound` | nginx/src/core/ngx_conf_file.c:463-545 | a scan refills the buffer at most as often as bytes remain |
| `ConfToken.ConfFile.Underrun` | nginx/src/core/ngx_conf_file.c:463-545 | at the end of the buffer: the end of the file, the word that fills the buffer, a read that fails, or more text with the word in progress moved to the front |
| `ConfToken.LimitOnly` | nginx/src/core/ngx_conf_file.c:485-507 | the buffer size changes nothing but that a scan may stop with a parameter that is too long |
| `ConfToken.NoLimit` | nginx/src/core/ngx_conf_file.c:485-507 | a buffer longer than the file never does that |
| `ConfToken.AlignedStep` | nginx/src/core/ngx_conf_file.c:545-690 | when a word ends, its text does not end in an open escape |
| `ConfToken.CopyWord` | nginx/src/core/ngx_conf_file.c:685-723 | the unescape loop gives the unescaped text and writes as many bytes as its length |
| `ConfText.UnescapeEscape` | nginx/src/core/ngx_conf_file.c:691-721 | unescaping undoes escaping |
| `ConfText.RoundTrip` | nginx/src/core/ngx_conf_file.c:433-737 | a directive written with plain and quoted words is read back as exactly these words and up to its end, and the scanner gives up if and only if a word with its quote and blank fills the buffer |
| `Writers.Conserved` | ngxe_connection.c:390-1113 | in every run without a failure the bytes on the wire and those pending are the ones there were and those handed over, in order |
| `Writers.DrainedMeansSent` | ngxe_connection.c:390-1113 | when the success callback runs every byte handed over before is on the wire |
| `Writers.CoveredMeansDrained` | ngxe_connection.c:390-1113 | in a run without a failure the success callback runs once the bytes the system took cover those pending |
| `Writers.Session.ChopHandler` | ngxe_connection.c:854-1113 | the handler of a string that is cut off as it is sent does, round by round, what the answers of the system call for, is a run of the stream, waits only with bytes left, and fails only on a timeout, a failed send or a failed timer or event call |
| `Writers.Session.RefHandler` | ngxe_connection.c:390-600 | the same for a referenced string with an offset |
| `Writers.Session.ArrHandler` | ngxe_connection.c:604-847 | the same for an array with an index and an offset, which also fails on an element that is no string |
| `Writers.Session.Handler` | ngxe_connection.c:854-910 | whichever handler the buffer calls for, all this holds |
| `Writers.Session.Serve` | ngxe_connection.c:390-1113 | the write events of a connection are one run of the stream that follows the answers; if none of these is a failure nothing fails, nothing is lost, doubled or reordered, and the success callback runs once the system took as much as was pending |
| `GmTime.GuessIsClose` | nginx/src/core/ngx_times.c:290-308 | the estimated year is right or one too high |
| `GmTime.MonthOf` | nginx/src/core/ngx_times.c:310-322 | the closed formula for month and day of month is right on every day of the year |
| `GmTime.GmTimeIsRight` | nginx/src/core/ngx_times.c:263-353 | for every time the result is a date of the proleptic Gregorian calendar and a time of day that are this time, counted from January 1, 1970, with its weekday |
| `GmTime.StoredIsRight` | nginx/src/core/ngx_times.c:263-353 | what is stored, with the year cut to 32 bits, is right if and only if the time is before the year 0x80000000 |
| `GmTime.RoundTrip` | nginx/src/core/ngx_times.c:263-353 | and every such date is the result for its time |
| `GmTime.DayNumberInjective` | nginx/src/core/ngx_times.c:263-353 | different dates are different days |
| `Crc32.Table16Ok` | nginx/src/core/ngx_crc32.c:25-30 | the table of 16 entries is four bit steps of each digit |
| `Crc32.RowsOk` | nginx/src/core/ngx_crc32.c:33-98 | the table of 256 entries is the one the table of 16 determines |
| `Crc32.ByByteOk` | nginx/src/core/ngx_crc32.h:37-49 | one step with the table of 256 is eight bit steps |
| `Crc32.ByNibblesOk` | nginx/src/core/ngx_crc32.h:19-34 | two steps with the table of 16 are eight bit steps |
| `Crc32.CrcJoin` | nginx/src/core/ngx_crc32.h:56-68 | the CRC of a concatenation is that of the second text from that of the first |
| `Crc32.Short` | nginx/src/core/ngx_crc32.h:19-34 | the short form is the bit-by-bit CRC-32 of section 3.4 of RFC 2083 |
| `Crc32.Long` | nginx/src/core/ngx_crc32.h:37-49 | so is the long form |
| `Crc32.Update` | nginx/src/core/ngx_crc32.h:56-68 | so is an update |
| `Crc32.Pieces` | nginx/src/core/ngx_crc32.h:52-72 | initialisation, updates with the pieces of a text and the final step give the CRC of the whole |
| `Inet6.FindRun` | nginx/src/core/ngx_inet.c:289-315 | the run found is the first longest one of at least two zero words |
| `Inet6.Ntop` | nginx/src/core/ngx_inet.c:278-352 | the text printed is the specified text for that run |
| `Inet6.ParseInet6` | nginx/src/core/ngx_inet.c:61-174 | the parser accepts and stores what the specified scan gives, except that it reads through a null pointer exactly for the texts of `Inet6.WildIff` |
| `Inet6.WildIff` | nginx/src/core/ngx_inet.c:61-129 | these are the texts that begin, after at most one colon, with one to four hexadecimal digits and a dot |
| `Inet6.ParseEither` | nginx/src/core/ngx_inet.c:374-385 | the parser of networks tries the dotted parser first; it reads through the null pointer exactly for such texts that that one refuses |
| `Inet6.ParseQuad` | nginx/src/core/ngx_inet.c:16-56 | the dotted parser gives what the specified scan gives |
| `Inet6.InetAddrQuad` | nginx/src/core/ngx_inet.c:16-56 | a printed dotted quad is read back unless it is 255.255.255.255 |
| `Inet6.QuadLost` | nginx/src/core/ngx_inet.c:374-385 | of the dotted quads exactly 255.255.255.255 is one |
| `Inet6.AllOnesLost` | nginx/src/core/ngx_inet.c:374-385 | the text 255.255.255.255 is one |
| `Inet6.RoundTrip` | nginx/src/core/ngx_inet.c:61-352 | parsing the text printed for an address (section 2.2 of RFC 4291) gives the address, except exactly when a dotted tail 255.255.255.255 was printed |
| `Inet6.Broadcast` | nginx/src/core/ngx_inet.c:61-352 | ::ffff:255.255.255.255 is printed and not read back |
| `Base64.RoundTrip` | nginx/src/core/ngx_string.c:1056-1194 | decoding undoes encoding (section 4 of RFC 4648) for every string, and the code is as long as its callers reckon |
| `Base64.EncodeBase64` | nginx/src/core/ngx_string.c:1056-1094 | the loop writes the specified code |
| `Base64.DecodeBase64` | nginx/src/core/ngx_string.c:1097-1194 | the decoder gives the specified bytes or refuses a text exactly when a character is foreign or one letter is left over |
| `Uri.RoundTrip` | nginx/src/core/ngx_string.c:1336-1612 | unescaping undoes escaping (section 2.1 of RFC 3986) if and only if the table is not the refresh table or the string has no percent sign |
| `Uri.PercentLost` | nginx/src/core/ngx_string.c:1403-1421 | a percent sign escaped with the refresh table is lost |
| `Uri.CountUri` | nginx/src/core/ngx_string.c:1451-1466 | the counting pass predicts the length of the escaped string |
| `Uri.EscapeUri` | nginx/src/core/ngx_string.c:1468-1482 | the loop writes the specified escape |
| `Uri.UnescapeUri` | nginx/src/core/ngx_string.c:1485-1612 | the state machine writes the specified bytes and says how many it read |
| `Uri.ReadUpTo` | nginx/src/core/ngx_string.c:1505-1512 | what is unread does not matter, and only a question mark that ends the work leaves something unread |
| `Pool.Arena.constructor` | nginx/src/core/ngx_palloc.c:15-40 | a new pool has no user |
| `Pool.Arena.Take` | nginx/src/core/ngx_palloc.c:115-172 | memory is taken from a block that has room, aligned if asked, and none only if no block from the current one on has room |
| `Pool.Arena.PallocBlock` | nginx/src/core/ngx_palloc.c:175-212 | a new block enters the chain and gives the memory; the current block stays one of the chain |
| `Pool.Arena.PallocLarge` | nginx/src/core/ngx_palloc.c:215-251 | a large allocation is recorded in a free record or a new one |
| `Pool.Arena.Get` | nginx/src/core/ngx_palloc.c:115-142 | an allocation of any size is memory nobody else has and leaves everybody else's |
| `Pool.Arena.Pfree` | nginx/src/core/ngx_palloc.c:279-296 | free succeeds if and only if the pointer is a large allocation, and only its user loses memory |
| `Pool.Arena.Destroy` | nginx/src/core/ngx_palloc.c:43-92 | destroying gives back every block and every large allocation still held, each once |
| `Pool.RoomIsRight` | nginx/src/core/ngx_palloc.c:115-172 | with an aligned end the unsigned difference is the room left |
| `Pool.UnalignedEnd` | nginx/src/core/ngx_palloc.c:115-142 | with an end that is not aligned it can wrap, and then any size seems to fit |
| `Pool.GrownInv` | nginx/src/core/ngx_array.c:66-75 | growing the last allocation in place keeps all allocations in bounds and apart |
| `Pool.Array.constructor` | nginx/src/core/ngx_array.h:30-49 | the new array has no elements |
| `Pool.Array.Push` | nginx/src/core/ngx_array.c:52-96 | the new element is behind the others, which keep their bytes, as does everybody else's memory; it lies in the array's memory if and only if the array had room for an element or grew in place |
| `Pool.Array.PushN` | nginx/src/core/ngx_array.c:99-146 | n new elements behind the others in the array's memory, under the same guarantees |
| `Pool.PushedOutside` | nginx/src/core/ngx_array.c:52-96 | an array without room and with elements longer than the rest of its block, whose pushed element is outside its memory |
| `Hash.AcceptsIff` | nginx/src/core/ngx_hash.c:279-303 | with fewer than 32768 usable bytes in a bucket the 16-bit sums of the search accept a size if and only if every bucket has room |
| `Hash.SumWraps` | nginx/src/core/ngx_hash.c:279-303 | for every larger 16-bit number of usable bytes there are names whose sums wrap and that are accepted though they do not fit |
| `Hash.Packed` | nginx/src/core/ngx_hash.c:372-414 | no two elements overlap |
| `Hash.PackedEnds` | nginx/src/core/ngx_hash.c:372-426 | no element overlaps the end of a bucket |
| `Hash.InBucket` | nginx/src/core/ngx_hash.c:372-414 | every element lies in its bucket before its end |
| `Hash.FindSize` | nginx/src/core/ngx_hash.c:279-313 | the size found is the first that fits |
| `Hash.Init` | nginx/src/core/ngx_hash.c:250-454 | the table built has the first size that fits and holds the names; there is none only if an element is too big or no size fits |
| `Hash.Find` | nginx/src/core/ngx_hash.c:11-48 | find returns the value of the first element of the bucket with this name |
| `Hash.Lookup` | nginx/src/core/ngx_hash.c:11-48 | with distinct lower-case names and their hashes the table has for each name its value and for no other name one |

## Left out

- RbTree.Tree.Insert: the comparison is a parameter that must be a strict weak order on the entries; the string and timer orders are shown to be one.
- Timers.Timers.AddTimer: needs all deadlines and the time in a window of half the key range; outside it the order of the tree is not one of deadlines.
- Timers.Timers.FindTimer: needs the same window, as does `Timers.Timers.ExpireOne`.
- Timers.Timers.ExpireOne: needs the same window.
- Timers.Timers.ExpireTimers: needs the same window; handlers may delete timers and set them with a positive delay; `Timers.Timers.Spin` shows why.
- AcceptMutex.PollingOwnsLock: the posted events of an iteration are part of its poll; the rtsig build is not modelled.
- Slab.Pages.AllocLocked: pages of 4096 bytes on a 64-bit platform with the smallest chunk of 8 bytes; what a lost allocation writes is not modelled.
- SlabPacked.TakePages: the links of the neighbours in a list are written in `Slab` only.
- FileCache.Cache.OpenCached: the entry the lookup finds is a parameter, because the lookup gives up at the first node of another hash; the path without a cache, vnode events and the width of the count are not modelled.
- Radix.Tree.constructor: the preallocation of the first levels is not modelled.
- ConfToken.ConfFile.ReadToken: memory for words is always there; the copy of a word in progress to the front of the buffer is taken to move it; characters stand for bytes.
- Writers.Session.Handler: a reference to neither a string nor an array, for which the source reports an error and closes, is left out.
- Writers.Session.Serve: a callback leaves a buffer of the same kind with something to send; Perl values are byte sequences; a connection slot used again inside a callback is not modelled.
- GmTime.GmTimeIsRight: for times from 1970 on, as the source says, and before the year is cut to 32 bits; `GmTime.StoredIsRight` says when that does no harm.
- Inet6.ParseInet6: what the read through the null pointer gives is not modelled.
- Base64.DecodeBase64: the URL alphabet is not modelled.
- Pool.Arena.constructor: pool sizes are multiples of the alignment; `Pool.UnalignedEnd` shows why.
- Pool.Arena.Destroy: the cleanup handlers that run first are not modelled, nor are the reset of a pool and aligned large allocations.
- Pool.Array.constructor: the memory for the elements was taken from the pool before.
- Pool.Array.Push: sizes do not wrap around; destroying an array is not modelled.
- Hash.Init: bucket sizes from 32776 bytes on, with 32768 usable bytes or more, are excluded, for which `Hash.SumWraps` shows that the search accepts too much; wildcard names are not modelled.
- The DNS resolver, the event pipe and the output chain: they depend on the network or on filters outside these files.
- Sockets, cycles, processes, signals, logging, command line, configuration slots: input, output and glue.
- The layer over the Perl API, and lists, number parsing and formatting: they would only add easy members.
