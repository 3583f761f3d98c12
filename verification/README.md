# A verified model of the kernel's data structures and protocols

The repository is a Linux kernel in user mode: an ARM64 interpreter that runs cached, translated blocks, with
system calls and file systems around it. This project models the parts whose correctness is a property of
whole runs and proves those properties with Dafny 4.11. `dafny verify dfyconfig.toml` checks everything.

| file | what it models |
|---|---|
| BucketTable, BlockIndex, BlockChaining, BlockCache, Asbestos | the cache of translated blocks: a resizable hash and two page indexes, jumps patched to go straight to other blocks, invalidation and the jetsam list |
| BlockReclamation | the threads that run these blocks, each with private pointers into the cache, and the generation and lock protocol by which retired blocks are freed |
| HotTables | the tables of hot blocks and edges, which are the Space-Saving algorithm with eight counters |
| RecordLocks | POSIX record locks: one pass over a list that merges, cuts and splits while the request grows, and the threads that wait for one (`fcntl()`, System Interfaces volume of POSIX.1-2017) |
| PathResolution | path resolution, which starts again from the root at every symbolic link (section 4.13 of the Base Definitions volume of POSIX.1-2017) |
| Bits, FutexWakeOp, FutexQueues, FutexRuns, FutexTable | futexes: wait, wake, requeue and wake-op over hashed wait queues with reference counts, and a pipe per thread |
| InodeLifetime | an inode between the database of a fakefs mount and the table of inodes in memory |
| SubtreeRename | renaming a subtree by a range of keys |
| TtyLines | the canonical line discipline of a terminal (sections 11.1.6 and 11.2.2 of the Base Definitions volume) |
| MountTable | the mount list and its per-thread cache |
| GuestMemory, SoftTlb, SimdInterleave | guest memory with copy-on-write and lazily mapped pages, the software TLB in front of it, and the interleaved vector loads and stores |

Common holds the types they share.

Code that works in place is a class whose methods carry the loops of the source and are proved against
functions on values; what the source promises is proved about those functions. Protocols between threads are
state machines whose steps are the stretches of code under one lock, or between two of them, and the results
are about all runs.

## Where the code does not do what one would expect

- `TtyLines.ReadIsStandardIff`: a terminal read that finishes a line drops an end-of-file typed directly after
  it, so the reader never sees it (fs/tty.c:526-530). This happens exactly if the read takes the whole line,
  the line ends in a newline or end-of-line character, and the next line is a bare end-of-file.
- `MountTable.AllPairsRightIff`: the per-thread mount cache answers for every path below the cached point
  (fs/mount.c:34-51). All lookups are right exactly if no mount point other than the root has another below it.
- `MountTable.FollowedIsMountedIff`, `MountTable.TakenIsMountedIff`: the cache is tested and its pointer followed
  without the lock, and the reference is taken under it (fs/mount.c:34-63), while an unmount frees the mount
  before it announces a new version (fs/mount.c:139-146). The pointer leads to a mount exactly if the mount was
  not freed before the test and unannounced, nor freed since the test; likewise until the reference is taken.
  `MountTable.LookupAfterRun`: a new mount too is listed before it is announced (fs/mount.c:125-128), and the cache
  may still answer with the one below it.
- `PathResolution.ResolutionIsStandardIff`: path resolution departs from section 4.13 exactly in these ways
  (fs/path.c:64-122). A missing directory on the way is passed. A slash at the end is forgotten with the link
  before it, which shows exactly if the path then ends at a file of another kind. It is also forgotten when final
  links are not followed, which shows exactly if the path ends at a link or such a file. A directory with a slash
  behind it is refused if it cannot be searched, although nothing is looked up in it. And the sixth link gives
  ELOOP, although at least eight must be followed.
- `GuestMemory.StoreIsAllOrNothingIff`: an unaligned 64-bit store that fails on its second page has already
  written the bytes on the first (emu/tlb.c:258-268), unless they were there before. `SoftTlb.Tlb.Write` writes
  all bytes or none.
- `InodeLifetime.OpenAfterRun`: an open has opened the host file of a path and looked its inode up before it looks
  at the row of that inode (fs/fake.c:282-299, fs/generic.c:109-125). If a cleanup removes the row in between and
  the number is given to a new file, the descriptor has the data of the first and the row of the second. It has the
  row of its own file exactly if every such cleanup finds a path naming the inode; a file open on it is enough.
- `RecordLocks.LetThroughIsWokenIff`: a thread that waits for a lock is woken whenever a request lets it through, but
  never when the locks in its way are removed with their owner (fs/lock.c:245-254).
- `TtyLines.MeaningIsStandardIff`: newlines and carriage returns are translated before carriage returns are ignored
  (fs/tty.c:280-285), so with both settings a typed newline is dropped and a typed carriage return is not.

## Assumptions

- Blocks: a block covers fewer bytes than a page, and an original jump value can be told from a host pointer,
  as the code generator arranges. Block identities are not reused, and generations are natural numbers. Guest
  addresses have at most 48 bits where a result says what a compiled jump word names; beyond that it names another one.
- Locks: a range has its start at or before its end, and offset arithmetic stays within `off_t`.
- Paths: for the comparison with going on in place and with section 4.13, the directory a path starts from has been
  resolved itself, as the path of an open directory has (`PathResolution.RestartNeedsResolvedBase` and
  `RestartNeedsSearchableBase` show that this is needed); the file system does not change during one resolution, and
  the text fits its buffer. A link without text stands for the directory it is in, as section 4.13 allows.
- Futexes: allocation succeeds; the value of the futex word at the moment of a call is a parameter.
- Inodes: the database runs transactions one after the other, and the host file system and the path table agree
  on which paths exist, so a link is made only to a new path, and opening the host file and looking up its path are
  one step.
- Renames: the path table is changed first and rolled back if the host refuses. The host refuses when one path
  is below the other.
- Terminal: the settings stay canonical. Characters are bytes; comparing a signed `char` with a control
  character above 127 is not modelled.
- Memory: the mapping changes only inside a translation or between calls, and together with its count.

## Model

| member | source | states |
|---|---|---|
| BlockIndex.MeetsFirstOrLast | asbestos/asbestos.c:1101-1120 | a block within the size limit meets a page exactly if its first or its last byte lies in it, so two page lists are enough |
| BlockIndex.LookupFindsLive | asbestos/asbestos.c:992-1002 | the lookup in the hash finds a block exactly if it is the live one at that address: the resizable hash is a plain map |
| BlockIndex.ResizeKeepsTables | asbestos/asbestos.c:958-973 | rehashing to any size, in whatever order the buckets are walked, keeps every table right |
| BlockIndex.InsertKeepsIndex | asbestos/asbestos.c:975-990 | an insert, with the resize it may cause, keeps all three tables, the block count, the sum of sizes and the bound of fewer than two blocks per bucket |
| BlockIndex.RemoveKeepsIndex | asbestos/asbestos.c:1136-1141 | unlinking a live block keeps the tables, the count and the sum |
| BlockIndex.ForgetKeepsIndex | asbestos/asbestos.c:1159-1170 | freeing blocks that are not live does not touch the index |
| BlockIndex.PageBuckets | asbestos/asbestos.c:889-892 | a page list holds exactly the live blocks whose first or last page has that hash, colliding pages included |
| BlockChaining.PatchKeepsLinks | asbestos/asbestos.c:1016-1027 | chaining a slot to the live block at its original target keeps every slot either original or pointing at such a block and filed there |
| BlockChaining.UnlinkKeepsLinks | asbestos/asbestos.c:1142-1156 | restoring one slot keeps the links right |
| BlockChaining.UnlinkAllThins | asbestos/asbestos.c:1142-1156 | restoring the slots of a list removes those and adds none |
| BlockChaining.DisconnectUndoes | asbestos/asbestos.c:1142-1156 | after a disconnect no slot of the block is chained and no slot is chained to it, loops to itself included, and all other chains are as before |
| BlockChaining.DisconnectedMayRetire | asbestos/asbestos.c:1136-1157 | a disconnected block can leave the live set without breaking a link |
| BlockChaining.FreshKeepsLinks | asbestos/guest-arm64/gen.c:1035-1062 | a freshly generated block comes with original slot values and no links |
| BlockChaining.ForgetKeepsLinks | asbestos/asbestos.c:1159-1170 | freeing unlinked blocks leaves the links right |
| BlockChaining.ChainedSlotAgreesWithLookup | asbestos/asbestos.c:1005-1027 | a chained slot holds the block at the address its original value encodes |
| BlockChaining.WordNames | asbestos/guest-arm64/gen.c:1387-1390 | a word without bit 63 names no address, and the word the compiler writes for an address, with bit 63 set, names exactly that address if and only if it has at most 48 bits |
| BlockChaining.SlotHoldsWordOrBlock | asbestos/asbestos.c:1005-1027 | a slot compiled as 2^63 + a, for a below 2^48, holds that word or the code of the live block at address a |
| BlockChaining.UntaggedSlotStays | asbestos/asbestos.c:1009-1014 | a slot compiled as a word below 2^63 is never overwritten |
| BlockChaining.RetiredIsUnchained | asbestos/asbestos.c:1142-1156 | a retired block has no chained slot in or out |
| BlockCache.EmptyInv | asbestos/asbestos.c:860-872 | a new cache satisfies the invariant |
| BlockCache.FindIsMap | asbestos/asbestos.c:992-1002 | a lookup returns a block exactly if it is live and starts at that address |
| BlockCache.RetireKeepsInv | asbestos/asbestos.c:1136-1157 | retiring a block keeps index, links and jetsam list consistent |
| BlockCache.PagesRetiredExactly | asbestos/asbestos.c:894-914 | the loop over the pages retires exactly the live blocks listed under one of their hashes |
| BlockCache.InvalidationIsExact | asbestos/asbestos.c:894-914 | the blocks that survive an invalidation are exactly those not listed under a page hash of the range, and none of them was translated from a byte of the pages of the range, a page having 4096 bytes |
| BlockCache.InvalidationFacts | asbestos/asbestos.c:894-930 | an invalidation keeps the invariant and moves the generation exactly if it retired something |
| BlockCache.AllInvalidationIsTotal | asbestos/asbestos.c:931-951 | invalidating everything leaves no live block |
| BlockCache.FreeKeepsInv | asbestos/asbestos.c:1159-1170 | freeing the jetsam list leaves exactly the live blocks allocated |
| BlockCache.InsertKeepsInv | asbestos/asbestos.c:975-1091 | inserting a block whose address is free, with all eager chaining, keeps the invariant and makes it the result of the lookup |
| BlockCache.EagerChainKeepsInv | asbestos/asbestos.c:1029-1091 | eager chaining of outgoing and incoming jumps only adds chains and keeps the invariant |
| BlockCache.ChainBothKeepsInv | asbestos/asbestos.c:1271-1300 | the chaining step of the main loop only adds chains and keeps the invariant |
| BlockCache.ChainedDispatchIsLookup | asbestos/asbestos.c:992-1027 | following a chained slot lands on the live block that a lookup of its original target returns, and the slot is filed with that block |
| BlockCache.SlotIsWordOrLookup | asbestos/asbestos.c:992-1027 | a slot compiled as 2^63 + a holds that word or the code of the block that a lookup of a finds |
| BlockCache.LeavingChainsIff | asbestos/asbestos.c:1274-1298 | leaving one live block for another chains a slot compiled as 2^63 + a exactly if the other block is at address a, and leaves it as it is otherwise |
| BlockCache.OutgoingBothChainIff | asbestos/asbestos.c:1029-1051 | a slot of a new block compiled as 2^63 + a is chained exactly if a is in the page of the block and a live block is there, and then to that block |
| BlockCache.IncomingChainsIff | asbestos/asbestos.c:1053-1085 | a slot of an older block compiled as 2^63 + a is chained to a new block exactly if the new block is at a, in the same page, and fewer than two other blocks come before the older one in the page list |
| BlockReclamation.StepKeepsInv | asbestos/asbestos.c:1183-1375 | every step of every thread keeps the cache consistent, every retired block stamped with its generation, and every thread that trusts its private pointers holding only blocks retired later than the generation it has seen |
| BlockReclamation.IndexedAreLive | asbestos/asbestos.c:889-1002 | the hash and the page lists, which lookups, inserts and invalidations walk, hold live blocks only |
| BlockReclamation.JumpListsAreLive | asbestos/asbestos.c:1016-1157 | so do the jump lists, at both ends |
| BlockReclamation.TouchesAllocated | asbestos/asbestos.c:1183-1375 | in a state with the invariant an enabled step touches allocated blocks only: its own pointers, chained jumps, and every block on a shared list that the step searches, edits or frees |
| BlockReclamation.NoUseAfterFree | asbestos/asbestos.c:1183-1433 | in every interleaving of entering, looking up, chaining, running, invalidating, leaving and reclaiming, no step touches a freed block, the walks over shared lists included, and no block is freed twice |
| BlockReclamation.ChainedJumpsAgreeWithLookup | asbestos/asbestos.c:1271-1300 | in every interleaving a chained jump goes to the block a lookup would find |
| BlockReclamation.SlotsAreWordsOrBlocks | asbestos/asbestos.c:1005-1300 | in every interleaving a slot compiled for an address of 48 bits holds the word of the compiler or the code of the live block at that address |
| BlockReclamation.ThreadsRunWhatTheyAsk | asbestos/asbestos.c:1230-1303 | in every interleaving a dispatch to an address ends with a block for that address, and a chained jump in the live block at the address it was compiled for |
| BlockReclamation.CurrentHitIsLookup | asbestos/asbestos.c:1214-1260 | a hit in the private cache of a thread whose generation is current is what a lookup would give |
| Asbestos.Asbestos.constructor | asbestos/asbestos.c:860-872 | a new, empty cache |
| Asbestos.Asbestos.Lookup | asbestos/asbestos.c:992-1002 | the bucket scan returns what the specification of the lookup returns |
| Asbestos.Asbestos.ResizeHash | asbestos/asbestos.c:958-973 | the loops over the old buckets build the rehashed table and change nothing else |
| Asbestos.Asbestos.LinkIntoTables | asbestos/asbestos.c:975-990 | a block is counted and listed under its address, its first page and, if it differs, its last page |
| Asbestos.Asbestos.Insert | asbestos/asbestos.c:975-990 | the whole insert, resize and eager chaining included, against its specification |
| Asbestos.Asbestos.Patch | asbestos/asbestos.c:1016-1027 | writing a slot and filing it with its target |
| Asbestos.Asbestos.PrechainPatchSlot | asbestos/asbestos.c:1016-1027 | patches a slot compiled as 2^63 + a exactly if the target is at a, in the page of the block |
| Asbestos.Asbestos.PrechainOutgoing | asbestos/asbestos.c:1029-1051 | eager chaining of both slots of a new block |
| Asbestos.Asbestos.PrechainIncoming | asbestos/asbestos.c:1053-1085 | eager chaining of the blocks on the same page list that jump to a new one, up to the scan limit |
| Asbestos.Asbestos.PrechainList | asbestos/asbestos.c:1053-1085 | the scan of one list, skipping the block itself without counting it |
| Asbestos.Asbestos.ChainLast | asbestos/asbestos.c:1271-1300 | chains the slots of the last block that were compiled as 2^63 + a exactly if the next block is at a |
| Asbestos.Asbestos.Unlink | asbestos/asbestos.c:1142-1156 | one slot restored and unfiled |
| Asbestos.Asbestos.DisconnectSide | asbestos/asbestos.c:1142-1156 | both loops for one slot index |
| Asbestos.Asbestos.UnlinkFromTables | asbestos/asbestos.c:1136-1141 | the block leaves all lists and the counters |
| Asbestos.Asbestos.Retire | asbestos/asbestos.c:1136-1157 | a whole disconnect and the move to the jetsam list |
| Asbestos.Asbestos.RetireList | asbestos/asbestos.c:894-914 | the inner loop of an invalidation |
| Asbestos.Asbestos.RetireBuckets | asbestos/asbestos.c:935-946 | the loop over the buckets retires what they hold, and says whether it was anything |
| Asbestos.Asbestos.InvalidateRange | asbestos/asbestos.c:894-914 | the loop over pages and lists against its specification |
| Asbestos.Asbestos.InvalidateAll | asbestos/asbestos.c:931-951 | the loop over the buckets leaves no live block, moves the generation exactly if there was one, and gives the specified cache |
| Asbestos.Asbestos.FreeJetsam | asbestos/asbestos.c:1164-1170 | the jetsam list is freed, every block of it once |
| HotTables.RecordKeepsBounds | asbestos/asbestos.c:152-207 | one sample keeps every counter between the true frequency and that plus the smallest counter, and every untracked key at or below the smallest counter |
| HotTables.RecordAddsOne | asbestos/asbestos.c:152-207 | one sample adds one to the sum of the counters |
| HotTables.MinGrows | asbestos/asbestos.c:152-207 | the smallest counter never shrinks |
| HotTables.SpaceSavingBounds | asbestos/asbestos.c:152-207 | for every stream: the counters add up to its length, tracked keys are distinct, each count bounds the true frequency from above and exceeds it by at most the smallest counter, which is at most an eighth of the stream |
| HotTables.HeavyKeysAreTracked | asbestos/asbestos.c:152-207 | a key that makes up more than an eighth of the stream is in the table |
| HotTables.ExactWhileUnusedLeft | asbestos/asbestos.c:152-207 | while an unused counter is left, every count is exact |
| HotTables.HotTable.constructor | asbestos/asbestos.c:152-207 | eight unused counters, which bound the frequencies of the empty stream |
| HotTables.HotTable.Record | asbestos/asbestos.c:152-207 | after any number of samples the counters of the object bound the frequencies of all that was recorded |
| HotTables.HotTable.CountSlot | asbestos/asbestos.c:152-207 | the loops on the eight slots, in place, record the sample as specified and count an eviction exactly if a counter was taken over |
| RecordLocks.EditMeaning | fs/lock.c:83-128 | merging, cutting or splitting one lock against the request changes no byte outside the request and leaves the grown request to cover the rest |
| RecordLocks.EditKeepsApart | fs/lock.c:83-128 | the pieces of an edited lock stay disjoint and unmergeable with the grown request |
| RecordLocks.SweepMeaning | fs/lock.c:69-136 | the pass over one owner sets the requested range and nothing else, although the request grows on the way |
| RecordLocks.SweepKeepsValid | fs/lock.c:69-136 | what the pass leaves is well-formed, disjoint, and never two adjacent locks of one type |
| RecordLocks.PlacedMeaning | fs/lock.c:69-136 | on the whole list, other owners are untouched |
| RecordLocks.AcquireMeaning | fs/lock.c:50-136 | a granted request sets exactly its range for exactly its owner in the map from owner and offset to lock type |
| RecordLocks.AcquireKeepsValid | fs/lock.c:50-136 | granted or refused, the list stays grouped by owner, disjoint, unmergeable and free of conflicts |
| RecordLocks.RefusedMeaning | fs/lock.c:53-59 | a request is refused exactly if some byte of it is held by another owner in a way that excludes it |
| RecordLocks.RemovalMeaning | fs/lock.c:245-254 | removing by owner unlocks all bytes of that owner and no others |
| RecordLocks.RunRefinesMap | fs/lock.c:50-254 | every run of requests, unlocks and removals gives the same map as the same run on a plain function, and a valid list |
| RecordLocks.WritersAreAlone | fs/lock.c:50-136 | after every run, a byte one owner holds for writing is held by no other |
| RecordLocks.LetThroughIsWokenIff | fs/lock.c:50-136 | whenever a step lets a request through that was refused before it, it wakes the waiting threads exactly if it is not a removal by owner |
| RecordLocks.NobodySleepsInVain | fs/lock.c:217-243 | in every run of waiting and other requests without a removal by owner, a thread sleeps only while its request is refused |
| RecordLocks.SleepsInVain | fs/lock.c:245-254 | for every conflicting pair of requests: after a removal by owner the waiting thread sleeps on although nothing is in its way |
| RecordLocks.ConvertedAsks | fs/lock.c:140-182 | a converted request covers exactly the bytes POSIX has it ask for, measured from 0, from the file position or from the file size for whence 0, 1 and 2, and type word 0 is a shared lock, 1 an exclusive one |
| RecordLocks.ConversionFailsIff | fs/lock.c:140-167 | a request fails to convert exactly if the position or size it needs cannot be read, with that error, or whence is unknown, with EINVAL |
| RecordLocks.ConversionKeepsBytes | fs/lock.c:140-194 | a request asks for the same bytes after conversion and back, for positive, negative and zero lengths |
| RecordLocks.RefusedIsInTheWay | fs/lock.c:25-59 | a request is refused exactly if somebody else holds a byte it asks for exclusively, or holds one at all and it is exclusive itself |
| RecordLocks.GrantedSets | fs/lock.c:50-182 | a granted request sets exactly the bytes it asks for, for its owner, to the type it asks for |
| RecordLocks.ReportReadsBack | fs/lock.c:184-194 | a reported lock converted back is the lock |
| RecordLocks.GetAgreesWithSet | fs/lock.c:25-59 | a query reports a lock exactly when the same request would be refused, and the reported lock is in the way |
| RecordLocks.InodeData.constructor | fs/inode.c:36-37 | an inode without locks |
| RecordLocks.InodeData.Test | fs/lock.c:25-32 | the scan returns the first lock in the way, or none |
| RecordLocks.InodeData.MergeOrCut | fs/lock.c:83-128 | one lock of the owner edited in place in the list, with a wake-up exactly if it is cut |
| RecordLocks.InodeData.Pass | fs/lock.c:69-136 | the in-place pass over the locks of one owner and the insertion, with a wake-up exactly if a lock was cut |
| RecordLocks.InodeData.Place | fs/lock.c:69-136 | the same on a whole list, whose owner's locks it finds by itself |
| RecordLocks.InodeData.Acquire | fs/lock.c:50-136 | refusal changes nothing, otherwise the list is the specified one and stays valid; the waiting threads are woken exactly as specified |
| RecordLocks.InodeData.GetLk | fs/lock.c:196-215 | the error cases of a query, and otherwise: unlocked exactly if nobody is in the way of the bytes it asks for, or the type, range and holder of a lock that is there |
| RecordLocks.InodeData.SetLk | fs/lock.c:217-243 | the error cases of a request that does not wait, and otherwise: the bytes it asks for, from 0, position or size, get the type it asks for and no others change |
| RecordLocks.InodeData.RemoveOwnedBy | fs/lock.c:245-254 | the loop removes exactly the locks of the owner |
| PathResolution.RestartIsInPlace | fs/path.c:71-108 | starting again from the root at every symbolic link gives the same path or error as a stack machine that goes on in place with the same rules, from any base that is itself free of links and searchable |
| PathResolution.Replay | fs/path.c:71-108 | walking a resolved prefix again leads back to where it ended |
| PathResolution.UpUndoesDown | fs/path.c:43-51 | in all three resolvers, a searchable directory followed by ".." resolves as if neither were there, and ".." at the root as if it were not |
| PathResolution.LinkLeadsFrom | fs/path.c:87-107 | a link is followed from the root if its text begins with a slash and from its own directory otherwise, in going on in place and in section 4.13 |
| PathResolution.ComponentsJoin | fs/path.c:58-66 | two texts with a slash between them have the components of the one and then of the other |
| PathResolution.RestartNeedsSearchableBase | fs/path.c:71-122 | from a base that cannot be searched the restart fails where going on in place does not |
| PathResolution.RestartNeedsResolvedBase | fs/path.c:71-108 | from a base that is a symbolic link itself the restart ends at another path |
| PathResolution.InPlaceIsStandardIff | fs/path.c:64-122 | going on in place with the rules of the code gives what section 4.13 asks for, with whatever limit on links of at least five, exactly if the walk never comes to one of the places where the two part |
| PathResolution.ResolutionIsStandardIff | fs/path.c:8-133 | for every tree, base, path and limit of at least eight links: the kernel gives the result or error of section 4.13 exactly if its walk passes no missing directory, forgets no slash before a file of another kind, refuses no directory only for not being searchable at the end, leaves no link or such a file behind a slash unfollowed, and meets no sixth link that the limit allows |
| PathResolution.LoopIsTooManyLinks | fs/path.c:85-86 | section 4.13 gives ELOOP exactly if more links than the limit are met on the way |
| PathResolution.SlashAfterLinkIsLost | fs/path.c:64-71 | a link with a slash behind it to a regular file resolves, although the file with a slash behind it gives ENOTDIR |
| PathResolution.SlashAfterUnfollowedLinkIsLost | fs/path.c:64-71 | a link with a slash behind it is not followed when final links are not, although the slash asks for the directory |
| PathResolution.UnsearchedDirectoryIsRefused | fs/path.c:110-122 | a directory that may not be searched, with a slash behind it, gives EACCES, although nothing is looked up in it |
| PathResolution.MissingIsPassed | fs/path.c:110-122 | a missing directory followed by ".." resolves, although it should give ENOENT |
| PathResolution.SixLinksAreTooMany | fs/path.c:85-86 | a chain of six links gives ELOOP, although every system must follow eight |
| PathResolution.SlashLeavesNoLink | fs/path.c:71-108 | with a slash pending, resolution by section 4.13 never ends at a link or below one |
| PathResolution.ResultIsClean | fs/path.c:8-133 | a resolved path consists of components that are not empty, "." or ".." |
| PathResolution.LimitOnlyCuts | fs/path.c:85-86 | the limit of five expansions only ever turns a result into ELOOP |
| PathResolution.SplicedComponents | fs/path.c:87-107 | the text built from directory, link and rest has the components of the three, or of link and rest if the link is absolute |
| PathResolution.ComponentsOfText | fs/path.c:58-66 | the text of a stack of names splits into these names |
| PathResolution.FailuresAreNegative | fs/path.c:71-122 | the only errors are ELOOP, ENOTDIR and EACCES |
| PathResolution.SkipSlashes | fs/path.c:32-33 | the loop stops at the next component without losing one |
| PathResolution.CopyName | fs/path.c:58-66 | the loop copies exactly the next component |
| PathResolution.DropLast | fs/path.c:43-51 | the backward loop takes exactly the last component off the buffer, and nothing off the empty one |
| PathResolution.SkipDots | fs/path.c:36-56 | "." and ".." are handled as the stack machine handles them, and nothing else is skipped |
| PathResolution.Expand | fs/path.c:87-107 | the text to start again with has the components of directory, link and rest, and ends in a slash exactly if what ends it does |
| PathResolution.Enter | fs/path.c:58-122 | one component that names an entry: link, barrier or move on, with the errors of the specification |
| PathResolution.Walk | fs/path.c:35-127 | the loop over the components ends as the specification of the rest says |
| PathResolution.NormalizeFrom | fs/path.c:8-133 | the whole recursion, on text buffers, reports what the restarting specification says |
| PathResolution.Normalize | fs/path.c:135-160 | for every path, tree and base the result or error of starting again at every link; from a resolved base also that of going on in place, a clean path, and the result or error of section 4.13 whenever the condition for it holds |
| PathResolution.IsNormalized | fs/path.c:163-174 | the scan answers true exactly for the empty path and for paths that begin with a slash and have no two slashes in a row |
| FutexQueues.FindIsMap | kernel/futex.c:57-67 | the bucket scan finds the futex of an address exactly if there is one |
| FutexQueues.GetKeepsInv | kernel/futex.c:57-79 | taking a reference, creating the futex if need be, keeps one futex per address and adds one reference to the books |
| FutexQueues.PutKeepsInv | kernel/futex.c:91-97 | giving back a held reference keeps the books; when the count reaches zero the queue is empty, as the code asserts |
| FutexQueues.WakeTakesOldest | kernel/futex.c:214-229 | a wake takes the oldest min(max, n) waiters, sends each exactly one byte and changes nothing else |
| FutexQueues.MoveTakesOldest | kernel/futex.c:236-250 | a requeue to another address moves the oldest min(max, n) waiters, in order, to the tail of the other queue, references included |
| FutexQueues.MoveToItself | kernel/futex.c:236-250 | a requeue to the same address turns the queue max times if it has at least two waiters and changes nothing else |
| FutexQueues.MoveAlone | kernel/futex.c:236-250 | a requeue to the same address changes nothing if the queue has at most one waiter |
| FutexQueues.RotatedKeepsAll | kernel/futex.c:236-250 | turning a queue keeps its waiters |
| FutexQueues.MoveHeadKeepsInv | kernel/futex.c:240-249 | moving one waiter keeps the invariant, and the count of the first futex is above one as the code asserts |
| FutexQueues.StartWaitKeepsInv | kernel/futex.c:117-150 | the start of a wait, with its error returns, keeps the invariant |
| FutexQueues.LeaveKeepsInv | kernel/futex.c:161-201 | leaving the poll loop, woken or not, keeps the invariant |
| FutexQueues.EndWaitKeepsInv | kernel/futex.c:203-208 | the end of a wait takes the thread off whatever queue it is on and returns the reference of the futex it then names |
| FutexRuns.GetIsInvisible | kernel/futex.c:57-79 | taking a reference shows nowhere in the queues by address |
| FutexRuns.PutIsInvisible | kernel/futex.c:91-97 | giving one back, and freeing the futex, shows nowhere |
| FutexRuns.StartWaitShows | kernel/futex.c:117-150 | a wait puts the thread at the tail of the queue of its address with an empty pipe, or changes nothing and returns EFAULT or EAGAIN |
| FutexRuns.EndWaitShows | kernel/futex.c:203-208 | the end of a wait removes the thread from every queue |
| FutexRuns.WakeAtShows | kernel/futex.c:231-258 | FUTEX_WAKE on queues by address, with its count |
| FutexRuns.RequeueAtShows | kernel/futex.c:231-258 | FUTEX_REQUEUE on queues by address, with its count, for equal and different addresses |
| FutexRuns.CmpRequeueAtShows | kernel/futex.c:266-282 | FUTEX_CMP_REQUEUE with an unreadable or unexpected word changes nothing |
| FutexRuns.WakeOpAtShows | kernel/futex.c:363-382 | the wakes of FUTEX_WAKE_OP on queues by address, with their count |
| FutexRuns.WakeOpCallShows | kernel/futex.c:303-382 | the whole of FUTEX_WAKE_OP on queues by address: its errors wake nobody, and the second queue is woken exactly if the comparison with the old word holds |
| FutexRuns.WakeOpCallMeans | kernel/futex.c:307-381 | the whole call on queues and numbers: the oldest waiters of the first queue are woken, and those of the second exactly if the comparison of the signed old word holds |
| FutexWakeOp.ArgumentIsUnpacked | kernel/futex.c:309-316 | operation, shift, comparison and both signed operands are read out of the argument as Linux lays them out: bits 28, 24, 12 and 0 |
| FutexWakeOp.EveryArgument | kernel/futex.c:309-316 | every 32-bit argument is laid out so |
| FutexWakeOp.ComparisonMeans | kernel/futex.c:354-364 | for each of the six comparison codes, every word and every operand: the second queue is woken exactly if the old word as a signed number is ==, !=, <, <=, > or >= the operand |
| FutexWakeOp.NewWordMeans | kernel/futex.c:315-351 | the new word is the operand, the sum modulo 2^32, or has the union, difference or symmetric difference of the bits; a shifted operand has just that bit |
| FutexWakeOp.ErrorsMean | kernel/futex.c:315-364 | which arguments give EINVAL, EFAULT and ENOSYS, in that order, and that a failing call leaves the word unless only the comparison is unknown |
| FutexRuns.StepShows | kernel/futex.c:57-382 | every step does to the queues by address what the same step on queues does, and returns the same |
| FutexRuns.StepKeepsInv | kernel/futex.c:57-382 | every step of every thread keeps the invariant |
| FutexRuns.RunRefinesQueues | kernel/futex.c:57-382 | every run of any threads has the results and the queues of the same run on one first-in first-out queue per address, without futex objects, hash or counts |
| FutexRuns.NoWakeUpIsLost | kernel/futex.c:117-258 | after every run a thread in the poll loop is on the queue of its futex and no other with an empty pipe, or on no queue with exactly one byte in its pipe |
| FutexRuns.ReferencesAreWaits | kernel/futex.c:57-104 | after every run a futex exists exactly while a wait names it, and its count is the number of such waits |
| FutexTable.Futexes.constructor | kernel/futex.c:47-55 | empty hash buckets |
| FutexTable.Futexes.Get | kernel/futex.c:57-79 | the scan returns the futex of the address with one more reference, or a new one listed first in its bucket |
| FutexTable.Futexes.Put | kernel/futex.c:91-97 | one reference less; at zero, with the queue empty, the futex leaves its bucket |
| FutexTable.Futexes.WakeQueue | kernel/futex.c:214-229 | the loop equals the specified wake |
| FutexTable.Futexes.RequeueOldest | kernel/futex.c:240-249 | one round, with the assertion of the code proved |
| FutexTable.Futexes.RequeueWaiters | kernel/futex.c:237-250 | the loop, the next entry being read before the current one moves |
| FutexTable.Futexes.WakeUp | kernel/futex.c:231-262 | FUTEX_WAKE leaves the specified state and returns the number woken |
| FutexTable.Futexes.Requeue | kernel/futex.c:231-258 | FUTEX_REQUEUE leaves the specified state and returns the number woken and moved |
| FutexTable.Futexes.CmpRequeue | kernel/futex.c:266-302 | FUTEX_CMP_REQUEUE does the same if the word is as expected, and returns EFAULT or EAGAIN with all references given back otherwise |
| FutexTable.Futexes.WakeBoth | kernel/futex.c:363-382 | the wakes of FUTEX_WAKE_OP on one or both addresses, even if they are the same |
| FutexTable.Futexes.WakeOp | kernel/futex.c:303-382 | FUTEX_WAKE_OP with its errors, the new word and the number woken |
| FutexTable.Futexes.StartWaiting | kernel/futex.c:117-150 | the thread is queued last with an empty pipe, or EFAULT or EAGAIN with the reference given back |
| FutexTable.Futexes.EndWaiting | kernel/futex.c:203-208 | the thread leaves its queue, if still on it, and returns the reference of the futex it names by then |
| InodeLifetime.InMemoryIsTable | fs/inode.c:13-23 | scanning one bucket finds an inode exactly if it is in memory |
| InodeLifetime.CreatedKeepsInv | fs/fake-db.c:121-130 | a new row and path keep the invariant |
| InodeLifetime.LinkKeepsInv | fs/fake.c:339-352 | a new path to an inode keeps it |
| InodeLifetime.UnlinkKeepsInv | fs/fake.c:354-371 | removing a path leaves the row to the thread that did it |
| InodeLifetime.CleanUpKeepsInv | fs/fake.c:1017-1023 | the cleanup removes a row only when nothing refers to the inode, and otherwise leaves it accounted for |
| InodeLifetime.RetainedKeepsInv | fs/inode.c:25-45 | the count of an inode is the number of files open on it |
| InodeLifetime.CloseKeepsInv | fs/inode.c:68-83 | closing keeps the counts, and the last close leaves the row to be cleaned under the lock |
| InodeLifetime.StepKeepsInv | fs/generic.c:118-131 | every transaction and every locked stretch of every thread keeps the invariant, transactions of others in between included |
| InodeLifetime.StatNeverMissing | fs/fake.c:595-606 | after every run every open file and every path has its stat row, so reading it never dies |
| InodeLifetime.RowStaysIff | fs/inode.c:54-83 | over every run, the row of an inode is still the one made for a file exactly if no cleanup of that inode finds it without a path |
| InodeLifetime.OpenAfterRun | fs/generic.c:109-131 | after every run of a mount and for every open, whatever other threads do between its lookup, its stat and its reference: the descriptor has the host file it opened, and the row of that file exactly if every cleanup of the inode between lookup and stat finds a path naming it |
| InodeLifetime.OpenFileKeepsRow | fs/inode.c:54-83 | a file that stays open on the inode is enough for that: the row is not removed, and the descriptor keeps its file |
| InodeLifetime.BeforeIsReached | fs/fake.c:282-299 | a run of a mount in which a thread has opened and looked up a file |
| InodeLifetime.ReusedNumberIsOpened | fs/fake-db.c:121-130 | from there: the number of the removed file is given to a new one, and the descriptor ends up with the data of the first and the row of the second |
| InodeLifetime.NoOrphanRows | fs/inode.c:54-83 | after every run, once no unlink or close is under way, every row has a path or an open file |
| InodeLifetime.LinkNamesSame | fs/fake-db.c:152-160 | a new link names the inode of the old path, and no other path or row changes |
| InodeLifetime.UnlinkTakesPath | fs/fake-db.c:161-169 | an unlink takes away one path and no row, and leaves the thread the inode it named |
| InodeLifetime.OpenFindsOrMakes | fs/fake.c:286-309 | an open finds the inode of its path, or makes one with the given attributes if asked to, and changes nothing otherwise |
| InodeLifetime.SetAttrSetsRow | fs/fake-db.c:145-150 | setting attributes through a descriptor changes those of its inode and no others |
| InodeLifetime.Inodes.GetData | fs/inode.c:13-23 | the bucket scan answers true exactly if the inode is in memory |
| InodeLifetime.Inodes.GetUnlocked | fs/inode.c:25-45 | the inode is in memory with one more reference, created and listed if it was not there |
| InodeLifetime.Inodes.InodeOrphaned | fs/fake.c:1017-1023 | the row goes exactly if no path names the inode |
| InodeLifetime.Inodes.CheckOrphaned | fs/inode.c:54-60 | cleans up exactly if the inode is not in memory |
| InodeLifetime.Inodes.Release | fs/inode.c:68-83 | one reference less; the last one takes the inode out of memory and its row with it if no path is left |
| SubtreeRename.RangeIsSubtree | fs/fake-db.c:179-188 | under the byte order of keys the condition selects the source and exactly the keys that begin with it and a slash |
| SubtreeRename.ApartSubtrees | fs/fake-db.c:170-190 | the subtrees of two paths, neither below the other, share no key |
| SubtreeRename.RenameMovesSubtree | fs/fake-db.c:170-190 | a rename moves every path of the subtree with its inode and leaves what is in neither subtree |
| SubtreeRename.WithinMeans | fs/fake-db.c:179-188 | what moves is the source and the keys that have it, a slash (47) and anything after it |
| SubtreeRename.RenameMovesKey | fs/fake-db.c:170-212 | the row at source and rest is at destination and rest afterwards, and no longer at the source |
| SubtreeRename.RenameBackIff | fs/fake-db.c:170-190 | renaming back restores the table exactly if nothing was in the destination subtree |
| SubtreeRename.RenamedToItself | fs/fake-db.c:170-190 | a rename to the same path changes nothing |
| SubtreeRename.ChangedPrefix | fs/fake-db.c:200-212 | the two copies make the replacement followed by the rest of the key |
| SubtreeRename.Rename | fs/fake-db.c:298-299 | for any two paths the selected rows are updated one at a time, in any order, each replacing what has its new key; what is in neither subtree stays and no inode is made up; if neither path is below the other this gives the renamed table |
| SubtreeRename.RenameWithHost | fs/fake.c:392-405 | the table is as before if the host refuses, and renamed if it does not |
| TtyLines.LinesOfCellsOf | fs/tty.h:112-117 | lines written to a buffer with flags are read off it unchanged |
| TtyLines.CellsOfLinesOf | fs/tty.h:112-117 | a buffer is rebuilt from the lines read off it |
| TtyLines.FetchedSplits | fs/tty.c:489-530 | taking the characters of a read off the front of the buffer, and a mark that is then in front, takes what the standard says off the lines and one bare end-of-file more if it follows |
| TtyLines.FetchedConserves | fs/tty.c:489-530 | a read returns as many bytes as fit of the first line, in order and without the mark of an end-of-file, and keeps all others |
| TtyLines.NothingIsLost | fs/tty.c:274-346 | for every run without flushing signals: what the reads returned, followed by the finished lines, is byte for byte what the taken characters make by themselves, and so is the line being edited |
| TtyLines.RunFits | fs/tty.c:219-229 | the buffer never holds more than 4096 cells |
| TtyLines.ReadIsStandardIff | fs/tty.c:526-530 | on the buffer as the code edits it, a read returns the right characters always and leaves the right lines exactly if it does not finish a line that is followed by a bare end-of-file |
| TtyLines.EndOfFileTyped | fs/tty.c:313-327 | a, newline and end-of-file typed give a line and a bare end-of-file |
| TtyLines.EndOfFileIsSwallowed | fs/tty.c:526-530 | on the three cells of that buffer the first read leaves nothing, although a bare end-of-file should be left |
| TtyLines.MeaningIsStandardIff | fs/tty.c:280-285 | a typed character means what section 11.2.2 says exactly unless carriage returns are ignored and it is a newline translated to one or a carriage return translated from one |
| TtyLines.FinishesLineIff | fs/tty.c:280-316 | when a typed newline and when a typed carriage return finishes the line, for all settings |
| TtyLines.KeysMean | fs/tty.c:287-337 | for all settings and characters: erase takes one byte off the line being edited, kill the line, end-of-file and end-of-line finish it, signal characters flush or do nothing, NUL and all others are added |
| TtyLines.NewlineMeans | fs/tty.c:316-327 | a newline that is not translated finishes the line |
| TtyLines.TypedAllTakes | fs/tty.c:274-346 | of an input a first part is taken and edited in order: all of it, or up to a character that needs a cell when 4096 are in use |
| TtyLines.Tty.constructor | fs/tty.c:48-49 | an empty buffer |
| TtyLines.Tty.PushChar | fs/tty.c:219-229 | one cell more, or a refusal when full |
| TtyLines.Tty.EraseOne | fs/tty.c:303-305 | the last cell goes unless it carries a flag, which is erasing one character of the line being edited |
| TtyLines.Tty.EraseBack | fs/tty.c:301-311 | the loop erases from the line being edited only |
| TtyLines.Tty.InputChar | fs/tty.c:280-337 | one character does what the line discipline says |
| TtyLines.Tty.SendInputSignal | fs/tty.c:235-257 | which characters signal, and when they flush |
| TtyLines.Tty.Input | fs/tty.c:274-346 | the loop over the input, stopping at the first refusal |
| TtyLines.Tty.CanonSize | fs/tty.c:397-402 | the scan finds the end of the first line, or that there is none |
| TtyLines.Tty.ReadIntoBuf | fs/tty.c:388-395 | the characters in front go out and the rest moves up, flags included |
| TtyLines.Tty.Read | fs/tty.c:476-530 | the canonical read |
| MountTable.SearchIsOwner | fs/mount.c:66-75 | with a root mounted, the search finds a mount exactly if its point is the longest that covers the path by whole components and it is the newest there |
| MountTable.CoversMeans | fs/mount.c:70-74 | a point covers itself and what lies behind it and a slash, and nothing else |
| MountTable.InsertedSorted | fs/mount.c:119-125 | a new mount keeps the list in descending length and newest first at one point |
| MountTable.WithoutSorted | fs/mount.c:133-149 | so does removing one |
| MountTable.UmountMeans | fs/mount.c:133-163 | an unmount gives EINVAL without a mount at the point and EBUSY if the newest one there is held, and otherwise takes off exactly that one |
| MountTable.FindTakesReference | fs/mount.c:53-84 | a lookup takes one reference, to the mount it returns |
| MountTable.HitIsOwnerIff | fs/mount.c:34-64 | an answer from the cache is the owner of the path exactly if no longer point covers the path |
| MountTable.FindIsOwner | fs/mount.c:53-84 | without a mount point below another one that is not the root, every lookup returns the owner |
| MountTable.AllPairsRightIff | fs/mount.c:34-84 | for a thread with nothing cached, every pair of lookups is right exactly if no mount point other than the root has another below it |
| MountTable.StepKeepsInv | fs/mount.c:34-163 | every step of every thread keeps the list ordered and the caches right, with the list changed before the version and the caches read without the lock |
| MountTable.LookupAfterRun | fs/mount.c:34-163 | after every run, with a mount or unmount half-way or not: an answer of the cache is right exactly unless a longer point covers the path or a mount at the same point is listed but not yet announced, and the search finds the owner |
| MountTable.PairsAfterRunIff | fs/mount.c:34-163 | after every run, every pair of lookups of a thread with nothing cached is right exactly if no mount point other than the root has another below it |
| MountTable.CachedIsMountedIff | fs/mount.c:34-51 | after every run, the pointer in a cache of the current version leads to a mount exactly unless that mount is freed and its removal not yet announced |
| MountTable.FollowedIsMountedIff | fs/mount.c:39-43 | whatever comes between the test of the version and the use of the pointer, it leads to a mount exactly if the mount was not being freed at the test and was not freed since |
| MountTable.TakenIsMountedIff | fs/mount.c:56-64 | whatever comes between the answer of the cache and the reference, the mount whose count is raised is still there exactly if it was not freed in between |
| MountTable.FastPathIsFind | fs/mount.c:56-64 | the three steps of the fast path with nothing in between are a whole lookup |
| MountTable.FreedBeforeTest | fs/mount.c:139-146 | for every cached mount that nobody holds: freed and not yet announced, it passes the test and the pointer leads to freed memory |
| MountTable.FreedBeforeFollow | fs/mount.c:39-43 | the same if it is freed between the test and the use of the pointer, announced or not |
| MountTable.FreedBeforeTake | fs/mount.c:58-61 | the same if it is freed between the answer and the reference |
| MountTable.WaitingHappens | fs/mount.c:53-96 | a run that leads to such a state |
| MountTable.AddedButNotAnnounced | fs/mount.c:125-128 | a mount over a cached one, listed and not yet announced: the cache still answers with the one below |
| MountTable.NestedPointsMislead | fs/mount.c:34-64 | for every table with one point below another: a thread that looks up the outer point and then the inner one is given the outer mount |
| MountTable.NestedPointsMisleadHere | fs/mount.c:34-64 | an instance of it |
| MountTable.Mounts.constructor | fs/mount.c:250-251 | no mounts |
| MountTable.Mounts.MountAtPoint | fs/mount.c:119-128 | the loop finds the place of the new mount |
| MountTable.Mounts.UmountPoint | fs/mount.c:133-163 | EINVAL, EBUSY, or the newest mount at the point removed |
| MountTable.Mounts.CacheCheck | fs/mount.c:34-51 | the test of the cache, by version and point |
| MountTable.Mounts.SlowSearch | fs/mount.c:66-75 | the loop returns the first mount whose point covers the path |
| MountTable.Mounts.FindMount | fs/mount.c:53-84 | hit or search, the reference and the new cache |
| MountTable.Mounts.ContainsMountPoint | fs/generic.c:23-32 | true exactly if the path is a mount point or has one below it |
| MountTable.TrimPath | fs/generic.c:13-21 | cutting the point off in place: point and rest make the path again |
| GuestMemory.TranslateStable | kernel/memory.c:703-851 | translating a second time does and gives nothing new |
| GuestMemory.TranslateSucceedsIff | kernel/memory.c:703-852 | an access is possible exactly if the page is mapped or waits to be, and may be written if it is to be |
| GuestMemory.TranslateGivesOwnFrame | kernel/memory.c:794-845 | writing gives a page that waited a frame of zeroes, and a copy-on-write page a copy that no other page shares |
| GuestMemory.CopyOnWriteIsolates | kernel/memory.c:808-846 | a byte written to a copy-on-write page shows in no other page |
| GuestMemory.ByteAtMeans | kernel/memory.c:694-701 | the byte at page * 4096 + offset is the one at that offset in the frame of the page |
| GuestMemory.TranslateCounts | kernel/memory.c:685-690 | the mapping changes only together with its count |
| GuestMemory.AccessAcrossPages | emu/tlb.c:53-79 | for every byte of an access across two pages, one translation of each page is enough, failures included |
| GuestMemory.LoadAfterStore | emu/tlb.c:67-79 | bytes stored are loaded again, across pages and even if pages share a frame |
| GuestMemory.StoreAfterLoad | emu/tlb.c:53-65 | storing the bytes that are there changes nothing |
| GuestMemory.StoreFails | emu/tlb.c:256-276 | a store byte by byte that fails leaves memory as translated if its first page cannot be written, and otherwise with exactly the bytes for the first page stored |
| GuestMemory.StoreIsAllOrNothingIff | emu/tlb.c:256-276 | it leaves the memory of an all-or-nothing write exactly if every byte can be written, or the first page cannot, or its bytes are there already |
| GuestMemory.FailedStoreLeavesBytes | emu/tlb.c:256-268 | a page that can be written before one that cannot: the store fails and has changed the first |
| GuestMemory.StoreReadsBack | emu/tlb.c:256-276 | bytes stored one at a time are all there afterwards, even if the pages share frames |
| GuestMemory.StoreIsWithBytes | emu/tlb.c:256-276 | storing byte by byte succeeds exactly if every byte can be accessed and then equals storing all at once, if no frame is written through one page while another waits to copy it |
| GuestMemory.StoreWithinPage | emu/tlb.c:270-275 | within one page it does so without that condition |
| SoftTlb.Tlb.Flush | emu/tlb.c:41-45 | empties every entry and takes the current count |
| SoftTlb.Tlb.Refresh | emu/tlb.c:9-39 | after it the entries are right for the address space asked for, whatever changed before and whichever it was |
| SoftTlb.Tlb.HandleMiss | emu/tlb.c:100-140 | the pointer and the memory are those of a plain translation, and every entry is right again |
| SoftTlb.Tlb.ReadPtr | emu/tlb.h:52-59 | hit or miss, the pointer that translating gives |
| SoftTlb.Tlb.WritePtr | emu/tlb.h:76-89 | hit or miss, the pointer that translating for a write gives, and the page is noted as written |
| SoftTlb.Tlb.Read | emu/tlb.h:61-69 | success and bytes as with byte-by-byte access |
| SoftTlb.Tlb.ReadCrossPage | emu/tlb.c:53-65 | the same across pages |
| SoftTlb.Tlb.Write | emu/tlb.h:92-100 | all bytes, or none if a page cannot be written, and the last page is noted as written |
| SoftTlb.Tlb.WriteCrossPage | emu/tlb.c:67-79 | the same across pages |
| SoftTlb.Tlb.Load64 | emu/tlb.c:158-180 | the little-endian value of the eight bytes, aligned or not |
| SoftTlb.Tlb.Store64 | emu/tlb.c:256-276 | byte-by-byte storing, aligned or not, partial failure included |
| SoftTlb.StoreThenLoad64 | emu/tlb.c:158-276 | a 64-bit store that succeeds, then a load at the same address, aligned or not, gives the value modulo 2^64 |
| SoftTlb.ValueOfEight | emu/tlb.c:158-180 | the value loaded from eight bytes is their sum with weights 1, 2^8 up to 2^56 |
| SoftTlb.Store64IsAllOrNothingIff | emu/tlb.c:256-276 | a 64-bit store is all or nothing exactly unless its second page cannot be written and the first gets new bytes, so always when aligned |
| SimdInterleave.LoadOfStore | emu/tlb.c:645-710 | deinterleaving what was interleaved gives the registers back, with a zeroed top half for 64-bit accesses |
| SimdInterleave.StoreOfLoad | emu/tlb.c:645-710 | interleaving what was deinterleaved gives the bytes back |
| SimdInterleave.StoreThenLoad | emu/tlb.c:645-710 | a store and a load at the same address, page crossings included, restore the registers |
| SimdInterleave.LoadThenStore | emu/tlb.c:645-710 | a load and a store at the same address change no byte of memory |
| SimdInterleave.Gather | emu/tlb.c:670-674 | the loop over the elements moves byte k of element e of register r from place (e * n + r) * size + k, with zeroes above the elements |
| SimdInterleave.Scatter | emu/tlb.c:693-697 | the loop moves byte k of element e of register r to place (e * n + r) * size + k and disturbs no register already placed |
| SimdInterleave.Fill | emu/tlb.c:667-675 | each of the n registers from rt on, wrapping at 32, gets its deinterleaved value and no other changes |
| SimdInterleave.Collect | emu/tlb.c:691-698 | the loops put byte k of element e of register (rt + r) mod 32 at place (e * n + r) * size + k |
| SimdInterleave.Cpu.LoadInterleaved | emu/tlb.c:645-677 | LD2 to LD4: succeeds exactly if every byte can be read; then byte k of element e of register (rt + r) mod 32 is the byte at addr + (e * n + r) * size + k, upper halves not loaded are zero and other registers are as before; otherwise no register changes |
| SimdInterleave.Cpu.StoreInterleaved | emu/tlb.c:681-710 | ST2 to ST4: succeeds exactly if every byte can be written; then the byte at addr + (e * n + r) * size + k is byte k of element e of register (rt + r) mod 32; otherwise nothing is stored |

## Left out

- RecordLocks.InodeData.SetLk: runs one request; waiting and asking again (F_SETLKW) is in `RecordLocks.NobodySleepsInVain`.
- BlockReclamation.CurrentHitIsLookup: the hash of the private block cache is any function, so the result holds for every slot.
- FutexQueues.StartWaitKeepsInv: does not model the failure to create a pipe or a futex, and the pipe is there from the start.
- TtyLines.Tty.Input: does not model a caller that waits for room; a character without room is refused.
- TtyLines.Tty.Read: does not model a caller that waits for a line.
- TtyLines.NothingIsLost: characters that flush the buffer with a signal are excluded, because they are meant to lose input.
- MountTable.Mounts.FindMount: runs the check of the cache and the take with nothing in between; what may come between them is in `MountTable.FollowedIsMountedIff` and `MountTable.TakenIsMountedIff`.
- MountTable.StepKeepsInv: a reference may be given back by anyone, so that who holds a mount is not stated.
- SoftTlb.Tlb.WritePtr: does not model the write watchpoint, which only reports.
- PathResolution.Normalize: does not model the limits that return ENAMETOOLONG, nor finding the path of the starting directory.
- InodeLifetime.OpenAfterRun: does not model that the host file is opened before the transaction that looks the path up, so nor a path that changes between the two.
- InodeLifetime.NoOrphanRows: does not cover a rename that replaces a path; such rows are swept when the file system is mounted again.
- Guest instructions, their decoding and the assembly gadgets; a translated block is given with its address range and jump targets.
- Echo, output processing, raw mode, packet mode and job control of terminals.
- Futex time-outs as such: leaving the wait loop for any reason is one step, and its return code is not stated.
- `path_next_component` and `fcntl` commands other than the record locks, which would only add easy members.
- Other file systems, sockets, polling, processes, signals and memory mapping.
