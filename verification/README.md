# A verified model of the rpdfs storage server

rpdfs stores file system blocks in a log-structured device, serves them to clients, and hands out
locks on them. This project models the parts of it where the hard invariants are, and proves them:

- **The copy-on-write B-tree** of the log store (`devd/btree.c`), in three layers. A block's
  `offsets` array and packed item slots stand for a sorted sequence of items, although deleting an
  item moves the one stored last into the hole. A tree of such blocks stands for a finite map from
  keys to values, through every copy, split, merge, redistribution, new root and collapsed root,
  and its walks end although each change of shape makes them start over. An insert makes the tree
  higher exactly when the blocks' bytes leave it no choice. And a root that was
  current when a commit was submitted stands for the same map for ever.
- **The log store** (`devd/lstore.c`, with the flags of `utask/blk.c`): the layout of commits on the
  device, commits whose writes complete in any order and become stable in order, and what the
  stable and the current root hold of all the writes so far, with the totals.
- **The hash table that resizes while it is used** (`shared/hash_table.c`): Robin Hood hashing, with
  entries moving from the previous table to the current one in batches, as one map; when a batch
  gets anywhere, and a run of insertions after which none does.
- **The lock server** (`devd/rlock.c`): its handlers keep an invariant over queue, grants and
  pending revokes, and with any number of clients no interleaving of requests, grants, revokes,
  confirms and releases lets two of them hold modes that cannot go together, exactly if no release
  arrives while a revoke is pending with its client. No client waits for a grant in silence then,
  and requests are granted in the order of their arrival.
- **The trace ring** (`shared/dtracef.c`): what a reader finds is the last of what was recorded.
- **CRC-64** (`shared/lk/crc64.c` and its table generator): the table-driven loops are polynomial
  division, and give the check values that are known.
- **Red-black trees** (`shared/lk/rbtree.c`, `rbtree_augmented.h`): insertion and removal, in place
  on linked nodes, keep the five properties and the order of all other nodes.

## How it is put together

Code that updates in place is modelled by classes, arrays and loops; each method is proved against a
function on values, and the theorems are about those functions. The B-tree's heap is kept apart from
its reasoning in this way: `BtreeBlock.Block` and `BtreeCache.Cache` change blocks in place and
promise what the stored items are afterwards; `BtreeShape` has the invariant, first-order and by
address (each block has a level and an interval of keys); `BtreeSteps`, `BtreeSplit`, `BtreeMerge`
and `BtreeLeaf` prove that each step keeps it; `BtreeWalk`, `BtreeInsert` and `BtreeRemove` are the
walks, and `Btree` the operations. `Wrappers.Look` marks definitions that proofs open only on
request; it has no meaning of its own. For red-black trees `RbShape` and `RbSteps` prove each
recoloring and rotation on trees taken apart into a subtree and the path to it, `RbMemory` relates
those to memory, a map from addresses to nodes, and `Rbtree` is the code; where the code has a branch
twice, once in mirror image, the model has it once, with a side.

Where the code and what is said about it differ, the code is modelled:

- The comment at `devd/rlock.c:397-403` has every request answered by a grant. No grant is sent when the
  client already has the mode that it asked for (`devd/rlock.c:364-371`, `RlockModes.NoGrantSent`); with clients
  that ask for higher and higher modes this never happens (`RlockProtocol.TurnSends`).
- A confirm that nobody asked for, of mode NULL, is accepted (`devd/rlock.c:468-480`), and a confirm sets the
  granted mode to the mode that was asked for, even if a lower one was confirmed.
- The comments at `devd/rlock.c:443-449` and `devd/rlock.c:493-499` allow a release to cross a revoke. This
  can end with one client reading while another one writes: the answer to the old revoke, of mode NULL if the
  client has nothing left, is taken although it was granted a mode anew in the meantime. `RlockRaces.NoneRace`
  and `RlockRaces.ReadRace` are such runs, for the two modes that revokes are to, and
  `RlockRaces.ExclusionExactly` has the exact condition.
- Such a release can break the lock server's own invariant as well, if the revoke is to SH_RD
  (`RlockRelease.RaceBreaksGrants`). It need not: `RlockRelease.ReleaseKeeps` has the exact condition on the
  queue, and `RlockRelease.RisingFits` what is left of it when each client asks for higher and higher modes.
- A migration batch goes back by subtracting unsigned numbers, and may come to a slot in the middle of a run
  (`shared/hash_table.c:293`). The map survives this (`HashTable.MigrateBatch` has no condition on where it
  starts), but the promise that a resize is done before the next one is due (`shared/hash_table.c:51-57`,
  `shared/hash_table.c:273-275`) fails: `HashBatch.BatchAdvances` has the exact condition under which a batch gets
  further, `HashBatch.StuckExactly` the one under which none ever does, both on the slots that the batch finds.
  `HashStuck.NeverDone` is a run of insertions from an empty table after which the resize is never done, whatever
  is looked up and inserted, until the new table is full; `HashStuck.LandsExactly` says that no insertion of a new
  key returns then.
- `merge_block` gives two references the same key for a moment before it deletes one of them
  (`devd/btree.c:494-497`), so `BtreeBlock.Block.DeleteItem` asks for the order of the items that remain.

## Model

| member | source | states |
|---|---|---|
| `BtreeFormat.CmpKeysIsNumericOrder` | devd/btree.c:151-156 | Three words correspond one to one to a 192-bit number, and comparing them in turn orders keys like these numbers |
| `BtreeFormat.LowerBound` | devd/btree.c:158-161 | The index that the search promises: all keys before it are smaller, and its own is not |
| `BtreeFormat.MaxItemsBounds` | devd/btree.c:79-85 | For every legal value size a block holds at least 8 items, a multiple of 4, and they fit in 4096 bytes |
| `BtreeFormat.MaxItemsGreatest` | devd/btree.c:79-85 | A block is used up: a multiple of 4 items is no more than it holds if and only if they fit in 4096 bytes with the header of 64 and 26 bytes for each beside its value |
| `BtreeFormat.MaxValSizeGreatest` | shared/format-dev-log.h:70-72 | An aligned value size is legal if and only if eight items of it fit in a block |
| `BtreeFormat.LayoutFits` | devd/btree.c:92-97 | All item slots behind the full offsets array lie inside the block |
| `BtreeFormat.LayoutAligns` | devd/btree.c:68-79 | Every item slot is 8-byte aligned if values are |
| `BtreePacking.PackedDisjoint` | devd/btree.c:42-53 | No two items of a block overlap |
| `BtreePacking.PackedDense` | devd/btree.c:92-97 | The offsets in use are a permutation of the first slots: items fill the bytes up to the free offset, without a gap |
| `BtreePacking.LastSlot` | devd/btree.c:117-128 | The item with the greatest offset is the one in the last slot, wherever it is in key order |
| `BtreePacking.PackedInsert` | devd/btree.c:201-209 | Storing an item at the free offset and listing it keeps the packing, and is insertion into the item sequence |
| `BtreePacking.PackedRemoveMove` | devd/btree.c:232-246 | Moving the end item into the hole of a deleted one keeps the packing, and is removal from the item sequence |
| `BtreeBlock.Block.FindKeyInd` | devd/btree.c:162-185 | The binary search returns the lower bound, with cmp 0 exactly if the key is there |
| `BtreeBlock.Block.InsertItem` | devd/btree.c:191-213 | In place, it inserts into the block's item sequence at the index, and keeps the block well formed |
| `BtreeBlock.Block.DeleteItem` | devd/btree.c:221-247 | In place, it removes exactly the item at the index, although another item is relocated |
| `BtreeCache.Cache.MoveItems` | devd/btree.c:262-272 | Moving items one at a time transfers a range of one block's sequence to another's; no other block changes |
| `BtreeCache.Cache.AllocCopy` | devd/btree.c:301-330 | A copy goes to an address that no block has, is modifiable, and has the original's items; nothing else changes |
| `BtreeSteps.CopyChildKeepsInv` | devd/btree.c:353-400 | Copying a child to a fresh address and updating its parent's reference keeps the tree's invariant |
| `BtreeSteps.CopyRootKeepsInv` | devd/btree.c:353-384 | Copying the root keeps the tree's invariant |
| `BtreeShape.UniqueParent` | devd/btree.c:386-400 | No two references in a tree lead to the same block |
| `BtreeShape.Descend` | devd/btree.c:593-615 | The reference chosen on descent exists, and its block is the one responsible for the key |
| `BtreeSplit.SplitKeepsInv` | devd/btree.c:407-440 | Splitting a full block below a parent with room keeps the invariant and the map |
| `BtreeSplit.GrowKeepsInv` | devd/btree.c:423-430 | A new root above the old one keeps the invariant and the map |
| `BtreeMerge.MergeKeepsInv` | devd/btree.c:465-512 | One of two neighbours taking all items of the other keeps the invariant and the map |
| `BtreeMerge.ShiftKeepsInv` | devd/btree.c:465-512 | Dividing the items of two neighbours anew keeps the invariant and the map |
| `BtreeMerge.CollapseKeepsInv` | devd/btree.c:498-501 | The only child of the root can take its place |
| `BtreeLeaf.SetLeafKeepsInv` | devd/btree.c:651-732 | A change at one key, made in the leaf responsible for it, is the change of the whole tree's map at that key |
| `BtreeRemove.BorrowCounts` | devd/btree.c:484-492 | When two siblings do not fit one block, both are at least half full after redistribution and the one on the path is more than half full |
| `BtreeRemove.MergeBlock` | devd/btree.c:465-512 | A half-empty block is refilled from its sibling: with all its items if they fit one block, and with half of the total if not; the tree then has fewer blocks, or a clean path down to it |
| `BtreeWalk.TripSplit` | devd/btree.c:407-440 | A block that is full during an insert is on a level that this insert has not split before |
| `BtreeWalk.TripBound` | devd/lstore.c:184-188 | An insert's walk allocates at most one copy and one new block a level, and one new root: 1 + 2 * height |
| `BtreeWalk.TripDone` | devd/btree.c:402-440 | A walk that finds no block to split any more has grown a new root if and only if the old one was full, or lacked one item above a block that had to be split |
| `BtreeInsert.WalkSplit` | devd/btree.c:556-625 | The walk of an insert ends despite its restarts, in a modifiable leaf for the key with room, with the map unchanged; what it read was on the path or is new |
| `BtreeRemove.WalkMerge` | devd/btree.c:556-625 | The walk of a delete ends despite its restarts, in a modifiable leaf for the key that is the root or more than half full, with the map unchanged |
| `Btree.RootDenotesContents` | devd/btree.c:740-766 | Going down from a root by lower bounds finds, for every key, exactly what the tree's map has |
| `Btree.TreeShape` | devd/btree.c:402-512 | Every tree has all leaves at one depth, blocks half full except the root, two references in an internal root, keys within their parents' bounds, and the greatest key on the right edge |
| `Btree.Lookup` | devd/btree.c:740-766 | Lookup returns the map's value, ENOENT if the key is not mapped, EINVAL on a wrong value size; it changes no block |
| `Btree.TreeInsert` | devd/btree.c:651-677 | Insert refines adding to a map: EEXIST and EINVAL leave it unchanged, and at most 1 + 2 * height blocks are allocated. The tree grows by a level exactly if its root has to be split, which is said of the stored blocks by how many bytes their items need |
| `Btree.LeafTreeHeight` | devd/btree.c:402-440 | A tree of one leaf stays one exactly as long as the leaf has room in its 4096 bytes for one item more, in the map's number of keys |
| `Btree.OverfullSplits` | devd/btree.c:402-440 | Which blocks have to be split, said of the stored blocks in bytes, and as the walk does it |
| `Btree.TreeReplace` | devd/btree.c:684-716 | Replace refines setting a key in a map, and returns the value that the key had; the tree grows as with insert |
| `Btree.TreeDelete` | devd/btree.c:718-738 | Delete refines removing a key from a map, ENOENT if it is not there; zeroing an emptied root loses nothing. If every block on the path below the root is more than half full the tree stays as high, unless it is emptied |
| `Btree.AmpleIsClean` | devd/btree.c:442-445 | More than half full, said of the stored blocks in bytes, is what the walk looks for |
| `Btree.Btree.Insert` | devd/btree.c:651-677 | The same for a tree as an object with its root |
| `Btree.Btree.Replace` | devd/btree.c:684-716 | The same for a tree as an object with its root |
| `Btree.Btree.Delete` | devd/btree.c:718-738 | The same for a tree as an object with its root |
| `Btree.Btree.PrepareInsert` | devd/btree.c:627-637 | Preparing an insert changes nothing and reads exactly the blocks on the path to the key |
| `Btree.PreparedReads` | devd/btree.c:627-677 | An insert reads only blocks that preparing it read, and blocks that it allocated itself |
| `Btree.StepIsLater` | devd/btree.c:301-384 | Tree operations change no block that is clean or in writeback |
| `Btree.SavedTreeSurvives` | devd/btree.c:301-384 | A tree none of whose blocks may be changed stands for the same map after any later steps, for every key |
| `BtreeDirty.DirtyAboveKept` | devd/btree.c:19-30 | Blocks are dirtied from the root down: every step of an operation leaves each modifiable block of the tree below modifiable ones |
| `BtreeDirty.DirtyOnPath` | devd/btree.c:19-30 | Every block above a modifiable one on the way to a key is modifiable |
| `BtreeDirty.CleanRoot` | devd/btree.c:353-384 | If the root may not be changed, no block of the tree may be |
| `Btree.CleanRootSurvives` | devd/btree.c:301-400 | So a clean root alone stands for the same map after any later steps, for every key |
| `Blk.BlkCache.MarkDirty` | utask/blk.c:316-328 | A block is put on the dirty list once, when it becomes dirty |
| `Blk.BlkCache.BeginWrite` | utask/blk.c:130-134 | The write task takes all dirty blocks in order; nothing is modifiable until more is dirtied |
| `Blk.BlkCache.FinishWrite` | utask/blk.c:140-144 | Written blocks are clean, and blocks dirtied meanwhile stay modifiable |
| `LogLayout.StartCommitKeepsLayout` | devd/lstore.c:272-303 | A new commit starts right behind the last one |
| `LogLayout.AllocEntryKeepsLayout` | devd/lstore.c:600-626 | Each entry of a commit records the block that is as many blocks behind the commit block |
| `LogLayout.AllocDirtyKeepsLayout` | devd/lstore.c:543-626 | With injected search blocks, every multiple of the search offset below the next address has a commit block, or a search block naming the commit that it is part of; and no other block is allocated at one |
| `LogLayout.CommitsTile` | devd/lstore.c:861-865 | Every block address from the first commit on belongs to exactly one commit |
| `LogLayout.SeqnoCounts` | devd/lstore.c:293-296 | Commit numbers count the commits without a gap |
| `LogLayout.SearchOffsets` | devd/lstore.c:543-626 | Every 32MB there is a commit block, or a search block that names the commit it is part of, and search blocks are nowhere else |
| `LogLayout.CommitInBytes` | devd/lstore.c:600-626 | A commit's blocks are 4096 bytes apart in the order of its entries, each of its entry's type, and the next commit follows right behind them |
| `LogStore.LogStore.AllocDirty` | devd/lstore.c:579-626 | In place, it records the block in the open commit and keeps the layout |
| `LogStore.LogStore.BeginWrite` | devd/lstore.c:364-431 | A write has exactly the open commit's blocks, the commit block first, and the next change opens another commit |
| `LogStore.WriteFinishes` | devd/lstore.c:108-121 | A commit whose turn has come becomes the stable one; the others' blocks stay in writeback |
| `LogStore.LogStore.FinishCommitWrite` | devd/lstore.c:108-121 | Whatever the order of completion, the finished number grows by one, and the stable commit is the one with that number |
| `LogStore.LogStore.StableIsFinished` | devd/lstore.c:127-134 | The stable commit is always the one with the finished number |
| `Lstore.DetailsRoundTrip` | shared/format-dev-log.h:85-100 | A block's address and checksum survive being stored in a tree's value |
| `Lstore.DetailsBytes` | shared/format-dev-log.h:85-100 | The value's 16 bytes are the address and then the checksum, each lowest byte first |
| `Lstore.KeysByType` | shared/format-msg.h:80-94 | Of the keys made of an inode number, a type byte and an index, the inode keys are those of type 0, and the log's own those whose first word is 0 |
| `Lstore.InodeKeysAre` | devd/lstore.c:732-732 | A map's inode keys are those whose last word is below 2^56 |
| `Lstore.ReplayHoldsLast` | devd/lstore.c:737-796 | The map of a sequence of writes has exactly the keys written, each with what was written last |
| `Lstore.TotalsCount` | devd/lstore.c:724-735 | The number of mapped keys and of mapped inode keys change by one exactly if the key is new |
| `Lstore.ReplaceDetails` | devd/lstore.c:785-790 | The tree maps the key to the new details and the totals are adjusted by whether it had any |
| `Lstore.SubmitStep` | devd/lstore.c:426-431 | A submitted commit's root stands for exactly the writes of commits up to it, in blocks that are never changed again |
| `Lstore.RecordSteps` | devd/lstore.c:782-792 | A write is in the current root, the totals and its commit, and in no commit submitted before |
| `Lstore.Store.Write` | devd/lstore.c:737-796 | A successful write is added to the history, under the number of the open commit if the blocks reserved for it fit among its 249 entries, and else of the next one. It records the address of a block that it has allocated for data; EINVAL, for a key of the log's own or a tree too high, and EIO leave the history unchanged |
| `Lstore.Store.FinishCommitWrite` | devd/lstore.c:108-121 | Completing a commit's write, in any order, keeps all of this |
| `Lstore.Store.CurrentHolds` | devd/lstore.c:737-796 | The current root finds, for every key, what was written last under it by any write so far, with the totals |
| `Lstore.Store.StableHolds` | devd/lstore.c:127-134 | The stable root is readable and stands for exactly the writes of all commits up to the finished one, with the totals |
| `Lstore.Store.FinishedIsStable` | devd/lstore.c:530-541 | Once a writer's commit is finished the stable root finds what it wrote under its key, or what a later finished commit did |
| `Lstore.Store.StableIsWritten` | devd/lstore.c:108-134 | Every block of the stable tree, and every data block that it leads to, lies in a commit whose write is finished |
| `Lstore.Store.Read` | devd/lstore.c:677-722 | A read finds the details that the last of the stable writes under the key recorded, or ENOENT if there is none |
| `Lstore.Store.BlockCounts` | devd/lstore.c:798-813 | The totals are the number of keys in the stable root, of those whose last word is below 2^56 among them, and of whole blocks of 4096 bytes in the device |
| `HashSlots.FullOnTheWay` | shared/hash_table.c:166-189 | From an entry's home to its slot all slots are full, with entries at least as far from their own homes |
| `HashSlots.SomeEmpty` | shared/hash_table.c:166-189 | While fewer keys are mapped than there are slots, a probe meets an empty slot |
| `HashSlots.ProbeStops` | shared/hash_table.c:215-230 | A probe that meets an empty slot or an entry closer to its home has missed: the key is not in the table |
| `HashSlots.Swap` | shared/hash_table.c:178-184 | Swapping the carried entry with a closer one keeps the invariant, and loses neither |
| `HashSlots.ShiftBack` | shared/hash_table.c:250-262 | Moving the next entry back into the hole keeps the invariant and the map |
| `HashSlots.ClearOne` | shared/hash_table.c:296-305 | Clearing the next slot of a range takes exactly its key out of the map |
| `HashSlots.ClearEnds` | shared/hash_table.c:285-310 | Wherever a cleared range starts, it is harmless to stop at a slot with probe length 0 |
| `HashTable.Table.InsertEntry` | shared/hash_table.c:166-189 | In place, it sets the key in the table's map, and counts it if it is new; the slots afterwards are those of the loop's steps |
| `HashTable.Table.OverwriteEntry` | shared/hash_table.c:196-213 | It replaces the value of exactly that key, if it is mapped |
| `HashTable.Table.LookupEntry` | shared/hash_table.c:215-230 | It finds the key's value exactly if the key is mapped, for any hash function |
| `HashTable.Table.DeleteEntry` | shared/hash_table.c:237-268 | It removes exactly that key, if it is mapped |
| `HashSlots.LandsAtEmpty` | shared/hash_table.c:166-189 | An insertion returns no later than at the first empty slot |
| `HashStuck.LandsExactly` | shared/hash_table.c:166-189 | An insertion returns if and only if the key is in the table or a slot is empty |
| `HashTable.MigrateBatch` | shared/hash_table.c:285-310 | A batch moves keys between tables without changing the map of both, from whatever slot it starts. The slots and the position afterwards are a function of those before: it sweeps at least 16 slots, and on to the first one that rests; it needs room just for the entries in them, and moves exactly these. If no run wraps it gets at least 16 slots further |
| `HashBatch.LoadBound` | shared/hash_table.c:285-310 | A batch moves no more entries than there are keys |
| `HashBatch.SweptLenIs` | shared/hash_table.c:285-310 | A batch sweeps n slots if and only if n is the first number from 16 on at which the slot is empty or its entry at home |
| `HashBatch.BatchAdvances` | shared/hash_table.c:285-310 | A batch gets further if and only if the slots and the position that it finds say so: it need not go back beyond slot 0, or from where it starts instead no slot rests from the 16th on up to the entry's probe length, or one does before the position would be back at 0 |
| `HashBatch.StuckExactly` | shared/hash_table.c:285-310 | Two batches in a row leave the position where it is if and only if the entry there is 16 slots from its home beyond slot 0, and a slot rests 16 slots on from where the batch starts |
| `HashBatch.StuckForEver` | shared/hash_table.c:285-310 | However many batches follow then, the position stays, and so does the entry there |
| `HashStuck.AllAtHome` | shared/hash_table.c:166-189 | Keys with homes of their own are all at home, in whatever order they came |
| `HashStuck.Jam` | shared/hash_table.c:312-353 | A run of insertions from an empty table after which a table of 2047 slots with 1843 keys is being migrated, and is stuck |
| `HashStuck.LookUp` | shared/hash_table.c:312-365 | Whatever is looked up then, and however often, the previous table is not emptied |
| `HashStuck.FillUp` | shared/hash_table.c:312-353 | New keys fill the current table up meanwhile, to the last slot |
| `HashStuck.NeverDone` | shared/hash_table.c:273-275 | The whole run: after any number of calls the resize is still in progress, the current table gets full, and no insertion of a new key returns |
| `HashTable.ResizeLeavesBand` | shared/hash_table.c:51-70 | For every table size, in fewer calls than size / 16 the number of keys stays between both thresholds of the new table |
| `HashTable.BandLeavesRoom` | shared/hash_table.c:51-70 | So both tables always have an empty slot, and a resize takes at most size / 16 calls, rounded up |
| `HashTable.NewSizeIs` | shared/hash_table.c:323-335 | A table is replaced if and only if more than 90% of its slots are taken, or less than 45% of them if that is more than 32 * 1024 / 24; the new size is 150% or 66%, at least 32 * 1024 / 24 |
| `HashTable.ResizingTable.TotalIsKeys` | shared/hash_table.c:345-375 | The counts of both tables add up to the number of keys |
| `HashTable.ResizingTable.Insert` | shared/hash_table.c:345-353 | It sets the key in the one map that both tables stand for, puts it into a single table as the swapping loop does, starts a resize exactly when a threshold is passed and none is in progress, and keeps the number of keys within the thresholds if no run wraps in a table about to be migrated. A resize that is stuck stays so. Unless a resize is in progress afterwards the table is at most 90% full, and at least 45% if it is not small |
| `HashTable.ResizingTable.Lookup` | shared/hash_table.c:355-365 | It finds the key's value in that map, and moves a batch without changing it. A resize that is stuck stays so. The same utilisation holds afterwards |
| `HashTable.ResizingTable.Delete` | shared/hash_table.c:367-375 | It removes exactly that key from the map. The same utilisation holds afterwards |
| `HashTable.ResizingTable.ManageResize` | shared/hash_table.c:312-343 | It does not change the map or the number of keys, and a resize starts exactly when a threshold is passed and none is in progress: unless one is afterwards, at most 90% of the slots are taken, and at least 45% if these are more than 32 * 1024 / 24. If no run wraps a resize starts with room to finish |
| `RlockModes.CompatibleMeans` | devd/rlock.c:90-96 | Modes go together unless one is EX_WR and the other at least SH_RD |
| `RlockModes.MostCompatibleIsGreatest` | devd/rlock.c:105-108 | A revoke asks for the greatest mode that goes together with the request |
| `RlockModes.ReorderSorts` | devd/rlock.c:209-237 | After a change of one client's mode, moving it restores the order EX_WR, SH_RD, others, and loses no client |
| `RlockModes.ReorderMoves` | devd/rlock.c:209-237 | Only a client whose mode does not fit its neighbours' is moved: before all others with its mode, or to the end if it is below SH_RD; the others keep their order |
| `RlockModes.ScanIsEnough` | devd/rlock.c:322-355 | The scan with its early exits marks, revokes and reports what looking at every client would |
| `RlockModes.GrantKeeps` | devd/rlock.c:357-375 | A granted request's client has the requested mode, all granted modes go together, and no revoke is pending |
| `RlockModes.NoGrantSent` | devd/rlock.c:364-371 | A request that is served sends no grant if and only if its client has the mode already |
| `RlockModes.ProcessKeeps` | devd/rlock.c:322-375 | Afterwards the queue is empty, or its head is blocked and exactly the clients in its way have a revoke pending, each to the greatest mode it can live with |
| `RlockModes.ProcessIsEnough` | devd/rlock.c:322-375 | Over the whole queue the early exits change neither what is granted nor what is sent |
| `RlockModes.ProcessIsTail` | devd/rlock.c:322-375 | Requests leave the queue from the front: what is left is its last part, for all lists |
| `RlockModes.ProcessNoneIdle` | devd/rlock.c:255-266 | Processing leaves no client in the list that has no mode of at least SH_RD, granted or to be revoked to |
| `RlockModes.SettledNoneIdle` | devd/rlock.c:255-266 | A client whose entry has changed leaves the list if it has no such mode any more |
| `RlockModes.ConfirmReady` | devd/rlock.c:450-491 | Any confirm that is accepted leaves the invariant that processing needs |
| `RlockModes.ReleaseReady` | devd/rlock.c:500-541 | A release leaves lists that are ready for processing if and only if no revoke to SH_RD is pending with its client |
| `RlockRelease.ReleaseKeeps` | devd/rlock.c:500-541 | A release, with the processing of requests that follows it, keeps the handlers' invariant if and only if the condition on the queue holds: for all lists, clients, modes and queues |
| `RlockRelease.RisingFits` | devd/rlock.c:397-403 | When each client asks for higher and higher modes, the condition is that the first writer in the queue is another client and finds this one reading by then |
| `RlockRelease.RaceBreaksGrants` | devd/rlock.c:255-266 | A run of handlers from empty lists after which the server has granted modes that do not go together: a release crosses a revoke to SH_RD |
| `Rlock.RlockLists.ScanClients` | devd/rlock.c:335-355 | The loop over the clients is the scan, and sends its revokes |
| `Rlock.RlockLists.ProcessRequests` | devd/rlock.c:322-375 | The loop over the queue processes requests, with its grants and revokes sent in order |
| `Rlock.RlockLists.HandleRequest` | devd/rlock.c:404-441 | A request keeps the invariant; one for less than SH_RD is EINVAL and changes nothing. The queue is then the last part of the old queue with the request behind it, requests are served in the order in which they were received, grants go out in that order, and no idle client is in the list |
| `Rlock.RlockLists.HandleConfirm` | devd/rlock.c:450-491 | A confirm keeps the invariant, the order of requests, and that no idle client is in the list; one that does not fit changes nothing |
| `Rlock.RlockLists.HandleRelease` | devd/rlock.c:500-541 | A release that fits is in force and keeps the invariant exactly under that condition, and always the order of requests and that no idle client is in the list; any other changes nothing |
| `RlockProtocol.HeldIsGranted` | devd/rlock.c:30-34 | The mode that a client holds, and every mode on its way to it, is at most the one the server has granted it, whatever requests, revokes, confirms and releases are in flight |
| `RlockProtocol.ProcessKeepsPeers` | devd/rlock.c:322-375 | Processing requests keeps every client's view in step with the server's |
| `RlockProtocol.StepKeeps` | devd/rlock.c:397-541 | Every step of any client or the server keeps the invariant of the whole system, unless a release reaches the server while a revoke is pending with its client |
| `RlockProtocol.MutualExclusion` | devd/rlock.c:30-34 | In every run without such a release, at every point, any two clients hold modes that go together |
| `RlockProtocol.TurnSends` | devd/rlock.c:357-375 | In the protocol a request whose turn comes is for more than its client has been granted, so a grant is sent |
| `RlockProtocol.GrantedInOrder` | devd/rlock.c:268-375 | At every point of every run without a release that finds a revoke pending, the requests granted followed by those in the queue are exactly the requests received, in the order in which they were |
| `RlockProtocol.TraceOf` | devd/rlock.c:397-541 | The steps of every run can be named by whose message the server takes |
| `RlockProtocol.SendsDelivered` | devd/rlock.c:295-313 | The grants counted are those that reach the clients' channels |
| `RlockProtocol.NoStall` | devd/rlock.c:315-375 | While a client waits for a grant some message is on its way: from or to it, or from or to a client in the way of the first request, whose revoke is pending |
| `RlockProtocol.NoneStalled` | devd/rlock.c:315-375 | This holds at every point of every run without a release that finds a revoke pending |
| `RlockRaces.NoneRace` | devd/rlock.c:443-541 | A run in which one release crosses a revoke to NONE, and in the end nothing is in flight and one client reads while the other one writes |
| `RlockRaces.ReadRace` | devd/rlock.c:443-541 | A run in which one release crosses a revoke to SH_RD, and two revokes are answered as one; in the end one client reads while the other one writes |
| `RlockRaces.ExclusionExactly` | devd/rlock.c:443-541 | Any two clients hold modes that go together at every point of every run, if and only if releases cross revokes neither to NONE nor to SH_RD |
| `TraceRing.RecordKeeps` | shared/dtracef.c:67-90 | An event lies within one segment with a terminator behind it that destroys no live event, and what is in the ring is the last of what was recorded |
| `TraceRing.RecordedLives` | shared/dtracef.c:67-90 | Recording costs nothing, or exactly the oldest segment's events |
| `TraceRing.PlaceInWords` | shared/dtracef.c:67-90 | An event goes right behind the last one if it fits in the segment of 8192 bytes with a terminator, and then nothing is lost; otherwise to the start of the next segment of the buffer of 16 MiB |
| `TraceRing.OlderIsBehind` | shared/dtracef.c:242-268 | A segment's first event is older than the first segment's exactly if the segment has not been written again |
| `TraceRing.VisitsLive` | shared/dtracef.c:334-363 | From the oldest segment around, the segments hold the live events in order |
| `Dtracef.Trace.GetEvent` | shared/dtracef.c:67-90 | Room for the event is found where the ring has it, and its header and the terminator are stored |
| `Dtracef.Trace.Record` | shared/dtracef.h:62-79 | The event is the last one that a reader finds, behind all that are kept; the position moves on by its size, from where the segment has room or the next one begins |
| `Dtracef.Trace.FindOldest` | shared/dtracef.c:242-268 | It finds the segment with the oldest event |
| `Dtracef.Trace.PrintTrace` | shared/dtracef.c:334-363 | The reader visits exactly the live events, in order, which are the last of those recorded, and stops |
| `Division.FeedIsDivision` | shared/lk/gen/gen_crc64table.c:25-61 | A shift register that takes bits in leaves the remainder of polynomial division, offset by its seed |
| `Division.FeedWord` | shared/lk/gen/gen_crc64table.c:25-61 | Taking a word's bits in one by one is adding the word and multiplying |
| `Division.SeedIsMask` | shared/lk/gen/gen_crc64table.c:25-61 | What the register holds at first has the effect of adding its bits to the first ones of the message |
| `Division.OnesInvert` | shared/lk/crc64.h:35-38 | A register of ones leaves the remainder of the message with its first bits inverted |
| `Crc64.GenerateReflectedTable` | shared/lk/gen/gen_crc64table.c:25-41 | Each entry of the table is its index times x to the 8th, modulo the polynomial, lowest bit first |
| `Crc64.GenerateTable` | shared/lk/gen/gen_crc64table.c:43-61 | The same, highest bit first |
| `Crc64.NvmeGeneric` | shared/lk/crc64.c:49-54 | The table-driven loop is feeding the message's bits to the register, for every byte string and seed |
| `Crc64.BeGeneric` | shared/lk/crc64.c:42-47 | The same, highest bit first |
| `Crc64.ReflectedCrcIsDivision` | shared/lk/crc64.c:49-54 | Which is the remainder of the message times x to the 64th, offset by the seed |
| `Crc64.BeIsRemainder` | shared/lk/crc64.c:42-47 | From seed 0 the big-endian checksum is the remainder itself, as Annex B of ECMA-182 has it |
| `Crc64.BeCheck` | shared/lk/crc64.c:42-47 | The check value of the polynomial of ECMA-182: the digits 1 to 9 give 0x6c40df5f0b497347 |
| `Crc64.CrcNvme` | shared/lk/crc64.h:35-38 | For at least eight bytes and seed 0 the checksum is the complement of the remainder of the message with its first 64 bits inverted, times x to the 64th, as section 5.2.1.3.4 of the NVM Command Set Specification has it |
| `Crc64.NvmeIsDivision` | shared/lk/crc64.h:35-38 | For all messages and seeds its complement is the remainder, offset by the seed's complement |
| `Crc64.NvmeCheck` | shared/lk/crc64.h:35-38 | The check value that the specification gives: the digits 1 to 9 give 0xae8b14860a799888 |
| `Crc64.NvmeChains` | shared/lk/crc64.h:35-38 | Checksums of pieces, each the seed of the next, are the checksum of the whole |
| `RbShape.HeightBound` | shared/lk/rbtree.c:19-32 | A tree of n nodes with the five properties is at most 2 * log2(n + 1) high |
| `RbSteps.RotateKeepsOrder` | shared/lk/rbtree.c:65-85 | A rotation anywhere in a tree keeps the order of all nodes |
| `RbSteps.FlipKeeps` | shared/lk/rbtree.c:121-142 | With a red uncle, flipping colors moves the only violation up to the grandparent |
| `RbSteps.OuterKeeps` | shared/lk/rbtree.c:172-190 | With a black uncle, turning the grandparent restores the properties |
| `RbSteps.RedSiblingKeeps` | shared/lk/rbtree.c:246-266 | Below a red sibling, turning the parent leads to a black one, and the black node is missing at the same place |
| `RbSteps.PaleSiblingKeeps` | shared/lk/rbtree.c:267-300 | Painting a black sibling red restores the properties, or moves the missing black node up to the parent |
| `RbSteps.NearRedKeeps` | shared/lk/rbtree.c:301-340 | Turning a sibling whose near child is red leads to one whose far child can turn black |
| `RbSteps.LendKeeps` | shared/lk/rbtree.c:341-364 | Turning the parent of a sibling with a far child to blacken restores the properties |
| `RbSteps.SpliceKeeps` | shared/lk/rbtree_augmented.h:215-242 | Removing a node with one child at most keeps the properties, except where a black node without children is missing |
| `RbSteps.SuccessorKeeps` | shared/lk/rbtree_augmented.h:243-300 | Putting the successor in a node's place, and its right child in the successor's, removes exactly that node, and misses a black node only below the successor's old place |
| `RbMemory.TurnHeld` | shared/lk/rbtree.c:72-85 | The stores of a rotation make memory hold the rotated tree, parents and colors included |
| `Rbtree.RbTree.InsertColor` | shared/lk/rbtree.c:87-223 | In place, the loop restores the five properties after a red node was put below a red one, and keeps the order of all nodes |
| `Rbtree.RbTree.Insert` | shared/lk/rbtree.h:66-73 | A node linked beside its parent, with colors repaired, is next to it in order; the tree keeps the properties and the order of all other nodes |
| `Rbtree.RbTree.EraseColor` | shared/lk/rbtree.c:229-410 | In place, the loop restores the five properties after a black node was taken out, and keeps the order of all nodes |
| `Rbtree.RbTree.EraseNode` | shared/lk/rbtree_augmented.h:206-306 | In place, exactly the node is taken out of the order; the parent to repair from is returned exactly if a black node is missing below it |
| `Rbtree.RbTree.Erase` | shared/lk/rbtree.c:443-449 | A node is removed, the others keep their order, and the tree its properties |
| `Rbtree.RbTree.First` | shared/lk/rbtree.c:469-479 | It finds the first node in order, or NULL if there is none |
| `Rbtree.RbTree.Next` | shared/lk/rbtree.c:495-524 | It finds the node that follows in order, or NULL after the last one |

## Left out

- Failing reads and allocations: reads of tree blocks and allocations always succeed, and a device that fills up
  (which stops the server at `devd/lstore.c:262`) is outside the model; addresses and tree heights are unbounded.
- One value size per tree, at most `RPDFS_LOG_BTREE_MAX_VAL_SIZE`: this is a precondition, as the code checks only
  alignment when a tree is created.
- The bytes of an item: an item is one cell at its byte offset, of its size, whose fields are not laid out in bytes.
- `btree_walk`'s flags: there is one walk method for each combination that callers use.
- Block bounds for deletes, and `btree_prepare_delete`: a merge between restarts can change which sibling is chosen.
- How a reservation's blocks compare with what a commit has room for when a search block is injected as well
  (`devd/lstore.c:310-322`), so the number of entries of a commit is not bounded.
- Writers that interleave between preparing and modifying, and the wait in between (`devd/lstore.c:503`): a writer is
  atomic from there on to the end of its change. Commits' writes interleave freely.
- The scan for the last commit at start-up (`devd/lstore.c:824-928`): its middle is a quarter of the sum, so it can
  fall below the start, and its segment limit is taken from a commit that may lie before the search block.
- Building iovecs and coalescing buffers (`devd/lstore.c:384-418`), checksums of block headers, and the block cache's
  own lookup, eviction and reference counts.
- Lstore.Store.Read: looks the key up in the stable tree but does not read the data block that it finds, nor serve one
  from the cache, nor retry when writers are at work.
- Lstore.Store.Write: does not wait for its commit; `FinishedIsStable` says what holds when that wait is over.
- HashTable.MigrateBatch: headway is promised only for tables whose runs do not wrap around slot 0; for other tables
  `HashBatch.BatchAdvances` says what one batch does, and nothing says how many it takes to get past such a run.
- Probe lengths of more than 8 bits, overflow of the percentages' products, failing allocation of a larger table, and
  `htable_destroy`; the switch of the table pointer is an object with both tables.
- HashTable.ResizingTable.Insert: keeps the number of keys within the thresholds only if no run of entries wraps
  around slot 0 in a table when its migration starts; otherwise room for the next call is the caller's to know.
- HashTable.ResizingTable.ManageResize: promises room to finish the resize that it starts under the same condition.
- The lock server's table of clients is searched as a list; modes are at most EX_WR; freeing the lists of a key that
  nothing is left of is not distinguished from keeping them empty.
- What clients do is not in the repository: those of `RlockProtocol` ask for higher and higher modes, release only when
  they wait for no grant, and confirm a revoke with the mode they have left; both are what the server's comments say.
- Formatting and looking up trace sources, and events with equal timestamps.
- The rest of `shared/lk/rbtree.c`: `rb_last` and `rb_prev`, which mirror `rb_first` and `rb_next`, replacing nodes,
  postorder traversal, callbacks for augmented trees, nodes marked as being in no tree, and lookups during a change.
- Endian conversion, stack switching, io_uring, sockets, signals, the command line, options and logging.
