# Verified models of the kernel's storage, memory and synchronisation core

This project models, in Dafny, the parts of a RISC-V coroutine kernel whose correctness depends on
invariants that no single function shows, and proves those invariants for every input, every run or
every interleaving. `dafny verify dfyconfig.toml` checks the whole project.

The nfs file system (`os/fs/nfs`)

- `NfsCommon`, `Bitmap`, `NfsSpace`: on-disk constants, the layout arithmetic of `make_fs` in 32-bit
  arithmetic, and the bitmap block allocator. A ghost count of the clear blocks from the scan start on
  is what the success of every later operation is stated with.
- `NfsTree`: a file as a value - 13 direct slots and a chain of 255-entry address blocks. The shape
  invariant says that a ghost map `owner` from blocks to places is the inverse of the map from places
  to blocks; separation and the absence of leaks both follow from it. Every byte of a file is where a walk over
  the raw bytes of the disk finds it.
- `Nfs`: the classes `FileSystem` and `Inode` with `data_rw`, its two block helpers,
  `get_block_index`, the seek hint and `truncate`, updating blocks and inode fields in place.
- `NfsRuns`: every run of reads and writes refines one flat zero-filled byte map per inode.
- `NfsCodec`, `NfsInodeTable`: the record format, the inode free list threaded through the inode-table
  file, `alloc_inode`, `free_inode`, loading and flushing, `make_fs`. The record of every inode in use that is
  not marked dirty holds its fields, through every operation.
- `NfsNames`, `NfsDirectory`, `NfsNameRuns`: directory entries, link-count conservation, and the whole file
  system: every run of create, mkdir, link, unlink, read and write, from `make_fs` on, does to names and
  file contents what the operations say.

The write-back buffer cache (`os/utils/buffer_manager.h`, `os/utils/buffer.h`)

- `BufferCache`: `get_derived` as a state machine split at its suspension points, with loads, flushes
  and holders' writes of any number of sessions; one node per key, no theft of a node in use.
- `BufferCoherence`: refinement to a plain disk map, for every run in which a session that comes back
  from its eviction flush does not find its own block still to be written by another session; every path
  with at most one flush in flight is such a run. Without it, what such a session loads is the logical content if
  and only if no other session still has to write different contents.
- `BufferWitness`: two runs from the empty cache that break the condition, one ending in a stale read
  and one, in which the contents to be written do not differ, in a lost write.
- `BufferLaws`: which node a `get` returns, where it goes in the list and which one is evicted, stated without
  the steps of the machine; over every path a session that asked for a block is at a node of that block.
- `BufferManager`: the imperative code of `get_derived`, proved equal to the steps of the machine.

Sv39 page tables and address spaces (`os/mm/vmem.cc`, `os/proc/process.cc`, `os/proc/elf.cc`), following
section 4.4 of the RISC-V Privileged Architecture, version 20211203

- `PageTable`: the three-level tree in raw pages, its meaning as a partial map from page numbers to entries, and
  the proof that the translation steps of section 4.3.2 there find exactly these; `PageMemory`: the page
  allocator, `walk`, `mappages`, `uvmunmap`; `PageTeardown`: `free_pagetable_pages`.
- `AddressSpace`, `UserProcess`, `ProcessRuns`: the list of mappings and page conservation from
  `__init_pagetable` over any calls of `__mmap` to `__free_pagetable`.
- `UserCopy`, `ElfLoader`: `copyout`, `copyin`, `memset_user` over physical pages that need not be
  contiguous, and the PT_LOAD loop.

Step protocols

- `VirtioRing`, `VirtioRuns`: the descriptor table and the two rings (sections 2.6 and 5.2 of Virtio 1.1),
  and every run of tasks, device steps and interrupts, device steps during an interrupt included; what the
  device reads in a chain is what its task asked for, and tasks that wait for descriptors are served in order.
- `CoroMutex`: the coroutine mutex on its wait queue.

The slab heap (`os/mm/allocator.h`, `os/mm/allocator.cc`)

- `SizeClass`: `log2_64` with its de Bruijn table and the size-class dispatch; `Slab`, `SlabRuns`: index
  chains, block lists, and whole runs of new, delete and writes through held pointers, over which the
  heap behaves like separate byte arrays; `SlabTruncate`: giving empty blocks back.

Conventions. `co_await` in sequential code is a call, `task_fail` and out-of-memory returns are an
`ok` result, and a panic is a result of its own where a caller can reach it. Contracts say what a failure
means: no clear block is left from the scan start on, too few pages are free, a page is mapped already.
Ghost fields and parameters (`owner`, `role`, `data`, `who`, `chains`, ...) name the owner of every block or
page; they are inverses of what the memory says, so "exactly once" is the statement that both directions
agree. A free list is a sequence without duplicates, top first. `Basics` holds what several modules share.

Where the code and its documentation or evident intent differ, the model follows the code:

- The seek hint survives `truncate` and `init_data` (`os/fs/nfs/inode.cc:344`, `os/fs/nfs/inode.cc:627`).
  `Nfs.Inode.Truncate` and `Nfs.Inode.InitData` state exactly when it is still usable,
  `Nfs.Inode.StaleHint` is a run in which it is not, and the transfers take a usable hint as precondition.
  `NfsDirectory.Namespace.Create` states when a new inode has a usable one.
- `unlink` does not look whether the inode is a directory; `NfsDirectory.Namespace.Unlink` states when the link
  counts stay right, and `NfsNameRuns.OrphanRun` is a run after which they are not.
- The length test of `create` lets names of 28 bytes through, for whose terminator the field has no room
  (`NfsNames.NameStored`).
- `make_fs` computes the layout in 32 bits; `NfsSpace.LayoutSoundIff` says for which sizes that is sound.
- `get_derived` rechecks only the buffer list after a flush; `BufferCoherence.ReaderSees` says what a
  reader then gets, `BufferWitness.StaleRead` and `BufferWitness.LostWrite` are concrete runs.
- A range whose length is zero or not a multiple of the page size can be mapped but makes
  `__free_pagetable` halt, and so do pages that a failing `__mmap` of given pages leaves behind;
  `UserProcess.Process.FreePagetable` states the exact condition, `ProcessRuns.UnalignedRange` and
  `ProcessRuns.EmptyRange` are concrete cases.
- `__mmap` with a start inside a page maps two pages from one allocated page;
  `UserProcess.Process.Mmap` states that alignment is the exact condition for pages of one's own, and
  `ProcessRuns.UnalignedStart` is the concrete case.
- `__mmap` and `__init_pagetable` lose pages on some error exits; their contracts name the lost pages.
- `unlink` does not mark an inode dirty whose last link goes (`os/fs/nfs/inode.cc:567`); neither does the model.
- The loader does not compare `p_filesz` with `p_memsz`; `ElfLoader.LoadSegment` says what file bytes that do not
  fit overwrite, and `ElfLoader.Overrun` is the concrete case.
- `truncate` of the slab heap releases empty blocks that are still on the list of blocks with room
  (`os/mm/allocator.h:288`); `SlabTruncate.Truncate` states that this is sound if and only if there is none, and
  `SlabTruncate.UseAfterTruncate` is a run after which the next object comes from a free page.
- `virtio_disk::flush` asks for no block and so never gets past the assertion at the start of `disk_command`
  (`os/drivers/virtio/virtio_disk.cc:206`); commands in the model are for one block.
- `min_va` starts at 0 and can therefore never be lowered (`os/proc/elf.cc:270`); it is not modelled.

## Model

| member | source | states |
|---|---|---|
| `Bitmap.SetBit` | os/utils/bitmap.h:23-25 | sets one bit of a 64-bit word, every other bit reads as before |
| `Bitmap.ClearBit` | os/utils/bitmap.h:27-29 | clears one bit, every other bit reads as before |
| `Bitmap.FindFirstZero` | os/utils/bitmap.h:6-21 | the loop finds the least clear bit of a bitmap, or reports that every bit is set |
| `NfsSpace.LayoutSound` | os/fs/nfs/nfs.cc:148-178 | for every disk size whose product fits 32 bits the bitmap has more bits than blocks, the reserved bits fit its first block, and exactly total_generic_blocks - 2 blocks can be handed out |
| `NfsSpace.LayoutPlain` | os/fs/nfs/nfs.cc:154-157 | without overflow the layout is that of plain arithmetic: floor(8192 (nblocks - 2) / 8193) generic blocks, starting at 2 + nblocks less that number |
| `NfsSpace.LayoutSoundIff` | os/fs/nfs/nfs.cc:148-178 | the layout is sound if and only if (nblocks-2)*8192 does not wrap around 32 bits |
| `NfsSpace.LayoutBreaks` | os/fs/nfs/nfs.cc:148-178 | a concrete disk size on which the wrapped product breaks the layout |
| `NfsSpace.Space.constructor` | os/fs/nfs/nfs.cc:148-178 | the bitmap part of make_fs leaves exactly the reserved bits set and nothing live |
| `NfsSpace.Space.NeverAtCapacity` | os/fs/nfs/nfs.cc:216-219 | at most total_generic_blocks - 2 blocks are ever live, so the capacity test never fires |
| `NfsSpace.Space.SetBitsCount` | os/fs/nfs/nfs.cc:212-326 | in every valid state the number of set bits of the bitmap is generic_block_start plus used_generic_blocks |
| `NfsSpace.Space.RoomIsClear` | os/fs/nfs/nfs.cc:225-252 | the ghost count `room`, on which the success of every operation depends, is zero exactly when no block from the scan start on is clear |
| `NfsSpace.LayoutRoom` | os/fs/nfs/nfs.cc:148-178 | a new disk of 1024 or more blocks has at least 1000 clear blocks |
| `NfsSpace.Space.Scan` | os/fs/nfs/nfs.cc:225-245 | the scan finds the first bitmap block with a clear bit, and no block before it is clear |
| `NfsSpace.Space.FindBlock` | os/fs/nfs/nfs.cc:235-252 | a number computed from a scan past the disk or without a bit is never accepted; an accepted one is clear and in range |
| `NfsSpace.Space.AllocBlock` | os/fs/nfs/nfs.cc:212-285 | hands out the least clear block at or after the scan start and sets exactly that bit; fails exactly when there is none from there on, and takes one from the count of those |
| `NfsSpace.Space.FreeBlock` | os/fs/nfs/nfs.cc:287-326 | rejects a number past the disk and changes nothing; otherwise clears exactly the bit of that block and marks the superblock dirty, and keeps the bookkeeping if and only if the block was live |
| `NfsCommon.WordSetWord` | os/fs/nfs/common.h:59-62 | storing a 32-bit word in a block and reading words back: that word new, all others unchanged |
| `NfsCommon.AddrBlockLayout` | os/fs/nfs/common.h:59-62 | the next pointer of an address block is the little-endian number in bytes 0 to 3, entry i the one at byte 4 + 4 i |
| `NfsTree.Separation` | os/fs/nfs/inode.cc:48-284 | two places of any inodes (direct slots, address blocks, slots) never hold the same block |
| `NfsTree.OnDisk` | os/fs/nfs/common.h:26-62 | every byte of every file is where the raw bytes of the disk say, starting from the fields of its record: 13 direct blocks, then a walk over next pointers with 255 entries per address block |
| `NfsTree.PutDataOk` | os/fs/nfs/inode.cc:83-92 | writing a data block keeps ownership and changes exactly one block of one file |
| `NfsTree.AttachDirectOk` | os/fs/nfs/inode.cc:64-71 | linking a block into a hole among the direct slots keeps ownership; that block of the file becomes the linked block as it is, and no other byte changes |
| `NfsTree.AttachSlotOk` | os/fs/nfs/inode.cc:120-126 | the same for a hole in an address block |
| `NfsTree.AttachLinkOk` | os/fs/nfs/inode.cc:190-203 | appending an all -1 address block keeps ownership and every byte of every file |
| `NfsTree.AppendedOne` | os/fs/nfs/inode.cc:742-758 | an appended address block was owned by nobody, has no entries, and changes no entry there was |
| `NfsTree.DetachAllOk` | os/fs/nfs/inode.cc:295-349 | truncation empties one file and changes no byte of any other |
| `NfsTree.DetachedCount` | os/fs/nfs/inode.cc:295-349 | the number of blocks given back is the number the inode owned |
| `NfsTree.PatchWrites` | os/fs/nfs/inode.cc:83-92 | a block-local copy is exactly a change of a byte range of the file |
| `NfsTree.TransferCompose` | os/fs/nfs/inode.cc:157-265 | two adjacent transfers are one transfer of the whole range |
| `Nfs.FileSystem.WriteBlock` | os/fs/nfs/inode.cc:83-92 | the copy into a block, with the clearing around it when the block was just allocated, changes exactly the copied range even if the block holds stale bytes |
| `Nfs.Inode.DirectRw` | os/fs/nfs/inode.cc:48-95 | direct_data_block_rw: a read of a hole gives zeros and allocates nothing; a write changes exactly its bytes |
| `Nfs.Inode.SlotRw` | os/fs/nfs/inode.cc:97-155 | data_block_rw: the same through a slot of an address block |
| `Nfs.Inode.FollowChain` | os/fs/nfs/inode.cc:718-735 | following next pointers keeps the sum of position and remaining offset and stops in range or at the last address block |
| `Nfs.Inode.ExtendChain` | os/fs/nfs/inode.cc:738-767 | the appending loop ends with the offset inside the last address block; only fresh empty blocks are appended, no entry changes |
| `Nfs.Inode.GetBlockIndex` | os/fs/nfs/inode.cc:708-798 | reaches the address block floor(offset/261120) hops from the start and the right slot; appends only fresh empty blocks |
| `Nfs.Inode.ChainTransfer` | os/fs/nfs/inode.cc:211-262 | starting from the hint or from the chain head moves the same bytes, and the hint left behind points into the chain |
| `Nfs.Inode.DataRw` | os/fs/nfs/inode.cc:157-265 | exactly the requested byte range of this file moves and nothing else changes; the hint stays correct; it fails only when no block can be allocated and the blocks clear at the start were fewer than the blocks of the range plus the missing address blocks |
| `Nfs.Inode.Read` | os/fs/nfs/inode.cc:267-272 | returns exactly the bytes of the file, changes no byte of any file; always succeeds on a file without a chain or inside its chain, and otherwise fails only when no address block can be allocated |
| `Nfs.Inode.Write` | os/fs/nfs/inode.cc:274-284 | changes exactly its own range of its own file, on failure a prefix of it; the size grows to the end of the write; unless the inode ends up marked dirty, nothing that its record holds has changed; it fails only when no block can be allocated, and not if enough were clear at the start |
| `Nfs.Inode.EnsureDirect` | os/fs/nfs/inode.cc:58-77 | a hole among the direct slots gets a block, and the inode is then marked dirty; otherwise nothing changes |
| `Nfs.TookTrans` | os/fs/nfs/inode.cc:157-284 | what a sequence of transfers takes adds up: data blocks one by one, address blocks only until the chain is long enough |
| `Nfs.Inode.Drain` | os/fs/nfs/inode.cc:295-349 | the loops of truncate give back every block of the inode, once, and lower the counter by exactly that number; the chain walk ends |
| `Nfs.Inode.Truncate` | os/fs/nfs/inode.cc:295-349 | truncate(0) of a non-empty file frees exactly its blocks; a size-0 file owns none before and after; the hint is correct afterwards if and only if it is empty |
| `Nfs.Inode.InitData` | os/fs/nfs/inode.cc:627-640 | clears an inode that owns nothing; the hint is correct afterwards if and only if it is empty |
| `Nfs.Inode.StaleHint` | os/fs/nfs/inode.cc:344-344 | whenever two blocks can be allocated, a write and a truncate leave the hint pointing at a block that has been given back |
| `NfsInodeTable.StaleHintOnNewDisk` | os/fs/nfs/inode.cc:344-344 | the same as a run on a newly formatted disk |
| `NfsRuns.Step` | os/fs/nfs/inode.cc:267-284 | one read or write refines one step of the flat byte maps |
| `NfsRuns.Run` | os/fs/nfs/inode.cc:48-284 | every run of reads and writes over any inodes behaves like one flat zero-filled byte map per inode, and ends early only when no block can be allocated |
| `NfsCodec.RoundTrip` | os/fs/nfs/common.h:36-44 | decoding an encoded inode record gives it back |
| `NfsCodec.RecordLayout` | os/fs/nfs/common.h:36-44 | size at byte 0 of a record, nlinks at 4, perm at 6, type at 7, next_addr_block at 8, the 13 addresses from 12 on, little-endian |
| `NfsCodec.RecordOnDisk` | os/fs/nfs/inode.cc:650-652 | record i is the 64 bytes from byte 64 i of the inode-table file, and every 64 bytes are the encoding of the record read from them |
| `NfsCodec.RecordWritten` | os/fs/nfs/inode.cc:681-701 | writing a record changes that record of the inode table and no other |
| `NfsInodeTable.PopListed` | os/fs/nfs/nfs.cc:328-367 | taking a number off the free list leaves a well-formed list |
| `NfsInodeTable.PopFrontier` | os/fs/nfs/nfs.cc:328-367 | with an empty list the frontier advances by one and the list stays well-formed |
| `NfsInodeTable.PushOk` | os/fs/nfs/nfs.cc:369-403 | freeing a number puts it in front of a duplicate-free chain that ends at the frontier |
| `NfsInodeTable.RewriteOk` | os/fs/nfs/inode.cc:669-705 | flushing an inode in use leaves the free list alone |
| `NfsInodeTable.InodeTable.AllocInode` | os/fs/nfs/nfs.cc:328-367 | never returns a number in use; takes the number freed last, or advances the frontier when there is none; the inode comes cleared and marked dirty; ninodes stays exact |
| `NfsInodeTable.InodeTable.FreeInode` | os/fs/nfs/nfs.cc:369-403 | the number goes to the front of the list and is no longer in use; ninodes stays exact |
| `NfsInodeTable.InodeTable.Flush` | os/fs/nfs/inode.cc:669-705 | writes at most the record of a number in use, so no free-list link is overwritten; afterwards the record of a valid inode holds its fields, and every inode in use that is not marked dirty still agrees with its record |
| `NfsInodeTable.InodeTable.Drop` | os/fs/nfs/inode.cc:565-573 | the count goes to 0 without a mark, then truncate, flush, free, invalidate in this order: the link slot survives, the inode owns nothing, and the records of all other inodes in use still hold what they should |
| `NfsInodeTable.InodeTable.Reload` | os/fs/nfs/inode.cc:642-668 | loading a valid inode that is not marked dirty gives all its fields back from the record, with an empty hint |
| `NfsInodeTable.InodeTable.Persist` | os/fs/nfs/inode.cc:642-705 | a write, a flush, dropping the inode from memory and loading it again: size and bytes are what the write made them, every other file and field is as before |
| `NfsInodeTable.InodeTable.WriteFile` | os/fs/nfs/inode.cc:274-284 | a write to any inode in use keeps the free list and the agreement of all inodes not marked dirty with their records |
| `NfsInodeTable.InodeTable.ReadFile` | os/fs/nfs/inode.cc:267-272 | the same for a read, which may append address blocks |
| `NfsInodeTable.MakeFs` | os/fs/nfs/nfs.cc:140-210 | succeeds if and only if the disk has at least 1024 blocks; whatever the disk held, the table is a file with one link and one record, the root an empty directory with one link, the list is empty, the frontier is 2 |
| `NfsNames.DirentRoundTrip` | os/fs/nfs/common.h:64-67 | decoding an encoded directory entry gives it back |
| `NfsNames.DirentLayout` | os/fs/nfs/common.h:64-67 | the inode number is the little-endian number in bytes 0 to 3 of an entry, the name field bytes 4 to 31 |
| `NfsNames.CStringOfName` | os/fs/nfs/inode.cc:362-363 | a terminated name of at most 27 bytes reads back as itself |
| `NfsNames.NameStored` | os/fs/nfs/inode.cc:361-404 | a name of at most 27 bytes stays in its field with its terminator; one of 28 bytes, which passes the length test, leaves the field without a terminator and clears the byte behind it |
| `NfsNames.EntryWritten` | os/fs/nfs/inode.cc:391-394 | writing a slot changes that slot of that directory and no other |
| `NfsNames.RefAdded` | os/fs/nfs/inode.cc:361-394 | a new entry raises the number of slots naming its inode by one and no other count |
| `NfsNames.RefRemoved` | os/fs/nfs/inode.cc:580-581 | emptying an entry lowers the count of its inode by one and no other |
| `NfsDirectory.Namespace.FindEmpty` | os/fs/nfs/inode.cc:375-392 | finds the first empty slot, or the end of the directory |
| `NfsDirectory.Namespace.FindName` | os/fs/nfs/inode.cc:542-554 | finds the first occupied slot whose name reads as the one given up to its NUL, or no occupied slot has it |
| `NfsDirectory.Namespace.Link` | os/fs/nfs/inode.cc:351-397 | the link count and the number of slots naming the inode rise together, in the first empty slot; no other file changes, and all hints stay as usable as they were; one clear block and the address blocks missing suffice; the inode keeps its type, and types, permissions and sizes of all others stay, but that the directory grows with its entries |
| `NfsDirectory.Namespace.Create` | os/fs/nfs/inode.cc:400-423 | create and mkdir: a number not in use, one entry naming it, link count one, a file of zeros; too long names are refused and change nothing; the hints stay usable if and only if the in-memory inode it got carries none of its predecessor; two clear blocks and the address blocks missing suffice, and no more are taken; the new inode has the type of a file or of a directory, as asked for, and size 0, and every other inode keeps its type |
| `NfsDirectory.Namespace.Unlink` | os/fs/nfs/inode.cc:529-592 | removes the first matching entry; the inode keeps a count one lower, or, if that was the last link, its blocks and number are released; the counts stay right if and only if this was not the last link of a directory that has entries; no other file changes; four clear blocks and the address blocks missing suffice; no type or size changes |
| `NfsDirectory.Namespace.WriteData` | os/fs/nfs/inode.cc:274-284 | a write of a file grows exactly this file to the end of the write and leaves names, link counts and types alone |
| `NfsDirectory.GoneDirectory` | os/fs/nfs/inode.cc:565-573 | with a directory released, the link counts of the others are right if and only if it had no entries |
| `NfsDirectory.NewNamespace` | os/fs/nfs/nfs.cc:140-210 | on every disk of at least 1024 blocks make_fs ends in a file system in which all of these invariants hold |
| `NfsNameRuns.Run` | os/fs/nfs/inode.cc:267-619 | over every run of create, mkdir, link, unlink, read and write: each operation changes entries, link counts and file contents as it should or is refused, and reads return what was written; link counts equal the numbers of slots naming the inodes, and one more for the root, and any other number is in use exactly as long as some slot names it; a run ends early only when no block can be allocated, when a new inode carries a hint of its predecessor, or when the last name of a directory with entries is removed; types and sizes of all inodes follow the operations as well |
| `NfsNameRuns.RunFromNew` | os/fs/nfs/inode.cc:351-619 | the same from make_fs on, where only the root exists, an empty directory |
| `NfsNameRuns.OrphanRun` | os/fs/nfs/inode.cc:529-592 | on every new file system mkdir d, create d/f, unlink d succeed and leave a file with one link and no name |
| `BufferCache.StepKeeps` | os/utils/buffer_manager.h:34-147 | every step of every session, with any number of evictions in flight, keeps: at most one node per key in the buffer list, users own what they use, the flush list is exactly what is being flushed |
| `BufferCache.PathKeeps` | os/utils/buffer_manager.h:34-147 | so the invariant holds after every interleaving of any length |
| `BufferCache.KeyStays` | os/utils/buffer_manager.h:66-79 | a node with an owner keeps its key |
| `BufferCache.UsedStays` | os/utils/buffer_manager.h:66-79 | a node in use by another session is never chosen as victim |
| `BufferCoherence.StepCoherent` | os/utils/buffer_manager.h:34-147 | a step changes the logical contents only if it is a holder's write, provided a session returning from its flush finds its block not still to be written by another |
| `BufferCoherence.ReaderSees` | os/utils/buffer_manager.h:117-146 | a session that returns from its flush and finds its block in no buffer loads the logical content if and only if no other session still has to write different contents of that block |
| `BufferCoherence.OneFlushIsSettled` | os/utils/buffer_manager.h:111-132 | at most one eviction flush in flight implies the condition of the steps and runs |
| `BufferCoherence.RunRefines` | os/utils/buffer_manager.h:34-147 | every run that meets the condition refines the plain disk map |
| `BufferCoherence.OneFlushRuns` | os/utils/buffer_manager.h:111-132 | every path with at most one eviction flush in flight at a time is such a run |
| `BufferCoherence.HolderSees` | os/utils/buffer.h:115-144 | a session inside a valid buffer sees the logical content of its block |
| `BufferCoherence.InitiallyCoherent` | os/utils/buffer_manager.h:18-25 | the empty cache agrees with the disk |
| `BufferLaws.GetWaits` | os/utils/buffer_manager.h:37-52 | a get of a block that is being flushed waits, and nothing else happens |
| `BufferLaws.GetHits` | os/utils/buffer_manager.h:56-63 | a get that finds its block returns the node with that key, which moves to the front of the list while all others keep their order |
| `BufferLaws.GetMisses` | os/utils/buffer_manager.h:66-109 | a get that misses takes a new node below min_buffer_count, and from there on the last one in the list that nobody uses: a clean one is returned at once at the front of the list under the key asked for, a dirty one is flushed first; if all are in use it takes a new node, or fails with max_buffer_count of them |
| `BufferLaws.FlushedReturns` | os/utils/buffer_manager.h:115-146 | after its flush a get returns the node that has the key by then, and gives its own back to the end of the list, or its own at the front under the key asked for |
| `BufferLaws.PathGets` | os/utils/buffer_manager.h:34-147 | over every path a session that asked for block k is at a node of block k from the return of get until it drops it |
| `BufferLaws.AskerSees` | os/utils/buffer.h:115-144 | so a session that asked for block k and is inside the valid buffer sees the logical content of block k |
| `BufferWitness.StaleRead` | os/utils/buffer_manager.h:111-146 | a run from the empty cache, with two evictions in flight, after which a holder has stale contents as valid |
| `BufferWitness.LostWrite` | os/utils/buffer_manager.h:111-146 | a run from the empty cache in which the other session only has to write what the disk holds, and a later write is lost |
| `BufferManager.Manager.Find` | os/utils/buffer_manager.h:56-64 | the search loop finds the first matching node of a list |
| `BufferManager.Manager.FindUnused` | os/utils/buffer_manager.h:66-79 | the backward search finds the last node without another owner |
| `BufferManager.Manager.Start` | os/utils/buffer_manager.h:34-113 | get_derived up to its first suspension is the first half of the step machine; on a hit it returns the node with the key asked for and moves it to the front |
| `BufferManager.Manager.Resume` | os/utils/buffer_manager.h:115-146 | get_derived after the flush is the second half; it returns a node with the key asked for |
| `CoroMutex.StepKeeps` | os/atomic/mutex.cc:8-23 | every step keeps exclusion, the wait queue and the pending wake-up |
| `CoroMutex.RunSafe` | os/atomic/mutex.cc:8-23 | over every interleaving: at most one holder, and if the mutex is free and some task sleeps then a task taken from the wait queue is on its way |
| `CoroMutex.WokenTaskTakesIt` | os/utils/wait_queue.h:15-86 | that task takes the mutex with its next step |
| `CoroMutex.StepOrder` | os/utils/wait_queue.h:24-86 | a task that finds the mutex locked sleeps if and only if it may yield; unlock wakes the one that has slept longest and no other |
| `CoroMutex.FirstInFirstOut` | os/utils/wait_queue.h:66-86 | over every run tasks leave the queue in the order in which they entered it |
| `CoroMutex.Mutex.Lock` | os/atomic/mutex.cc:8-16 | one round of lock: it succeeds exactly when the mutex is free; a failing task goes to the end of the queue if it may yield, and stays out of it with no_yield; nobody else moves |
| `CoroMutex.Mutex.Unlock` | os/atomic/mutex.cc:18-23 | unlock frees the mutex, takes exactly the first sleeper from the queue and wakes it |
| `VirtioRing.WrapIsHarmless` | os/drivers/virtio/virtio_disk.cc:271-274 | 16-bit ring indexes that wrap around select the same ring position and still tell empty from non-empty |
| `VirtioRing.AvailRoom` | os/drivers/virtio/virtio_disk.cc:271-274 | there is always room for one more head in the available ring |
| `VirtioRing.UsedRoom` | os/drivers/virtio/virtio_disk.cc:319-324 | the device never overwrites an unread entry of the used ring |
| `VirtioRing.WakeCount` | os/drivers/virtio/virtio_disk.cc:163-164 | each freed descriptor wakes one more sleeping task while there is one |
| `VirtioRing.Disk.AllocDesc` | os/drivers/virtio/virtio_disk.cc:143-151 | the first free descriptor, or -1 when there is none |
| `VirtioRing.Disk.AllocDescs` | os/drivers/virtio/virtio_disk.cc:182-192 | three distinct free descriptors, or none taken and fewer than three free |
| `VirtioRing.Disk.FreeDesc` | os/drivers/virtio/virtio_disk.cc:154-165 | clears and frees one descriptor, takes exactly the first sleeper from the queue and wakes it |
| `VirtioRing.Disk.FreeChain` | os/drivers/virtio/virtio_disk.cc:168-178 | frees exactly the three descriptors of the chain, and wakes the first three sleepers |
| `VirtioRing.Disk.Submit` | os/drivers/virtio/virtio_disk.cc:216-276 | free descriptors and three-descriptor chains still partition the table; the head is posted once, behind all others, with the command in its chain; a task sleeps only when fewer than three are free, at the end of the queue, and each descriptor given back has woken the first one there |
| `VirtioRing.Disk.DeviceTake` | os/drivers/virtio/virtio_disk.cc:270-276 | the device takes heads in the order posted |
| `VirtioRing.Disk.DeviceReturn` | os/drivers/virtio/virtio_disk.cc:319-324 | the device returns a head it is working on, once |
| `VirtioRing.Disk.DeviceDo` | os/drivers/virtio/virtio_disk.cc:270-324 | a step of the device moves one head on and no other: the oldest posted one is taken, one being worked on is returned |
| `VirtioRing.Disk.Interrupt` | os/drivers/virtio/virtio_disk.cc:304-337 | what happens is a sequence of events, each a step of the device or the completion of the oldest returned head: done is set for exactly the heads returned, those included that the device returns while the handler runs, once for each entry read; the loop ends whatever the device does meanwhile |
| `VirtioRing.DoneMeansReturned` | os/drivers/virtio/virtio_disk.cc:319-330 | a head that an interrupt finds posted or being worked on is completed only if the device returns it meanwhile |
| `VirtioRing.Disk.Finish` | os/drivers/virtio/virtio_disk.cc:279-293 | only the owner of a completed head frees its chain and the first three sleepers are woken; whenever a task sleeps, at least floor(free/3) woken tasks are pending |
| `VirtioRing.DeviceReads` | os/drivers/virtio/virtio_disk.cc:234-267 | reading the chain of a task as section 5.2.6 of Virtio 1.1 prescribes gives the type, the sector, the buffer and the direction that the task asked for and its status byte |
| `VirtioRing.Disk.HandleOne` | os/drivers/virtio/virtio_disk.cc:322-334 | one round of the handler completes the oldest returned head, whose status byte the device has written |
| `VirtioRuns.Run` | os/drivers/virtio/virtio_disk.cc:182-337 | over every run of tasks, device and interrupts in any order: the invariant holds, and each step moves only its own request, descriptors and wake-ups; an interrupt moves requests by steps of the device and by completing returned ones |
| `VirtioRuns.DeviceSees` | os/drivers/virtio/virtio_disk.cc:234-276 | in every state of every run the device finds in the chain of a task exactly what that task asked for last |
| `VirtioRuns.FirstInFirstOut` | os/drivers/virtio/virtio_disk.cc:224-230 | over every run tasks leave request_queue in the order in which they entered it |
| `VirtioRuns.ReturnedFirst` | os/drivers/virtio/virtio_disk.cc:271-330 | over every run: between the moment a request is posted and the moment it is complete the device has returned it |
| `PageTable.PteFields` | os/arch/riscv.h:357-362 | PTE2PA and PTE_FLAGS give back what PA2PTE and the flags put in |
| `PageTable.PageNumberAtBit10` | os/arch/riscv.h:357-362 | the page number stands at bit 10 of an entry, both when it is made and when it is read |
| `PageTable.PathInjective` | os/arch/riscv.h:364-367 | distinct page numbers reach distinct slots |
| `PageTable.HardwareWalk` | os/arch/riscv.h:364-367 | translation by the steps of section 4.3.2 of the Privileged Architecture, on physical addresses and bits, finds exactly the entries of the model that allow some access |
| `PageTable.GrowTables` | os/mm/vmem.cc:95-115 | a new table adds one position to the tree and moves no other |
| `PageTable.GrowOk` | os/mm/vmem.cc:89-118 | walk with alloc keeps the tree a tree and changes no translation |
| `PageTable.SetLeafOk` | os/mm/vmem.cc:172-176 | storing a PTE changes the translation of one page and keeps the tree |
| `PageTable.TreeFrame` | os/mm/vmem.cc:89-118 | a tree depends on its own pages only |
| `PageMemory.Memory.constructor` | os/mm/allocator.h:51-57 | the free list of a new allocator holds exactly the pages of its range, once each |
| `PageMemory.Memory.AllocPage` | os/mm/allocator.h:100-123 | returns the page freed last, or 0 when there is none |
| `PageMemory.Memory.FreePage` | os/mm/allocator.h:65-97 | a page of the range goes on top, 0 is ignored, anything else is the panic; the list stays sound if and only if the page was not on it |
| `PageMemory.Rounding` | os/arch/riscv.h:339-340 | PGROUNDDOWN and PGROUNDUP give the nearest page boundaries below and above |
| `PageMemory.Memory.Walk` | os/mm/vmem.cc:89-118 | finds the slot of the page or says why not; tables come from the free list and no translation changes |
| `PageMemory.Memory.Mappages` | os/mm/vmem.cc:157-184 | maps exactly the pages of the range with pa advancing in step; stops at the first mapped page, at MAXVA or when memory runs out, with the prefix mapped; for an empty range, whose last page lies before its first, it maps one page or never succeeds |
| `PageMemory.PagesTouched` | os/mm/vmem.cc:157-166 | a page is among those mapped for a range exactly if it holds a byte of the range |
| `PageMemory.Memory.Uvmunmap` | os/mm/vmem.cc:228-265 | succeeds if and only if the range is aligned and all leaves; then clears exactly it and frees its frames in order |
| `PageMemory.Memory.UnmapOnwards` | os/mm/vmem.cc:228-265 | an aligned empty range is never unmapped: whatever the rounds meet, the loop does not reach its last page |
| `PageMemory.UnmapRestores` | os/mm/vmem.cc:157-265 | unmapping what was mapped restores every translation |
| `PageMemory.Memory.MapUnmap` | os/mm/vmem.cc:157-265 | mappages then uvmunmap of an aligned range succeeds and restores every translation |
| `PageTeardown.FreeTables` | os/mm/vmem.cc:330-351 | returns every table page below the given one exactly once and touches no other; succeeds if and only if no last-level entry is valid |
| `AddressSpace.GrowSpace` | os/proc/process.cc:79-110 | a newly mapped range extends the inverse maps from pages to list entries and from physical pages to pages |
| `AddressSpace.UnmapRegion` | os/proc/process.cc:177-183 | unmapping one list entry frees exactly its private physical pages |
| `AddressSpace.RegionLeaves` | os/proc/process.cc:177-183 | an entry can be unmapped if and only if its flags are more than PTE_V |
| `AddressSpace.OtherProcess` | os/proc/process.cc:79-190 | what one process does to its tables and to free pages leaves every other process as it was |
| `UserProcess.Process.MmapAt` | os/proc/process.cc:79-89 | the overload for given physical pages: exactly the range is mapped and listed, private pages become the process's, pages are conserved; if memory runs out on the way the pages mapped so far stay, in no entry |
| `UserProcess.Process.Mmap` | os/proc/process.cc:91-120 | the allocating overload gives every new page a page of its own if and only if the start is aligned or the range empty; for an aligned start pages are conserved, it halts only on a blocked range or without permissions, and runs out of memory only if fewer than three pages per page were free; an empty range is only listed |
| `UserProcess.Process.MmapAligned` | os/proc/process.cc:91-120 | fresh pages for the whole range and conservation; when memory runs out every translation is as before and at most one page is lost |
| `UserProcess.Process.MmapUnaligned` | os/proc/process.cc:91-120 | for an unaligned start the first round maps two pages from one allocated page; a second round meets the second of them, or rolls back from an unaligned start, and halts either way |
| `UserProcess.Process.Rollback` | os/proc/process.cc:112-119 | the error exit restores the space and gives back every page mapped so far |
| `UserProcess.Process.InitPagetable` | os/proc/process.cc:122-174 | exactly trampoline, trapframe and stack are mapped, the last two zeroed; pages are conserved; on failure at most two pages are lost, and nine free pages suffice |
| `UserProcess.InitialMeaning` | os/proc/process.cc:149-162 | what the hardware makes of a new address space: trampoline R and X, trapframe R and W, both not for the user, in the last two pages below 2^38; the stack U, R and W below 2^37; a fault everywhere else |
| `UserProcess.Process.FreePagetable` | os/proc/process.cc:177-190 | succeeds if and only if every entry is aligned, not empty and has a permission, and no pages were left behind by a failed mmap; then every page of the process is free, no other page is touched, and a second call does nothing |
| `UserProcess.Process.HardwareSees` | os/proc/process.cc:79-110 | at every address the hardware finds the page of an entry of the list, with the flags of the entry and in a frame of its own if it is private, or faults, and then no entry has the page or its flags allow no access |
| `ProcessRuns.ServeAll` | os/proc/process.cc:79-120 | any sequence of aligned mmap calls, fresh, shared or of private pages: the list grows by their entries in order and pages are conserved; it succeeds if the requests are for unmapped pages of their own and three pages are free for each |
| `ProcessRuns.Lifetime` | os/proc/process.cc:79-190 | init, any sequence of mmap calls, and free: the free list gets every page back exactly once; it succeeds if the requests are for pages of their own, below MAXVA and off the three initial ones, and nine pages and three for each are free; the list of mappings was that of the requests in between |
| `ProcessRuns.UnalignedRange` | os/proc/process.cc:91-190 | a range of 100 bytes can be mapped whenever three pages are free, and then never torn down |
| `ProcessRuns.UnalignedFromNew` | os/proc/process.cc:91-190 | the same for a new process in a memory with twelve free pages |
| `ProcessRuns.EmptyRange` | os/proc/process.cc:91-190 | an empty range is listed, and then the address space can never be torn down |
| `ProcessRuns.UnalignedStart` | os/proc/process.cc:91-120 | one byte at 0x1800: page 2 is mapped to the page behind the allocated one, which is not the process's |
| `UserCopy.Walkaddr` | os/mm/vmem.cc:123-139 | the frame of a user page, 0 if not mapped for the user |
| `UserCopy.FrameMeans` | os/mm/vmem.cc:123-139 | the frame of an address is what stands at bit 10 of its entry if the address is below 2^38 and bits 0 and 4 are set, and 0 otherwise |
| `UserCopy.UserAccess` | os/mm/vmem.cc:123-139 | where the hardware lets the user in, it is the frame that the hardware uses |
| `UserCopy.Copyout` | os/mm/vmem.cc:447-467 | memory is what storing the bytes one by one makes of it, up to the first unmapped page; where user pages have frames of their own, user memory changes in exactly those bytes; success if and only if the range is mapped |
| `UserCopy.MemsetUser` | os/mm/vmem.cc:469-486 | the same for a constant byte |
| `UserCopy.Copyin` | os/mm/vmem.cc:491-510 | returns exactly what the user sees, up to the first unmapped page |
| `UserCopy.CopyRoundTrip` | os/mm/vmem.cc:447-510 | copyin gets as far as copyout did and returns what is stored, which is the same bytes where user pages have frames of their own |
| `ElfLoader.FillSegment` | os/proc/elf.cc:297-317 | file bytes at p_vaddr and zeros in the rest of the page-rounded range; nothing else changes, except that file bytes that do not fit run on behind it; success if and only if all of that is mapped |
| `ElfLoader.SegmentBounds` | os/proc/elf.cc:254-255 | the pages of a segment run from the boundary at or below p_vaddr to the one at or above its end |
| `ElfLoader.LoadSegment` | os/proc/elf.cc:246-320 | one PT_LOAD header: mapped, filled, and everything mapped before keeps its contents, except where file bytes run on; it halts only if a page is mapped already and is rejected only out of bounds, out of memory, or when file bytes run on into unmapped pages; bits 1 to 4 of every entry of the segment are PF_R, PF_W, PF_X and 1, and every entry there was is as before |
| `ElfLoader.LoadSegments` | os/proc/elf.cc:245-321 | after the loop what was mapped before keeps its contents wherever no file bytes run on, every segment holds its file bytes and zeros, if none run on, and pages are conserved; segments in bounds, in unmapped pages of their own, never halt it and are loaded if three pages per page are free; every page of every segment has the rights of its header, and later segments leave them alone |
| `ElfLoader.Overrun` | os/proc/elf.cc:297-317 | a segment with more file bytes than its pages hold overwrites the segment behind it |
| `SizeClass.Log2IsFloor` | os/mm/allocator.cc:99-108 | log2_64 is the floor of the logarithm for every non-zero 64-bit value |
| `SizeClass.Table` | os/mm/allocator.cc:89-107 | the de Bruijn table inverts the multiplication at every power of two |
| `SizeClass.ClassFits` | os/mm/allocator.cc:110-152 | a request of 1 to 1024 bytes gets the smallest class that holds it; a request for nothing halts |
| `SizeClass.DeleteFindsClass` | os/mm/allocator.cc:211-247 | delete finds from the page header the class that new used |
| `Slab.TakeOk` | os/mm/allocator.h:168-181 | taking a slot shortens the index chain by its head; chain and used count still make up the capacity |
| `Slab.GiveOk` | os/mm/allocator.h:183-199 | freeing a slot puts it in front of the chain |
| `Slab.TakeSlotOk` | os/mm/allocator.h:239-244 | after alloc the block free list of every class is still exactly its blocks with room |
| `Slab.GiveSlotOk` | os/mm/allocator.h:252-262 | the same after free |
| `Slab.NoOverlap` | os/mm/allocator.h:143-155 | distinct slots never overlap |
| `Slab.Locate` | os/mm/allocator.h:184-187 | an address leads back to its page and slot |
| `Slab.CapacityTight` | os/mm/allocator.h:143-155 | the header is padded to the slot size and no further, and no slot more would fit into the page |
| `Slab.Heap.LiveApart` | os/mm/allocator.h:141-199 | distinct live objects share no byte and stay in the data area of their pages |
| `Slab.Heap.AllocClass` | os/mm/allocator.h:221-251 | an object that was not live becomes live, aligned to its class, no other changes and no byte of a slot is written; a page is taken, the last freed one, exactly if no block of the class has room, and 0 is returned only if then no page is left |
| `Slab.Heap.FreeClass` | os/mm/allocator.h:252-266 | exactly that object stops being live; every other keeps its bytes |
| `Slab.Heap.Scribble` | os/mm/allocator.h:155-181 | a program may overwrite any byte of its objects, the stored link included, without harming the heap or any other object |
| `Slab.LinkSet` | os/mm/allocator.h:157-166 | the index stored in the first four bytes of a slot is read back |
| `Slab.Heap.Alloc` | os/mm/allocator.cc:110-152 | an object of the class chosen, aligned, large enough for the request and not live before; a page is taken only if no block of the class has room |
| `Slab.Heap.Delete` | os/mm/allocator.cc:211-247 | exactly that object stops being live |
| `SlabRuns.Run` | os/mm/allocator.h:141-266 | over every run of new, delete and writes through held pointers: the heap behaves like separate byte arrays, each holding what the program last wrote; the live objects are exactly the held ones, no two share a byte, and new fails only without a free page |
| `SlabTruncate.Truncate` | os/mm/allocator.h:268-314 | exactly the pages of empty blocks go back, and no object is lost; the heap stays sound if and only if there was no empty block: otherwise no bookkeeping makes the block lists right, and the block the next alloc uses is a free page if it was empty |
| `SlabTruncate.EmptyMeans` | os/mm/allocator.h:205-207 | a block is empty exactly if none of its slots is live |
| `SlabTruncate.UseAfterTruncate` | os/mm/allocator.h:221-314 | new, delete, truncate in a class without blocks: the next new will use a page that the page allocator has as free |

## Left out

- NfsSpace.Space.AllocBlock: one atomic step; the buffer reference that is put twice (`os/fs/nfs/nfs.cc:258`) and two allocations interleaving at the suspension points are not modelled.
- NfsSpace.Space.FreeBlock: states the bitmap as seen through the cache; the buffer is not marked dirty (`os/fs/nfs/nfs.cc:313`), so nothing is said about a bitmap block that is evicted afterwards.
- NfsSpace.Space.constructor: disk sizes whose layout product wraps around 32 bits, for which `make_fs` would set bits outside its first bitmap block, are excluded here and in every method that formats a disk; `NfsSpace.LayoutSoundIff` says that these are exactly the sizes with a broken layout.
- NfsInodeTable.MakeFs: excludes the same disk sizes.
- NfsDirectory.NewNamespace: excludes the same disk sizes.
- NfsNameRuns.RunFromNew: excludes the same disk sizes, and so does OrphanRun.
- Nfs.Inode.DataRw: takes a usable seek hint and offsets below 2^32; the file system runs one operation at a time on a plain block map, and the cache is proved against such a map separately.
- Nfs.Inode.Write: on an allocation failure the operation ends with a prefix written; how a failing coroutine unwinds is not modelled.
- Views of one block: bitmap words are sequences of 64 bits and data blocks sequences of bytes, so that a block is never used in two roles at once; separation is what makes this sound.
- NfsInodeTable.InodeTable.Flush: the record of the inode table itself, which lives in the superblock, and mount and unmount are not modelled.
- NfsDirectory.Namespace.Create: names of exactly 28 bytes, for which the terminator is written past the field, are excluded; the bytes after the terminator are arbitrary.
- NfsDirectory.Namespace.Unlink: the dentry's inode is assumed to be the one the matched entry names, and not the directory itself, whose lock unlink would take twice; the dentry cache, lookup and path walking are left out.
- NfsNameRuns.Run: the inode table stays below 2^32 bytes, and an operation on a directory or a link count that has reached the width of its field is not performed; neither is an unlink of an entry that names its own directory.
- BufferCache.StepKeeps: shared and weak pointer counts are a set of owners per node; `destroy` and the failure return that keeps the lock are left out.
- BufferCoherence.RunRefines: the condition is sufficient for whole runs; that it is also necessary is stated for what a returning reader loads (`BufferCoherence.ReaderSees`) and by the two runs of `BufferWitness`.
- VirtioRing.Disk.DeviceReturn: the device returns a head only once it has written status 0; on any other status the handler would spin with the lock held.
- VirtioRing.Disk.Finish: the error return when the device needs a reset is left out, and so is the test of the block number against the capacity, before any descriptor is taken.
- VirtioRing.DeviceReads: pointers are names of what they point to, not addresses.
- PageMemory.Memory.Mappages: flags are below 2^10 (no memory-type bits), and the range does not run past 2^64.
- PageMemory.Memory.Uvmunmap: with `do_free` no physical page is mapped twice in the range, and none is a table or free.
- PageMemory.Memory.UnmapOnwards: what the rounds unmap and free before the machine halts is not stated.
- PageMemory.Memory.FreePage: the link word stored inside a free page is not part of its contents.
- PageTeardown.FreeTables: a valid last-level entry without R, W and X, which the code would follow as if it named a table, is excluded; `mappages` makes one only if it is asked for no permission.
- Views of one page: a page is 512 words while it is a table and 4096 bytes while it holds data.
- UserProcess.Process.Mmap: addresses do not wrap around 2^64.
- UserProcess.Process.MmapAt: the range is not empty; after pages without R, W and X were left behind nothing is said about teardown.
- UserProcess.Process.FreePagetable: what is unmapped and freed on the way to the halt at an empty entry is not stated.
- ProcessRuns.ServeAll: a private page mapped by the caller is one page that it has just allocated, since the allocator gives out single pages.
- ProcessRuns.Lifetime: the requests are the aligned ones that FreePagetable can undo, as in ServeAll.
- ElfLoader.LoadSegment: no page mapped for the user is shared with another page, here and in FillSegment and LoadSegments.
- ElfLoader.LoadSegments: header validation, `min_va`, `max_va` and the entry point are left out, and sums of header fields do not wrap around 2^64.
- Slab.InfoSize: the block header is that of a build without `MEMORY_DEBUG`, 24 bytes; a debug build puts a bitmap of the free slots into it.
- Slab.Heap.Alloc: requests above 1024 bytes go to the large allocator, which is not modelled, and neither are the byte counters.
- SlabTruncate.Truncate: the list of all blocks of the class is a parameter, and what the page allocator's link word makes of the header of a released block is not stated.
- `uvmalloc`, `uvmdealloc`, `uvmcopy` and `copyinstr`: the first three pass arguments that the page-table specification does not describe.
- The scheduler, process exit and kill, traps, the console, logging and the C++ coroutine machinery.
