# Proved properties of an xv6 coursework repository

This project models the parts of the repository that keep data safe or keep processes apart, and
proves what they are for. Where the source changes state step by step, so does the model: a class or
an array with loops, proved against a specification; the properties of the specification are lemmas
over all inputs, all runs or all interleavings.

| part | files | main result |
|---|---|---|
| redo log | `log_protocol`, `log_safety`, `log_space`, `log_disk` | crash atomicity over all runs; a panic is reachable if and only if the log or the cache is too small |
| buffer cache | `bio_list`, `bio_cache`, `bio_users` | one buffer a block, bread gives the latest data, list in release order, counts are users |
| files and blocks | `fs_blocks`, `fs_files` | readi and writei are slices and overlays of flat byte sequences; every block has one owner |
| link counts | `links_tree`, `links_safety`, `links_unlink`, `links_dead`, `links_calls` | counts are numbers of names between any two steps; directories are a tree; exactly when not |
| page tables | `vm_tables`, `vm_memory`, `vm`, `vm_user`, `vm_copy` | every frame has one purpose; growing, shrinking, freeing and copying conserve frames; what user code can reach |
| user allocator | `umalloc_blocks`, `umalloc` | conservation, disjointness, full coalescing, both loops end |
| sleep-lock | `sleeplock` | mutual exclusion, no lost wakeup, progress |
| pipe | `pipe_buffer`, `pipe_protocol` | FIFO with wrapping counters; the exact step that loses a wakeup |
| MLFQ | `mlfq_rings`, `mlfq_machine`, `mlfq_safety`, `mlfq_ticks`, `mlfq_kernel` | every live process in exactly one slot, on its level, in every run; what a tick does, in numbers |
| shell parser | `shell_grammar`, `shell_roundtrip`, `shell_tokens`, `shell_syntax`, `shell_parser` | exactly the texts of a grammar are accepted, with its tree; printing and parsing are inverse; the NULs written in place damage no word |
| grep | `grep_match`, `grep_lines` | the matcher is the language of the pattern; exactly when no complete line gets lost |
| regular expressions | `regexp_tree`, `regexp_paths`, `regexp_language`, `regexp_stars`, `regexp_builder` | the automaton accepts exactly the language of the tree |
| infix to postfix | `infix_grammar`, `infix_meaning`, `infix_stack` | right for sums, terms and factors if and only if the stack suffices; meaning preserved |
| shortest paths | `dijkstra` | minimum over all paths, and the predecessor tree |

## What the code does not keep

The code was modelled as it is. Where it falls short of what it is for, a lemma gives an input that
shows it (named first), and another the exact condition under which the code is right:

- `mkfs.c` reserves LOGSIZE blocks for the log, one too few: `LogSpace.SmallLogPanics`. The cache has
  NBUF = LOGSIZE buffers, one too few to commit a full transaction: `LogSpace.FullCommitPanics`. Exactly
  then: `LogSpace.PanicIffTooSmall`, `LogSpace.CommitFindsBufferIff`.
- create and link accept a directory that has been unlinked, and the file is lost: `LinksDead.FileLost`,
  `LinksDead.DeadReachable`. Exactly then: `LinksDead.CreateKeepsIff`, `LinksDead.LinkKeepsIff`.
- A starred star loses its body, so `a**` does not match `a`: `RegExpLanguage.DoubleStarFails`. Exactly
  then: `RegExpLanguage.DoubleStarExactIff`; for whole trees: `RegExpStars.HarmlessBuiltRight`.
- malloc's size computation wraps, and what it asks of sbrk can be negative: `Umalloc.HugeRequestWraps`.
  Exactly then: `Umalloc.RequestFitsIff`, `Umalloc.BigEnoughIff`, `Umalloc.SbrkGrowsIff`.
- A killed writer can leave a reader asleep on a full pipe: `PipeProtocol.KilledWriterForgetsReader`.
  Exactly such steps: `PipeProtocol.StepJustifiedIff`.
- grep drops what it has of a line when a read brings no newline: `GrepLines.ShortReadCutsLine`. Exactly
  then: `GrepLines.SeenExactIff`.
- push drops on a full stack, which spoils the output or ends the program: `InfixMeaning.SumTooDeep`,
  `InfixMeaning.TooDeep`. Exactly then: `InfixMeaning.PostfixIff`.
- The walk of checkRcount does not end on a full ring of 64 processes: `MlfqRings.FullRingNoEnd`. Exactly
  then: `MlfqRings.WalkEndsIff`, and `MlfqSafety.ForkKeepsIff` for the fork that brings it about.
- The n-th pass of shortest_path writes found[-1], for every input: `Dijkstra.ShortestPath`.

## Assumptions taken from the design

- A write of one block is atomic, and a crash may come between any two of them. Calls keep to their
  budget of MAXOPBLOCKS blocks; home blocks lie outside the log area; block 0 of a file is never data.
- One device with file system and log. The buffer count of a log is that of the buffers nobody else refers
  to while it looks for one: NBUF at most.
- A holder of a buffer that changes its data logs it or writes it before releasing it.
- In the state machine of link counts, names are created in directories that have not been unlinked.
- free is given blocks that malloc returned and that are still live; kfree frames that are in use.
- The page tables of an address space were made by walkpgdir.
- allocuvm is asked for pages that are not mapped, copyuvm for pages that are (the source panics).
- An end of a pipe is closed only when no call at that end is in progress.
- MLFQ: one CPU and fewer than 64 live processes, since the queue walk needs a free slot.
- C strings hold no NUL. Cost matrices are square, non-negative, and small enough not to overflow.

## Model

| member | source | states |
|---|---|---|
| LogSafety.CrashContents | OS/xv6-public/log.c:69-122 | for any run of calls, block writes and crashes, and a crash at its end: recovery gives exactly the home blocks that result from replaying the durable part of the history |
| LogSafety.CrashAtomicity | OS/xv6-public/log.c:125-200 | that durable part consists of whole calls: of every call either all log_writes or none survive, and no call is still open in it |
| LogSafety.RecoverCorrect | OS/xv6-public/log.c:115-122 | from any disk the protocol can leave behind, installing the logged blocks gives the home blocks of the state to be recovered |
| LogSafety.DurableGrows | OS/xv6-public/log.c:190-200 | no later action, crash included, takes anything back from the durable part |
| LogSafety.QuietIsDurable | OS/xv6-public/log.c:145-172 | when no call is outstanding and no commit is running, every write ever logged is durable and in place on disk |
| LogSafety.ReadsSeeLoggedData | OS/xv6-public/log.c:212-231 | inside a transaction the cache in front of the disk gives the data last logged for a block, by whichever call |
| LogSafety.LastWrite | OS/xv6-public/log.c:212-231 | what a history stands for: the data of the last write to the block |
| LogSafety.Invariant | OS/xv6-public/log.c:33-50 | the inductive invariant of the protocol holds in every reachable state, mid-commit and mid-recovery states included |
| LogSpace.NoPanic | OS/xv6-public/log.c:125-142 | with a log of at least LOGSIZE + 1 blocks and at least LOGSIZE + 1 buffers, calls that keep to MAXOPBLOCKS never reach a panic, neither those of log.c nor that of bget |
| LogSpace.SmallLogPanics | OS/xv6-public/log.c:212-231 | with LOGSIZE blocks or fewer, as mkfs.c lays the disk out, three such calls reach "too big a transaction" |
| LogSpace.CommitFindsBufferIff | OS/xv6-public/bio.c:78-93 | a commit finds the buffer it needs if and only if the blocks of the transaction leave one clean; otherwise bget panics before anything is written |
| LogSpace.FullCommitPanics | OS/xv6-public/param.h:10-12 | NBUF is LOGSIZE as well: with a larger log three such calls pin every buffer, and the commit ends in "bget: no buffers" |
| LogSpace.PanicIffTooSmall | OS/xv6-public/log.c:125-231 | exact condition: calls within their budget can reach a panic if and only if the log has at most LOGSIZE blocks or the cache at most LOGSIZE buffers |
| LogDisk.Log.BeginOp | OS/xv6-public/log.c:125-142 | a call enters exactly if no commit runs and ten more blocks fit into thirty; otherwise nothing changes; it is the step of the state machine |
| LogDisk.Log.LogWrite | OS/xv6-public/log.c:212-231 | the block is in the header afterwards, absorbed if it was there, and reads back as logged, every other block as before; it is the next write of the history; panics only as the state machine does, the bread of the caller included |
| LogDisk.Log.Record | OS/xv6-public/log.c:221-228 | log absorption: the header holds the block once, where it stood or at the end |
| LogDisk.Log.EndOp | OS/xv6-public/log.c:145-172 | runs exactly the machine steps of its writes; the last call out leaves everything durable and in place, or panics, exactly if its transaction pins every buffer, with the disk as it was |
| LogDisk.Log.Commit | OS/xv6-public/log.c:190-200 | write_log, header, install, header: 2n + 2 single-block writes, each a step of the machine at which a crash may come; panics exactly if n reaches the number of buffers, and then nothing is written |
| LogDisk.Log.WriteLog | OS/xv6-public/log.c:174-188 | n block writes, each a machine step: block i of the header, as cached, lies i + 1 places behind the header block, and no other block has changed; or the panic of the first bread |
| LogDisk.Log.NeedBuffer | OS/xv6-public/bio.c:80-92 | a bread of a block that is not cached panics exactly if every buffer is dirty |
| LogDisk.Log.CopyToLog | OS/xv6-public/log.c:179-186 | one turn: the cached block reaches its place in the log in one machine step |
| LogDisk.Log.InstallTrans | OS/xv6-public/log.c:69-82 | n block writes, each a machine step, both in commit and in recovery: the blocks of the header have the contents of their log blocks, and no other block has changed |
| LogDisk.Log.InstallBlock | OS/xv6-public/log.c:74-81 | one turn: the logged block reaches its home in one machine step |
| LogDisk.Log.WriteHead | OS/xv6-public/log.c:101-113 | one block write: the count and the block numbers, the commit point, or the end of the transaction when n is 0 |
| LogDisk.Log.FillHead | OS/xv6-public/log.c:107-110 | the loop builds the encoding of the in-memory header that ReadHead decodes |
| LogDisk.Log.ReadHead | OS/xv6-public/log.c:85-96 | the in-memory header becomes the count and the block numbers on the disk |
| LogDisk.Log.RecoverFromLog | OS/xv6-public/log.c:115-122 | from the first block read after a crash to the cleared header; the home blocks are the replay of the durable history |
| LogDisk.Log.Reboot | OS/xv6-public/log.c:48-60 | after a crash in any method memory starts anew over the disk as it was: the crash step of the machine |
| LogDisk.Log.AfterCrash | OS/xv6-public/log.c:48-60 | and likewise over the disk of any run of the machine, in the middle of a commit for instance |
| LogDisk.Log.Bwrite | OS/xv6-public/memide.c:38-60 | the only statement that changes the disk, one block at a time, is one step of the machine |
| BioList.Cut | OS/xv6-public/bio.c:130-131 | unlinking a buffer leaves a circular doubly linked list of the others in their order |
| BioList.Push | OS/xv6-public/bio.c:132-135 | linking a buffer in behind the head leaves a circular doubly linked list with it in front |
| BioCache.RecycleKeeps | OS/xv6-public/bio.c:80-89 | giving an idle buffer to a block without one keeps the cache coherent: one buffer a block, nothing dirty lost |
| BioCache.CleanIsOnDisk | OS/xv6-public/bio.c:96-106 | for the block of a clean buffer the disk has the latest data, so filling it reads the latest |
| BioCache.LogKeeps | OS/xv6-public/log.c:212-231 | new data under B_DIRTY: the buffer is the only place with the latest data, and coherence holds |
| BioCache.WriteKeeps | OS/xv6-public/memide.c:38-60 | a write through to the disk keeps coherence with the new data as the latest |
| BioCache.Bcache.constructor | OS/xv6-public/bio.c:38-56 | the list of all buffers is circular and doubly linked, and the cache is coherent |
| BioCache.Bcache.FindCached | OS/xv6-public/bio.c:69-76 | finds the buffer of the block if and only if there is one |
| BioCache.Bcache.FindIdle | OS/xv6-public/bio.c:81-83 | finds the idle buffer that was released longest ago; none only if there is none |
| BioCache.Bcache.Bget | OS/xv6-public/bio.c:61-93 | for every device: one more reference on the cached buffer, or the least recently released idle buffer emptied, or the panic if neither exists; no other buffer changes |
| BioCache.Bcache.Fill | OS/xv6-public/bio.c:96-106 | after bread the buffer is valid and holds what was last written or logged for its block |
| BioCache.Bcache.LogWrite | OS/xv6-public/log.c:212-231 | the buffer is pinned with the new data; that is what later reads see |
| BioCache.Bcache.Bwrite | OS/xv6-public/bio.c:109-116 | the disk and the buffer have the new data, and the buffer is clean |
| BioCache.Bcache.Release | OS/xv6-public/bio.c:120-126 | gives up the sleep-lock, and nothing else |
| BioCache.Bcache.Put | OS/xv6-public/bio.c:127-140 | one reference fewer; a buffer nobody refers to moves to the front and the order of the others stays |
| BioUsers.UsersInvariant | OS/xv6-public/bio.c:58-140 | over all interleavings of bget, acquiresleep and both halves of brelse, the reference count of a buffer is the number of its users and at most one holds its lock |
| BioUsers.PutAllowed | OS/xv6-public/bio.c:127-140 | so the second half of brelse always finds a positive count, and more than its own reference if somebody holds the lock |
| FsFiles.FileSystem.Balloc | OS/xv6-public/fs.c:55-78 | the first free block, marked and cleared; every file keeps its bytes; -1, the panic, only if all bits are set |
| FsFiles.FileSystem.Bfree | OS/xv6-public/fs.c:80-96 | clears the bit; panics exactly if it was clear |
| FsFiles.FileSystem.Bmap | OS/xv6-public/fs.c:354-382 | the block of the file, allocated if missing: word bn of addrs, or the little-endian word bn - 12 of the block that the thirteenth names; existing block numbers never change, no byte of any file does, and it fails only on a full disk |
| FsFiles.FileSystem.Readi | OS/xv6-public/fs.c:432-463 | for every offset and length: -1 exactly in the cases of the source, otherwise exactly the bytes of the file in the range, across block and indirect boundaries; the panic only on a full disk, since a hole is filled by reading |
| FsFiles.FileSystem.Writei | OS/xv6-public/fs.c:467-497 | refused if and only if it begins behind the end, wraps, or ends behind MAXFILE blocks, so an append never is; otherwise overlays exactly the given bytes at the offset, sets the size to the maximum, leaves every other byte of every file alone, and no block number changes; the panic only on a full disk |
| FsFiles.FileSystem.WriteChunk | OS/xv6-public/fs.c:484-490 | one turn of the loop overlays its piece and nothing else; fails only on a full disk |
| FsFiles.FileSystem.GrowTo | OS/xv6-public/fs.c:492-495 | the new size is in the inode and on disk |
| FsFiles.FileSystem.Itrunc | OS/xv6-public/fs.c:389-417 | frees exactly the blocks the inode held, no other file changes, and "freeing free block" cannot occur |
| FsFiles.FileSystem.FreeSlot | OS/xv6-public/fs.c:396-401 | one direct block is given back without a panic |
| FsFiles.FileSystem.FreeIndirect | OS/xv6-public/fs.c:403-413 | all blocks of the indirect block and the block itself are given back without a panic |
| FsFiles.FileSystem.constructor | OS/xv6-public/mkfs.c:90-115 | an image without files satisfies the invariant, and every byte of every file reads 0 |
| FsFiles.FreshOwned | OS/xv6-public/mkfs.c:90-115 | the bits below the data blocks are set and no block is held, which is the ownership invariant |
| FsFiles.ReadBack | OS/xv6-public/fs.c:432-497 | corollary of the overlay that Writei leaves: reading after writing returns the written bytes, and every disjoint range of every file reads as before |
| FsFiles.ByteIsLocated | OS/xv6-public/fs.c:354-382 | byte o of a file is byte o % 512 of the block that the inode names for o / 512, through the indirect block from 12 blocks on |
| FsFiles.FreedExactly | OS/xv6-public/fs.c:389-417 | the bits cleared are those of the blocks the inode held |
| FsBlocks.OwnAllocated | OS/xv6-public/fs.c:55-78 | ownership: a bit is set exactly for metadata and for blocks held at one place; allocation keeps this with the block in hand |
| FsBlocks.OwnStored | OS/xv6-public/fs.c:360-376 | storing a block in hand at an empty place keeps ownership |
| FsBlocks.OwnDetached | OS/xv6-public/fs.c:396-413 | taking blocks out of their places keeps ownership with them in hand |
| FsBlocks.OwnFreed | OS/xv6-public/fs.c:80-96 | clearing the bit of a block in hand keeps ownership; its bit was set |
| FsBlocks.OverlayOne | OS/xv6-public/fs.c:484-490 | writing into one block of a file is an overlay of that file alone, because no block is held twice |
| LinksUnlink.LinkInvariant | OS/xv6-public/sysfile.c:117-283 | between any two steps of any link, unlink, create and iput, names being put into directories that have one: each count is the number of names plus the link calls under way, and the directories form a tree |
| LinksUnlink.AtRest | OS/xv6-public/sysfile.c:117-283 | with no link call under way: nlink equals the number of entries other than "." in directories with a name, and nothing names a free inode |
| LinksUnlink.RootReached | OS/xv6-public/sysfile.c:259-273 | from every directory with a name the ".." entries lead to the root |
| LinksUnlink.NoUnlinkPanic | OS/xv6-public/sysfile.c:206-208 | the inode that unlink finds has at least one link, so its panic is out of reach |
| LinksUnlink.EmptyDirCounts | OS/xv6-public/sysfile.c:209-222 | an empty directory has exactly one link and its container at least two, so both decrements are right |
| LinksUnlink.FreshGood | OS/xv6-public/mkfs.c:117-128 | the root that mkfs makes satisfies the invariant |
| LinksSafety.CreateKeeps | OS/xv6-public/sysfile.c:240-283 | create keeps the invariant, for files and for directories with their dots |
| LinksSafety.LinkDoneKeeps | OS/xv6-public/sysfile.c:147-153 | the second part of link keeps the invariant |
| LinksSafety.FreeKeeps | OS/xv6-public/fs.c:319-334 | freeing an inode without links keeps the invariant |
| LinksUnlink.UnlinkKeeps | OS/xv6-public/sysfile.c:183-236 | unlink keeps the invariant, for files and for empty directories |
| LinksUnlink.UnlinkExact | OS/xv6-public/sysfile.c:183-236 | the unlink step of the machine removes a name if and only if there is such an entry, and takes out exactly that |
| LinksCalls.FileTree.DirLookup | OS/xv6-public/fs.c:510-534 | the first entry in use with the name |
| LinksCalls.FileTree.DirLink | OS/xv6-public/fs.c:537-564 | fails exactly if the name is there; otherwise fills the first free entry or appends |
| LinksCalls.FileTree.DirEmpty | OS/xv6-public/sysfile.c:167-180 | true exactly if every entry behind the dots is free |
| LinksCalls.FileTree.SysLink | OS/xv6-public/sysfile.c:117-164 | succeeds exactly in the cases of the source, for every directory; then the inode has one link more and its name fills the first free entry; failure restores the count; the invariant survives if and only if the directory still has a name or the call fails |
| LinksCalls.FileTree.SysUnlink | OS/xv6-public/sysfile.c:183-236 | 0 if and only if an entry in use has the name, which is neither dot, and its inode is no directory with an entry behind its dots; then that entry is empty, the name is gone, the inode has one link fewer and, for a directory, so has the container; nothing else changes |
| LinksCalls.FileTree.IAlloc | OS/xv6-public/fs.c:185-206 | the first unused inode; none only if all are used |
| LinksCalls.FileTree.Create | OS/xv6-public/sysfile.c:240-283 | in every directory: an existing file for T_FILE, otherwise 0; or the first unused inode with one link, its dots if it is a directory, and its name in the first free entry; panics exactly without a free inode or on a ".." whose inode is free again; the invariant survives if and only if nothing is made or the directory still has a name |
| LinksDead.CreateKeepsIff | OS/xv6-public/sysfile.c:240-283 | exact condition: create keeps counts and tree if and only if the directory has not been unlinked |
| LinksDead.LinkKeepsIff | OS/xv6-public/sysfile.c:117-164 | the same for link |
| LinksDead.FileLost | OS/xv6-public/sysfile.c:240-283 | a file made in an unlinked directory has a link and no name once that directory is freed, so nothing will ever free it |
| LinksDead.DeadReachable | OS/xv6-public/sysfile.c:183-236 | mkdir and rmdir from the fresh file system lead to such a directory |
| Umalloc.Allocator.Malloc | OS/xv6-public/umalloc.c:63-90 | null, with nothing changed for live blocks, only if sbrk has refused and every free block is too small; or a new block, disjoint from all live ones, of the computed size, which holds the request if the computation did not wrap; both loops end |
| Umalloc.Allocator.Free | OS/xv6-public/umalloc.c:24-44 | the block joins the free list, coalesced with both neighbours; live blocks keep address and size |
| Umalloc.Allocator.Search | OS/xv6-public/umalloc.c:30-32 | the loop ends at the place of the block in address order, across the single wrap |
| Umalloc.Allocator.Morecore | OS/xv6-public/umalloc.c:46-61 | on success at least 4096 units are new and a free block of at least the requested units exists; on failure nothing changes |
| Umalloc.Allocator.CarveWhole | OS/xv6-public/umalloc.c:76-77 | an exact fit leaves the list |
| Umalloc.Allocator.CarveTail | OS/xv6-public/umalloc.c:78-82 | the tail of a larger block is handed out, the rest stays where it was, and the list is the same |
| Umalloc.Allocator.Carve | OS/xv6-public/umalloc.c:75-86 | one block of exactly the requested units out of a free one |
| Umalloc.RequestFitsIff | OS/xv6-public/umalloc.c:69 | exact condition: the unsigned arithmetic of malloc is right if and only if the request is at most 2^31 - 16 bytes |
| Umalloc.SbrkGrowsIff | OS/xv6-public/umalloc.c:46-56 | exact condition: morecore asks sbrk for a positive number of bytes if and only if the rounded size fits an int, which Malloc requires |
| Umalloc.BigEnoughIff | OS/xv6-public/umalloc.c:69 | exact condition: among those requests the block of malloc is large enough if and only if the request is at most 2^32 - 8 bytes |
| Umalloc.HugeRequestWraps | OS/xv6-public/umalloc.c:69 | a request of 2^32 - 1 bytes gets one unit, the header alone |
| UmallocBlocks.OneOwner | OS/xv6-public/umalloc.c:24-90 | corollary of soundness: every unit obtained from sbrk lies in exactly one block, which is either live or free |
| UmallocBlocks.FreeListShape | OS/xv6-public/umalloc.c:30-43 | corollary of soundness: the free list is one cycle in address order and no two free blocks touch |
| UmallocBlocks.JoinUpper | OS/xv6-public/umalloc.c:33-35 | joining the block above keeps the heap sound |
| UmallocBlocks.JoinLower | OS/xv6-public/umalloc.c:38-40 | joining the block below keeps the heap sound and fully coalesced |
| UmallocBlocks.LinkPlain | OS/xv6-public/umalloc.c:36-42 | linking a block that touches neither neighbour keeps the heap sound |
| UmallocBlocks.TakeTail | OS/xv6-public/umalloc.c:78-82 | cutting off a tail keeps the heap sound |
| UmallocBlocks.TakeWhole | OS/xv6-public/umalloc.c:76-77 | taking out a free block keeps the heap sound |
| VmMemory.Kmem.Kalloc | OS/xv6-public/kalloc.c:82-95 | the head of the free list, which runs through the free frames, or 0 exactly if it is empty |
| VmMemory.Kmem.Kfree | OS/xv6-public/kalloc.c:59-77 | the frame, filled with 1s behind the link, becomes the head of the free list; no other frame changes |
| VmMemory.Kmem.FreeRange | OS/xv6-public/kalloc.c:45-52 | exactly the whole frames of the range become free |
| VmMemory.OthersKeep | OS/xv6-public/vm.c:44-89 | an address space whose frames are not written keeps its entries, its frames and the bytes of its pages |
| Vm.WalkPgdir | OS/xv6-public/vm.c:44-65 | finds the table, or adds a zeroed one from the free list under a directory entry that is present, writable and for the user; no other directory entry and no mapping changes, and no frame gets lost |
| Vm.MapPages | OS/xv6-public/vm.c:69-89 | maps exactly the pages of the range to consecutive frames with the given permissions, of user memory too, below directory entries open to the user; it stops early only when no frame is left for the next page table, and the frames taken are exactly the new tables |
| Vm.MapOne | OS/xv6-public/vm.c:80-82 | one turn: the entry of the page, and no other, names the frame |
| VmTables.TableAdded | OS/xv6-public/vm.c:50-64 | a zeroed table adds one frame to the address space and maps nothing |
| VmTables.PageDecides | OS/xv6-public/vm.c:57-61 | what the processor does with an access by user code: below a directory entry made by walkpgdir the flags of the page decide |
| VmTables.PageAdded | OS/xv6-public/vm.c:82 | installing an unused frame adds it to the frames of the address space and changes no other place |
| VmTables.PageRemoved | OS/xv6-public/vm.c:281 | clearing an entry takes its frame, and only it, out of the address space |
| VmUser.AllocUvm | OS/xv6-public/vm.c:227-256 | on success exactly the new pages appear, on frames that were free, and user code can read and write every new word through both levels and finds 0; on failure, only with fewer free frames than new pages and missing tables, the mapping is as before and every frame but those of new page tables is free again; old pages keep their bytes |
| VmUser.GiveBack | OS/xv6-public/vm.c:240-253 | both failure paths of allocuvm |
| VmUser.DeallocUvm | OS/xv6-public/vm.c:261-285 | clears exactly the present pages between the sizes and frees their frames; user code cannot get at them any more |
| VmUser.ClearedSkip | OS/xv6-public/vm.c:271-273 | jumping over a missing page table equals clearing its pages one by one |
| VmUser.DropPage | OS/xv6-public/vm.c:274-281 | one page: its frame is freed, its entry cleared, nothing else |
| VmCopy.FreeVm | OS/xv6-public/vm.c:289-304 | every frame of the address space, user pages, page tables and directory, is free again, each once |
| VmCopy.SetupKvm | OS/xv6-public/vm.c:127-144 | on success a new address space with exactly the kernel pages of kmap and no user page; 0 only when fewer frames were free than the directory and its tables need, and none is left |
| VmCopy.KernelRowsOk | OS/xv6-public/vm.c:117-124 | the four rows of kmap lie above KERNBASE and share no page, for page-aligned data anywhere between the text and the end of memory |
| VmCopy.KernelMap | OS/xv6-public/vm.c:117-144 | in numbers: physical memory up to PHYSTOP at KERNBASE, the text read-only, the devices at their own addresses, nothing else, and nothing for the user |
| VmCopy.CopyUvm | OS/xv6-public/vm.c:321-350 | on success the child has the same pages with equal bytes and flags on frames disjoint from the parent, all taken from the free list, and user code finds the same words there and may do the same to them; 0 only with fewer free frames than directory, tables and pages of the copy; the parent is unchanged in every case |
| SleepLock.MutualExclusion | OS/xv6-public/sleeplock.c:22-42 | over all interleavings of any number of processes at most one is between acquiresleep and releasesleep, and pid names it |
| SleepLock.NoLostWakeup | OS/xv6-public/proc.c:371-425 | nobody sleeps on a free lock unless the releaser still holds the inner spinlock and has the sleeper ahead in its scan |
| SleepLock.Progress | OS/xv6-public/sleeplock.c:22-42 | no deadlock: outside of the critical section some process on its way in or out can take a step |
| SleepLock.Acquires | OS/xv6-public/sleeplock.c:22-33 | acquiresleep on a free lock gets it, names the holder and keeps no spinlock |
| SleepLock.FallsAsleep | OS/xv6-public/sleeplock.c:22-33 | on a taken one it is asleep and keeps no spinlock |
| SleepLock.Releases | OS/xv6-public/sleeplock.c:35-42 | releasesleep frees the lock and leaves nobody asleep |
| SleepLock.Invariant | OS/xv6-public/proc.c:371-425 | the inductive invariant over all interleavings, kill included |
| PipeBuffer.CompareCounters | OS/xv6-public/pipe.c:85 | the comparisons of the wrapping counters mean full and empty as long as they are at most 512 apart |
| PipeBuffer.SlotOfCounter | OS/xv6-public/pipe.c:94 | a wrapped counter points at the same slot as the true position |
| PipeBuffer.Pipe.WriteOn | OS/xv6-public/pipe.c:84-98 | up to the next sleep or return: appends exactly the bytes that fit into 512, and sleeps, fails or finishes as the source does |
| PipeBuffer.Pipe.ReadOn | OS/xv6-public/pipe.c:106-120 | up to the next sleep or return: takes out as many bytes as asked for or there are, the first of the queue, or sleeps or fails on an empty one |
| PipeBuffer.Pipe.Close | OS/xv6-public/pipe.c:59-75 | closes one end and keeps the queue |
| PipeProtocol.FifoOrder | OS/xv6-public/pipe.c:78-121 | in every run, kills included, the bytes read are a prefix of the bytes appended, and at most 512 are under way |
| PipeProtocol.OneWriter | OS/xv6-public/pipe.c:78-98 | the bytes of a single writer are appended in the order in which it passed them, whatever the sizes |
| PipeProtocol.WriterExact | OS/xv6-public/pipe.c:84-98 | a stretch of a writer in the protocol, in numbers: bytes, sleep and wakeups |
| PipeProtocol.ReaderExact | OS/xv6-public/pipe.c:106-120 | a stretch of a reader; and a reader that asked and got nothing without being killed has seen the end: every byte was delivered |
| PipeProtocol.StepJustifiedIff | OS/xv6-public/pipe.c:84-98 | exact condition: a step leaves a sleeper without a reason if and only if a killed writer with more to write than fits returns while a reader sleeps |
| PipeProtocol.NoLostWakeup | OS/xv6-public/pipe.c:78-121 | in every run without such a step a sleeping reader has an empty pipe with an open writing end, a sleeping writer a full one with an open reading end |
| PipeProtocol.WithoutKills | OS/xv6-public/pipe.c:78-121 | so in every run without kills; and readers and writers never sleep at the same time |
| PipeProtocol.FromNewPipe | OS/xv6-public/pipe.c:22-57 | order, and without kills justified sleepers, in every run from a new pipe |
| PipeProtocol.KilledWriterForgetsReader | OS/xv6-public/pipe.c:86-89 | a concrete run in which a killed writer leaves a reader asleep on a full pipe |
| MlfqRings.Pushed | OS/HW2/HW2-temp-Mlfq/mlfq.c:57-65 | writing behind the last process appends it to the ring |
| MlfqRings.Popped | OS/HW2/HW2-temp-Mlfq/mlfq.c:95-107 | clearing the slot behind front removes the first process |
| MlfqRings.WalkEndsIff | OS/HW2/HW2-temp-Mlfq/mlfq.c:129-141 | exact condition: the walk of checkRcount meets a null pointer if and only if the ring is not full |
| MlfqRings.FullRingNoEnd | OS/HW2/HW2-temp-Mlfq/mlfq.c:129-141 | with sixty-four processes in one ring the walk finds one wherever it looks |
| MlfqRings.Mlfq.Enqueue | OS/HW2/HW2-temp-Mlfq/mlfq.c:57-69 | fails exactly on a full ring, otherwise appends |
| MlfqRings.Mlfq.NormalDequeue | OS/HW2/HW2-temp-Mlfq/mlfq.c:95-107 | takes the first process, null on an empty ring |
| MlfqRings.Mlfq.IdxPeek | OS/HW2/HW2-temp-Mlfq/mlfq.c:121-128 | the process at the index, null behind the last |
| MlfqKernel.Kernel.constructor | OS/HW2/HW2-temp-Mlfq/proc.c:309-318 | the initial fill: each used entry once, in the order of the table, on level 0, and the invariant holds |
| MlfqKernel.Kernel.CountReady | OS/HW2/HW2-temp-Mlfq/mlfq.c:129-141 | the number of processes that are RUNNABLE or RUNNING |
| MlfqKernel.ReadyCountNext | OS/HW2/HW2-temp-Mlfq/mlfq.c:129-141 | each process counts if it is RUNNABLE or RUNNING |
| MlfqKernel.Kernel.Dequeue | OS/HW2/HW2-temp-Mlfq/mlfq.c:72-94 | ends, takes out exactly the RUNNING process, and leaves a rotation of the rest; returns the old first process |
| MlfqKernel.DequeueEndsIff | OS/HW2/HW2-temp-Mlfq/mlfq.c:72-94 | exact condition: the recursion of dequeue ends if and only if no process of the queue can run or one is RUNNING, which Dequeue requires |
| MlfqKernel.Kernel.Boost | OS/HW2/HW2-temp-Mlfq/mlfq.c:190-214 | level 0 becomes Q0, Q1, Q2 in this order and the others are empty |
| MlfqKernel.Kernel.Fork | OS/HW2/HW2-temp-Mlfq/proc.c:176-183 | the child is at the end of level 0, the 64th live process included, with which the invariant of the queue walk ends |
| MlfqSafety.ForkKeepsIff | OS/HW2/HW2-temp-Mlfq/proc.c:176-183 | exact condition: fork keeps the invariant if and only if the child is not the 64th live process |
| MlfqKernel.Kernel.Exit | OS/HW2/HW2-temp-Mlfq/proc.c:234-243 | the exiting process leaves its queue and is a ZOMBIE; nobody else changes |
| MlfqKernel.Kernel.Wakeup | OS/HW2/HW2-temp-Mlfq/proc.c:485-496 | exactly the sleepers on the channel become RUNNABLE |
| MlfqKernel.Kernel.Tick | OS/HW2/HW2-temp-Mlfq/trap.c:58-72 | counts the tick and the time used, wakes the sleepers on the clock, and then: at a multiple of 100 everybody on level 0 in the order Q0, Q1, Q2; otherwise, for a process with pid above 2, one level down and last there if its time is a multiple of 5 on level 0 or 10 on level 1, and else last in its own queue |
| MlfqTicks.DemotedIff | OS/HW2/HW2-temp-Mlfq/trap.c:129-137 | exact condition: the current process goes one level down at a tick if and only if the tick is no multiple of 100, its pid is above 2, and its time is a multiple of 5 on level 0 or of 10 on level 1 |
| MlfqTicks.TickExact | OS/HW2/HW2-temp-Mlfq/trap.c:58-148 | what a tick of the state machine does to clock, levels, queues and CPU, in numbers |
| MlfqKernel.Kernel.Judge | OS/HW2/HW2-temp-Mlfq/trap.c:117-148 | the branch that boosts, demotes or rotates, by these numbers |
| MlfqKernel.Kernel.FinishTick | OS/HW2/HW2-temp-Mlfq/trap.c:140-145 | a process that was demoted goes on behind the yield and is rotated once more |
| MlfqSafety.FromBoot | OS/HW2/HW2-temp-Mlfq/proc.c:305-318 | in every state reachable from the start each live process is in exactly one ring slot, on the level in its qPosi, nothing else is in a ring, and only the current process is RUNNING |
| MlfqSafety.StepKeeps | OS/HW2/HW2-temp-Mlfq/trap.c:117-148 | every fork, exit, sleep, wakeup, dispatch, tick and boost keeps that invariant |
| MlfqSafety.LevelChange | OS/HW2/HW2-temp-Mlfq/trap.c:129-137 | a level changes by one step down or to the top only, and down only when the allotment is used up |
| MlfqTicks.SwitchesExact | OS/HW2/HW2-temp-Mlfq/proc.c:300-475 | sleep, yield and the choice of the scheduler change one process and no queue |
| MlfqSafety.QuantumRotates | OS/HW2/HW2-temp-Mlfq/trap.c:140-145 | otherwise the queue of the current process is rotated so that it ends up last, and no other queue changes |
| MlfqMachine.CurrentFound | OS/HW2/HW2-temp-Mlfq/mlfq.c:72-94 | the current process is in the queue of its qPosi and is the first RUNNING one there, so dequeue ends |
| ShellRoundTrip.RoundTrip | OS/xv6-public/sh.c:266-446 | every tree of clean words with at most nine arguments a command, printed with parentheses and parsed, gives the same tree and consumes all input |
| ShellTokens.ParsedProper | OS/xv6-public/sh.c:374-446 | whatever text is accepted, every argument and file name is a whole word of it and argv keeps room for its null pointer |
| ShellTokens.NormalForm | OS/xv6-public/sh.c:266-446 | any accepted text and the printing of its tree parse to the same tree |
| ShellSyntax.AcceptedIff | OS/xv6-public/sh.c:265-446 | a text is accepted if and only if its tokens are a line of the grammar, in which pipes bind tighter than "&" and ";", redirections may stand before, between and behind at most nine arguments, and ">" and ">>" both mean output; and the tree is the one of that line |
| ShellSyntax.TokenExact | OS/xv6-public/sh.c:262-308 | tokens without reference to the scanner: white space, then nothing, ">>", a sign or a longest word, then white space |
| ShellTokens.OwnTokens | OS/xv6-public/sh.c:448-493 | with all terminators written, each string of the tree read from the buffer is exactly its own token |
| ShellParser.Parser.NextToken | OS/xv6-public/sh.c:265-308 | for every position: the kind of the token, where it starts and ends, and the cursor behind the white space that follows it, as TokenExact says |
| ShellParser.Parser.LookFor | OS/xv6-public/sh.c:310-319 | moves the cursor over white space only, and tells whether a character of the given set stands there |
| ShellParser.Parser.Redirections | OS/xv6-public/sh.c:374-397 | parseredirs follows the grammar, the panic included |
| ShellParser.Parser.Simple | OS/xv6-public/sh.c:424-445 | the loop of parseexec follows the grammar, the panics included |
| ShellParser.Parser.Command | OS/xv6-public/sh.c:415-423 | parseexec follows the grammar |
| ShellParser.Parser.Block | OS/xv6-public/sh.c:399-412 | parseblock follows the grammar |
| ShellParser.Parser.Pipeline | OS/xv6-public/sh.c:361-372 | parsepipe follows the grammar |
| ShellParser.Parser.Line | OS/xv6-public/sh.c:344-359 | parseline follows the grammar |
| ShellParser.NulTerminate | OS/xv6-public/sh.c:449-493 | writes a NUL behind exactly the strings of the tree |
| ShellParser.ParseCommand | OS/xv6-public/sh.c:327-342 | parsecmd on a buffer, nulterminate included: the panic exactly if the tokens are no line of the grammar, otherwise the tree of that line with each string read from the buffer as its own token |
| GrepMatch.MatchHere | OS/xv6-public/grep.c:84-96 | true exactly if some prefix of the text is in the language of the pattern |
| GrepMatch.MatchStar | OS/xv6-public/grep.c:98-106 | true exactly if a run of characters, each of them c or any for ".", is followed by a match |
| GrepMatch.Match | OS/xv6-public/grep.c:72-82 | true exactly if the anchored pattern matches at the start, or the pattern at the start of some suffix |
| GrepMatch.HereStar | OS/xv6-public/grep.c:89-90 | "c*" first: the language is a run of c, or of anything for ".", followed by the rest |
| GrepMatch.HereEnd | OS/xv6-public/grep.c:91-92 | "$" in the last place means the end of the text |
| GrepMatch.HereOne | OS/xv6-public/grep.c:93-94 | any other character stands for itself, "." for every character |
| GrepLines.DoLines | OS/xv6-public/grep.c:21-29 | prints the matching ones of the complete lines in the buffer and keeps the rest |
| GrepLines.DoChunk | OS/xv6-public/grep.c:21-35 | and moves the rest to the front, or drops a buffer without a newline |
| GrepLines.LinesIff | OS/xv6-public/grep.c:21-29 | the complete lines and the rest are the only way to cut a text at its newlines |
| GrepLines.PrintedNext | OS/xv6-public/grep.c:23-26 | of each line in turn, itself and a newline if it matches |
| GrepLines.Grep | OS/xv6-public/grep.c:10-36 | for any input without NULs and any sizes of the reads that fit the buffer, prints the matching lines among those the loop gets to see; all matching lines if reads fill the buffer and lines fit in it |
| GrepLines.SeenExactIff | OS/xv6-public/grep.c:30-31 | exact condition: the loop sees exactly the complete, newline-terminated lines of the input if and only if no read without a newline comes before one with a newline |
| GrepLines.ShortReadCutsLine | OS/xv6-public/grep.c:18-36 | the reads "a" and "b" with a newline: grep sees the line "b", not "ab" |
| GrepLines.FilesExact | OS/xv6-public/grep.c:18-36 | with reads that fill the buffer and a newline in every stretch of 1023 characters, every newline-terminated line is seen; an unterminated last line is never matched |
| RegExpBuilder.FsaElements.StepRegExp | PL/hw1/regexp_matcher.cc:26-160 | emits exactly the edges of the specification, in order, and returns its last id |
| RegExpBuilder.FsaElements.StepAlternative | PL/hw1/regexp_matcher.cc:35-129 | one alternative |
| RegExpBuilder.FsaElements.StepElement | PL/hw1/regexp_matcher.cc:41-125 | one element, by its type |
| RegExpBuilder.AcceptStates | PL/hw1/regexp_matcher.cc:262-275 | the fixpoint loop yields exactly the states that reach state 1 by epsilon edges |
| RegExpBuilder.BuildNfa | PL/hw1/regexp_matcher.cc:248-277 | edges and accepting states together recognise exactly the language of the tree that is built, which is the language of the tree itself if no star sits on a star |
| RegExpLanguage.StepFresh | PL/hw1/regexp_matcher.cc:26-160 | every state other than s and f is fresh and at most the returned id |
| RegExpLanguage.StepExact | PL/hw1/regexp_matcher.cc:26-160 | without a star directly on a star the automaton accepts exactly the language of the tree |
| RegExpLanguage.StepAccepts | PL/hw1/regexp_matcher.cc:26-160 | for every tree the automaton accepts exactly the language of the tree with the body of a starred star dropped |
| RegExpLanguage.DoubleStarExactIff | PL/hw1/regexp_matcher.cc:103-125 | exact condition: e** is built right if and only if e has no word but the empty one |
| RegExpLanguage.DoubleStarFails | PL/hw1/regexp_matcher.cc:103-125 | the pattern a** does not accept "a" |
| RegExpStars.HarmlessBuiltRight | PL/hw1/regexp_matcher.cc:26-160 | every tree is built right in which each starred star has a body without a word other than the empty one |
| InfixMeaning.PostfixIff | CSE/Lab10/lab10.c:66-100 | exact condition, for every sum of the grammar: the program ends normally and prints the postfix form if and only if at most twenty operators and parentheses wait at any time |
| InfixMeaning.GrammarIff | CSE/Lab10/lab10.c:54-65 | the trees that prec allows are those of the grammar of sums, terms and factors, which mentions no numbers |
| InfixMeaning.TimesFirst | CSE/Lab10/lab10.c:66-100 | for all operands a, b, c: a+b*c gives abc*+, a*b+c gives ab*c+, a-b-c gives ab-c- |
| InfixMeaning.Unbalanced | CSE/Lab10/lab10.c:66-100 | an open parenthesis is printed at the end, and a closing one too many ends the program |
| InfixMeaning.SumTooDeep | CSE/Lab10/lab10.c:28-43 | a + b in twenty pairs of parentheses: the program ends normally and prints "ab" |
| InfixMeaning.TooDeep | CSE/Lab10/lab10.c:28-43 | more than twenty pairs of parentheses around an operand end the program in pop |
| InfixMeaning.MeaningPreserved | CSE/Lab10/lab10.c:66-100 | a stack machine on the output gives the value of the expression, for any meaning of operands and operators |
| InfixMeaning.EvalPostfix | CSE/Lab10/lab10.c:54-65 | postfix text evaluates to the value of its precedence tree |
| InfixStack.StackType.Push | CSE/Lab10/lab10.c:28-35 | appends, or drops on a full stack |
| InfixStack.StackType.Pop | CSE/Lab10/lab10.c:36-43 | takes the top, or ends the process on an empty stack |
| InfixStack.InfixToPostfix | CSE/Lab10/lab10.c:66-100 | for every text, what is printed, and whether pop on an empty stack ends the process, is what the specification says |
| Dijkstra.ShortestPath | CSE/Lab14/lab14.c:47-70 | for every non-negative matrix all vertices are settled with the minimum weight over all paths; the n-th choose returns -1 and found[-1] is written |
| Dijkstra.Choose | CSE/Lab14/lab14.c:35-46 | the first unfound vertex at minimum distance, -1 only if there is none below INT_MAX |
| Dijkstra.Initialise | CSE/Lab14/lab14.c:50-58 | the first loop settles the start alone |
| Dijkstra.Pass | CSE/Lab14/lab14.c:61-68 | one pass settles one more vertex |
| Dijkstra.PrintPath | CSE/Lab14/lab14.c:30-34 | ends, and prints the steps of a shortest path |
| Dijkstra.LowerBound | CSE/Lab14/lab14.c:63-67 | distances that no edge improves are lower bounds for every path |
| Dijkstra.ChainWeight | CSE/Lab14/lab14.c:67 | following path[] from a settled vertex reaches the start in finitely many steps with total weight distance |
| Dijkstra.AllShortest | CSE/Lab14/lab14.c:47-70 | once every vertex is found the distances are the shortest |

## Left out

- LogSafety.CrashAtomicity: the home blocks a crash leaves are stated by LogSafety.CrashContents; this lemma adds that they are those of whole calls.
- MlfqKernel.Kernel.Dequeue: requires that a process of the queue that can run comes with a RUNNING one, as at every call of the kernel, and a free slot for the walk; otherwise the source does not end, as DequeueEndsIff and WalkEndsIff show.
- Umalloc.Allocator.Malloc: requests whose rounded size does not fit sbrk's int argument are left out; the source then gives memory back under its own free list, as SbrkGrowsIff shows.
- LogSpace.PanicIffTooSmall: counts the buffers pinned by the log; references that processes hold on clean buffers are not part of the machine.
- Dijkstra.ShortestPath: the arrays are those at the moment found[-1] is written; what that store destroys is not modelled.
- VmCopy.CopyUvm: when it fails, only the parent is described; the source then leaks the frame in hand, and setupkvm the frames it took.
- VmUser.AllocUvm: page tables that were added stay with the address space when it fails, as in the source.
- LinksCalls.FileTree.SysLink: path lookup is a parameter, and the two directories are on one device.
- ShellParser.ParseCommand: trees are values; that an EXEC node is filled in after REDIR nodes point to it is not represented.
- PipeBuffer.Pipe.WriteOn: one stretch between sleeps; the whole call is a sequence of them in PipeProtocol.
- 16-bit link counts: more than 32767 links to one inode would wrap.
- Device inodes in readi and writei, major and minor numbers, inode reference counts, and the layout of inodes in disk blocks.
- The path walker namex, file descriptors, and filewrite, whose chunk is derived from LOGSIZE.
- The order of events inside acquire and release of spinlocks, and multi-CPU runs of the MLFQ variant.
- exit's re-parenting, scheduling choice and the context switch of the MLFQ variant.
- Executing the shell's command tree; only parsing is modelled.
- The parser of regular expressions in front of StepRegExp and the determinisation in PL/hw1/fsa.cc behind it, which follows only part of the epsilon closure.
- Contents of user memory besides whole frames: inituvm, loaduvm, clearpteu and copyout.
- The stride scheduler, the LR parser, the B-tree, binary tree and heap labs, whose intended invariants the code does not have, and the plain list, stack, hash, sorting and traversal labs, which would add easy members.
- Networking, console, UART, interrupt controllers and boot code.
