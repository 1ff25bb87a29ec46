# VirtualFS in Dafny

VirtualFS keeps a whole file tree inside a single host file. The model has
two parts, joined only by a file's head-block position.

**The block-chain stream** (`VirtualRandomAccessFile`) multiplexes many
byte streams over one container. The container is modelled as a byte
sequence (`Bytes.Disk`):

- A container header (8 bytes at offset 0) holds the block size.
- Fixed slots of block size + 16 bytes follow. Each slot starts with two
  big-endian longs: the end-marker (`-2` when the slot is free) and the next
  pointer (`-1` on the last block).
- A stream's head block also stores the stream size and the last block's
  position.
- The stream cursor state (`Stream.Cursor`) mirrors the Java fields one for
  one: block size, size, position, buffer, buffer cursor and buffer origin,
  the current, next, first and free-slot positions, and the EOF, first-block
  and dirty flags.

The modules are:

- `Bytes`: the long codec.
- `Blocks`: the container header and the first-fit free-slot scan.
- `Stream`: the operations themselves.
- `Reading`, `Seeking`, `Storing`, `Writing`, `Truncating`, `Growing` and
  `Unsigned`: the chain invariants and the round-trip theorems.

**The directory tree** (`VirtualFSNode`, `VirtualDirectory`, `VirtualFile`,
`VirtualFileIterator`) is an arena `Tree.FS`. It holds:

- a map from node id to a node record: name, parent, deleted flag, and
  either the two child lists of a directory or the content head and the
  timestamps of a file;
- the set of directories whose `isModifying` flag is raised;
- a multiset of lock holds, one reader/writer lock per node part (content,
  name, directory list, file list);
- the next free id;
- the container bytes.

Every operation returns `Out(fs, res)`: the new state together with an
`Ok` or `Err` result.

- `Tree` holds the node-level checks, `paste`/`remove(child)`, `getVirtualFS`
  and the try-locks.
- `LockDown` holds the all-or-nothing subtree locking.
- `Files` is `VirtualFile`.
- `Directories`, `Copying` and `Importing` are `VirtualDirectory`.
- `Iterating` is `VirtualFileIterator` and `find`.

Execution is single-threaded. A lock "held by this thread" is simply a hold
in the multiset. Clocks are a `now` parameter. `save()` persists nothing.

## Model

| member | source | states |
|---|---|---|
| Bytes.LongToBytesAt | src/main/java/VirtualRandomAccessFile.java:130-142 | byte i of the encoding is bits 8(7-i)..8(7-i)+7 of the value taken modulo 2^64, so the encoding is big-endian and two's complement |
| Bytes.LongRoundTrip | src/main/java/VirtualRandomAccessFile.java:130-142 | decoding the 8 encoded bytes of any signed 64-bit value gives that value back |
| Bytes.BytesRoundTrip | src/main/java/VirtualRandomAccessFile.java:130-142 | any 8 bytes decode to a signed 64-bit value whose encoding is those 8 bytes again |
| Bytes.Put | src/main/java/VirtualRandomAccessFile.java:363-371 | a positioned write fails exactly at a negative offset, and the container grows to cover the written range and no further |
| Bytes.ReadLong | src/main/java/VirtualRandomAccessFile.java:107-114 | reading a long succeeds exactly when all 8 bytes lie inside the container, and returns their decoding |
| Bytes.PutReadLong | src/main/java/VirtualRandomAccessFile.java:363-371 | a long written at an offset reads back as the same long |
| Blocks.ToInt32 | src/main/java/VirtualRandomAccessFile.java:100 | the Java `(int)` cast: the result is a 32-bit value congruent to the input modulo 2^32 |
| Blocks.ReadFileInfo | src/main/java/VirtualRandomAccessFile.java:83-105 | a container shorter than 8 bytes gets the default header (block size 1024); otherwise the block size is the int cast of the long at offset 0 and the container is unchanged |
| Blocks.FindFirstEmptyBlock | src/main/java/VirtualRandomAccessFile.java:152-183 | the scan never moves backwards; from a slot start it stops on a slot start that is free or at the end of the container; every slot it passes over is in use (first fit) |
| Storing.FindOk | src/main/java/VirtualRandomAccessFile.java:152-183 | on a slot-aligned container, the scan from any slot start succeeds |
| Storing.NewSpot | src/main/java/VirtualRandomAccessFile.java:152-183 | on a well-formed container the scan stops on a slot that is not in use, and the container stays slot-aligned once that slot is written |
| Stream.ReadFirstBlock | src/main/java/VirtualRandomAccessFile.java:195-219 | a stream without a head block is empty; otherwise the head must be readable and supplies the size and the next pointer, and the cursor is rewound to position 0 |
| Stream.Open | src/main/java/VirtualRandomAccessFile.java:51-68 | a new stream (head -1) opens iff the container header is usable, is empty and sits at EOF; any opened stream is at position 0 with no buffer and the free-slot cursor at the first slot |
| Stream.ReadBlockInfo | src/main/java/VirtualRandomAccessFile.java:107-114 | the block info is the next pointer at offset 8 of the block, and it is readable exactly when the 16-byte header lies in the container |
| Stream.LoadBlock | src/main/java/VirtualRandomAccessFile.java:221-271 | without a head, a fresh buffer with the size and next longs reserved; past the last block, a blank buffer; otherwise the payload of the next block of the chain, past the head's 32 meta bytes or a tail block's 16 |
| Stream.WriteBack | src/main/java/VirtualRandomAccessFile.java:308-417 | flushing a buffer records the stream size in the head and keeps an existing head; a new block goes to the slot the free-slot scan stops on, which becomes the head of a stream that had none; without a buffer it fails with NullPointer |
| Stream.WriteBlock | src/main/java/VirtualRandomAccessFile.java:308-417 | after a write-back and a reload the cursor has room again, the buffer is clean, and size and position are unchanged |
| Stream.ReadBlock | src/main/java/VirtualRandomAccessFile.java:221-271 | a clean stream just loads the next block; after a successful read the cursor has room, the buffer is clean and the position is unchanged |
| Stream.ReadNextByte | src/main/java/VirtualRandomAccessFile.java:273-285 | at or past the end it returns -1 and changes nothing; otherwise it returns the signed byte under the cursor and advances by one |
| Stream.WriteByte | src/main/java/VirtualRandomAccessFile.java:419-435 | the byte lands in the buffer and the position advances by one; the size covers the new position, and for a stream with a head block it becomes the maximum of the old size and the new position; with room in the buffer the container is untouched |
| Stream.WriteAll | src/main/java/VirtualRandomAccessFile.java:443-452 | writing n bytes advances the position by n; writing nothing changes nothing |
| Stream.Flush | src/main/java/VirtualRandomAccessFile.java:555-559 | after a flush the buffer is clean, with size and position unchanged; a clean stream is left as it is |
| Stream.Close | src/main/java/VirtualRandomAccessFile.java:455-462 | closing a clean stream reports its head unchanged; closing a dirty stream reports a real head block |
| Stream.Seek | src/main/java/VirtualRandomAccessFile.java:519-553 | a negative target fails; a successful seek puts the position at the target clamped to the size and leaves the buffer clean |
| Stream.FreeBlock | src/main/java/VirtualRandomAccessFile.java:464-492 | a block is tombstoned by writing -2 over its end-marker and nothing else; the free-slot cursor moves down to it; freeing the head empties the stream |
| Stream.DeleteBlock | src/main/java/VirtualRandomAccessFile.java:464-496 | keeping a whole block is a no-op; otherwise the container never shrinks and the block size is kept |
| Stream.SetLength | src/main/java/VirtualRandomAccessFile.java:498-516 | the current length is a no-op; a shorter length becomes the size; a negative length fails; a growth whose int cast comes out negative fails with NegativeSize |
| Reading.ReadStep | src/main/java/VirtualRandomAccessFile.java:273-285 | on a stored chain, one read at position p returns byte p of the content (as a signed byte) and keeps the reader in step with the chain |
| Reading.ReadRun | src/main/java/VirtualRandomAccessFile.java:293-306 | on a stored chain, reading n bytes returns exactly the content slice at the cursor |
| Reading.Load | src/main/java/VirtualRandomAccessFile.java:195-219 | opening a stream without a head block and reading all of it yields no bytes |
| Reading.LoadStored | src/main/java/VirtualRandomAccessFile.java:195-306 | opening a stored chain at its head and reading its size yields exactly its content |
| Storing.LoadNone | src/main/java/VirtualRandomAccessFile.java:195-205 | a stream with head -1 reads back as empty on any well-formed container |
| Seeking.SeekReads | src/main/java/VirtualRandomAccessFile.java:519-553 | seeking on a stored chain lands at the clamped target inside the right block, keeps the reader in step with the chain, and leaves the free-slot cursor alone |
| Seeking.SeekThenRead | src/main/java/VirtualRandomAccessFile.java:519-553 | open, seek to p and read n bytes returns the content slice starting at the clamped p |
| Growing.SeekEnd | src/main/java/VirtualRandomAccessFile.java:519-553 | seeking a clean stored stream to its own length succeeds without touching the container or the head |
| Storing.HeadGrow | src/main/java/VirtualRandomAccessFile.java:372-409 | a stream's first flushed buffer becomes a new head block at the scanned slot, holding the payload and the size, and only the new slot is written |
| Storing.TailGrow | src/main/java/VirtualRandomAccessFile.java:372-409 | a full buffer flushed past the last block appends one block to the chain, and the chain's content grows by exactly that buffer |
| Writing.TailChainOk | src/main/java/VirtualRandomAccessFile.java:372-406 | linking a new in-use block after the last one, with next -1 and the old last pointing at it, yields a well-formed longer chain |
| Writing.TailContent | src/main/java/VirtualRandomAccessFile.java:372-406 | the longer chain's content is the old content followed by the new block's payload |
| Storing.WriteAllWrites | src/main/java/VirtualRandomAccessFile.java:419-452 | writing more bytes to a stream being written keeps the writer invariant, with the written bytes concatenated |
| Storing.CloseWrites | src/main/java/VirtualRandomAccessFile.java:455-462 | closing a written stream reports head -1 when nothing was written; otherwise it reports the head of a fresh chain that stores exactly the written bytes |
| Storing.StoreLoad | src/main/java/VirtualRandomAccessFile.java:419-462 | writing bytes to a fresh stream, closing it and reading it back from the reported head gives the same bytes, and every block that was in use stays intact |
| Storing.StoreKeepsOthers | src/main/java/VirtualRandomAccessFile.java:372-409 | writing a new stream leaves any other stored stream in the same container reading back its own content |
| Storing.StoredKept | src/main/java/VirtualRandomAccessFile.java:363-409 | a stored chain survives any container change that keeps in-use blocks |
| Truncating.ChainFits | src/main/java/VirtualRandomAccessFile.java:464-492 | a well-formed chain has no more blocks than the container has slots, which bounds the tombstoning walk |
| Truncating.FreeRun | src/main/java/VirtualRandomAccessFile.java:464-492 | walking a chain from block k with enough steps tombstones every block from k on and ends on the last one |
| Truncating.TruncateStored | src/main/java/VirtualRandomAccessFile.java:498-516 | truncating a stored stream to n < size succeeds with size n; the blocks past the one holding byte n are freed, and the head is freed iff n = 0 |
| Truncating.TruncateClean | src/main/java/VirtualRandomAccessFile.java:498-516 | a truncated stream has a clean buffer |
| Truncating.TruncateReuses | src/main/java/VirtualRandomAccessFile.java:464-516 | after truncation the free-slot scan finds a slot no later than the lowest freed block, and finds exactly that block when it lies below the old cursor |
| Growing.GrowNew | src/main/java/VirtualRandomAccessFile.java:504-510 | growing a new stream to n < 2^31 succeeds and stores n zero bytes, keeping every other stream |
| Growing.GrowTooFar | src/main/java/VirtualRandomAccessFile.java:504-510 | growing a new stream to n in [2^31, 2^32) fails with NegativeSize, because the int cast of n is negative |
| Unsigned.SignedReadEnds | src/main/java/VirtualRandomAccessFile.java:273-285 | the as-written read of a 0xFF byte returns -1 while advancing the position, which is indistinguishable from end of stream |
| Unsigned.ReadByte | src/main/java/VirtualRandomAccessFile.java:273-288 | the corrected read returns -1 exactly when it does not advance, and a value in 0..255 otherwise |
| Unsigned.ReadByteMasks | src/main/java/VirtualRandomAccessFile.java:273-288 | the corrected read moves the stream exactly as the as-written one, and its value is the as-written value masked to 0..255 |
| Unsigned.ReadByteStored | src/main/java/VirtualRandomAccessFile.java:273-288 | on a stored chain the corrected read returns content byte p at p < size and -1 at the end |
| Tree.NewNode | src/main/java/VirtualFSNode.java:14-22 | a node is created iff its name is non-empty, else EmptyName; it carries exactly the given name and parent and is not deleted |
| Tree.RenameNode | src/main/java/VirtualFSNode.java:28-34 | the empty name fails EmptyName; otherwise only the name changes, to exactly the argument |
| Tree.RemoveCheck | src/main/java/VirtualFSNode.java:40-49 | a deleted node fails AlreadyDeleted first, then a parentless node fails Unremovable; every other node passes |
| Tree.FindVfs | src/main/java/VirtualFSNode.java:58-66 | the container is found iff the node or an ancestor carries it; with none on the parent chain the result is NullVirtualFS; the found container is cached on the node |
| Tree.FindVfsCached | src/main/java/VirtualFSNode.java:58-66 | once cached, the lookup answers at once and changes nothing |
| Tree.Detach | src/main/java/VirtualDirectory.java:213-224 | the child's first occurrence leaves the list of its kind, its parent link is cleared, and every other node is unchanged |
| Tree.Paste | src/main/java/VirtualDirectory.java:229-240 | the child is appended to the list of its kind and its parent becomes the directory, with every other node unchanged |
| Tree.PasteDetach | src/main/java/VirtualDirectory.java:213-240 | detaching a child just pasted restores the tree, up to the cleared parent link |
| Tree.RemoveFirst | src/main/java/VirtualDirectory.java:213-224 | removing a missing element keeps the list; removing a present one shortens it by one |
| Tree.RemoveFirstCut | src/main/java/VirtualDirectory.java:213-224 | removal cuts out exactly the first occurrence |
| Tree.UniqueAppend | src/main/java/VirtualDirectory.java:229-240 | appending a node whose name is free keeps the list's names unique |
| Tree.TryLock | src/main/java/VirtualFile.java:189-211 | a try-lock succeeds iff the hold can be taken (no foreign writer; for a write lock also no reader) and then adds exactly that hold; otherwise Locked |
| Tree.TryNameWrite | src/main/java/VirtualDirectory.java:526-534 | the name write lock is refused only while readers hold it and no writer does |
| Tree.TakeRelease | src/main/java/VirtualDirectory.java:415-431 | releasing a hold just taken restores the lock state |
| LockDown.TryNameRead | src/main/java/VirtualDirectory.java:539-547 | the name read lock is always granted |
| LockDown.DirHolds | src/main/java/VirtualDirectory.java:415-453 | a directory lock is the three holds (name, files, directories), all in the requested mode |
| LockDown.Acquire | src/main/java/VirtualDirectory.java:415-453 | taking a list of holds either takes all of them, or takes none and releases everything already held in the call, with Locked |
| LockDown.DirLockAcquire | src/main/java/VirtualDirectory.java:415-453 | a directory's own lock is the all-or-nothing acquisition of its three holds |
| LockDown.GrantWrite | src/main/java/VirtualDirectory.java:415-431 | write holds are granted iff each lock is free of others and no lock is asked for twice |
| LockDown.GrantRead | src/main/java/VirtualDirectory.java:436-453 | read holds are granted iff no lock asked for has a writer |
| LockDown.LockDownAcquire | src/main/java/VirtualDirectory.java:458-521 | lock-down is the all-or-nothing acquisition of the subtree's hold list: the directory's three holds, then each subdirectory's holds in list order, then its files' content holds |
| LockDown.LockDownGrant | src/main/java/VirtualDirectory.java:458-521 | a write lock-down succeeds iff every lock in the subtree is free of others; a read lock-down succeeds iff none has a writer; on failure every hold of the call is released |
| LockDown.LockDownBlocked | src/main/java/VirtualDirectory.java:458-521 | one busy lock anywhere in the subtree makes the lock-down fail and release everything it took |
| LockDown.OpenFileBlocks | src/main/java/VirtualDirectory.java:458-521 | an open file blocks a write lock-down of its directory, and an "rw" handle also blocks a read lock-down |
| LockDown.FileLockListed | src/main/java/VirtualDirectory.java:465-487 | every file of the directory contributes its content hold to the lock-down list |
| LockDown.DirsLockListed | src/main/java/VirtualDirectory.java:465-487 | every directory below the root of a lock-down contributes its directory-list hold |
| LockDown.DownLocksMode | src/main/java/VirtualDirectory.java:458-521 | all holds of a lock-down are in the requested mode |
| Directories.CheckUnique | src/main/java/VirtualDirectory.java:732-742 | the uniqueness check answers true iff no node of the list has the name |
| Directories.CheckUniqueBut | src/main/java/VirtualDirectory.java:744-782 | the check that exempts a node answers true iff no other node of the list has the name |
| Directories.MakeDir | src/main/java/VirtualDirectory.java:108-128 | mkdir succeeds iff the directory list lock is free, no sibling directory has the name and the name is non-empty; the new directory is appended with parent = this; a conflict gives NotUnique and leaves the lists alone |
| Directories.Touch | src/main/java/VirtualDirectory.java:136-156 | touch succeeds iff the file list lock is free, no sibling file has the name and the name is non-empty; the new file is appended with parent = this and no content |
| Directories.MakeDirUnique | src/main/java/VirtualDirectory.java:108-128 | mkdir keeps directory names unique, and a second mkdir with the same name fails NotUnique |
| Directories.TouchUnique | src/main/java/VirtualDirectory.java:136-156 | touch keeps file names unique, and a second touch with the same name fails NotUnique |
| Directories.RenameDir | src/main/java/VirtualDirectory.java:56-79 | rename succeeds iff the locks are granted, no sibling directory other than itself has the name and the name is non-empty; only the name changes |
| Directories.RenameDirUnique | src/main/java/VirtualDirectory.java:56-79 | renaming keeps the parent's directory names unique |
| Directories.RenameDirOwnName | src/main/java/VirtualDirectory.java:744-751 | renaming a directory to its own name succeeds |
| Directories.RemoveSubtree | src/main/java/VirtualDirectory.java:175-208 | the recursive remove (not from the parent) marks every node of the subtree deleted, empties both lists, touches nothing outside the subtree and keeps the parent link |
| Directories.RemoveDir | src/main/java/VirtualDirectory.java:164-208 | a deleted directory fails AlreadyDeleted, then a parentless one Unremovable, then a busy subtree Locked; a removal deletes the whole subtree, empties the lists and, from the parent, drops the directory from the parent's list and clears its parent link |
| Directories.SweptSubtree | src/main/java/VirtualDirectory.java:175-208 | every descendant, at any depth, of a removed directory is deleted |
| Directories.SubtreeLocks | src/main/java/VirtualDirectory.java:458-487 | the remove locks change only the lock state, by exactly the holds returned |
| Directories.TakeSubtreeLocks | src/main/java/VirtualDirectory.java:175-187 | the remove locks are granted iff the lock-down list plus the parent's list lock can be taken together, and on refusal nothing changes |
| Directories.OpenFileRefuses | src/main/java/VirtualDirectory.java:175-187 | an open file in a directory refuses the directory's removal |
| Directories.MoveDir | src/main/java/VirtualDirectory.java:246-270 | as written: a move succeeds iff the locks are granted and the name is free at the destination; the directory leaves the old parent's list and joins the destination's; the old parent's isModifying flag stays raised |
| Directories.MoveDirFixed | src/main/java/VirtualDirectory.java:246-270 | corrected: the same move, with the old parent's flag lowered |
| Directories.MoveDirRelinks | src/main/java/VirtualDirectory.java:246-270 | the moved directory is appended to the destination with parent = destination, drops out of the old parent's list, and no name changes |
| Directories.MoveDirKeepsUnique | src/main/java/VirtualDirectory.java:246-270 | a move keeps directory names unique in both the old parent and the destination |
| Directories.OpenFileBlocksMove | src/main/java/VirtualDirectory.java:246-256 | an open file in a directory refuses the directory's move |
| Copying.CloneDir | src/main/java/VirtualDirectory.java:275-288 | the clone is a fresh directory under the destination whose whole subtree copies the source's names and child structure; no existing node changes |
| Copying.CloneDirs | src/main/java/VirtualDirectory.java:280-282 | cloning the subdirectories appends one fresh copy per source directory, in order |
| Copying.CloneFiles | src/main/java/VirtualDirectory.java:283-285 | cloning the files appends one fresh copy per source file, in order |
| Copying.CloneOne | src/main/java/VirtualFile.java:145-166 | a file clone allocates exactly one new node and leaves the rest of the tree as it was |
| Copying.CopyLocks | src/main/java/VirtualDirectory.java:296-306 | copy's locks are a read lock-down, and copying into the parent or into the directory's own subtree is refused with Locked |
| Copying.CloneAndPaste | src/main/java/VirtualDirectory.java:307-312 | the copy is appended to the destination's list, the copy's locks are released and the destination's flag is lowered |
| Copying.CopyDir | src/main/java/VirtualDirectory.java:293-313 | a busy subtree, an "rw"-open file or a destination inside the source refuses the copy; a copy appends a fresh copy of the subtree to the destination and leaves every other node as it was, with no name check |
| Copying.OpenFileRefusesRead | src/main/java/VirtualDirectory.java:492-521 | an "rw"-open file refuses a read lock-down of its directory |
| Importing.FindNamed | src/main/java/VirtualDirectory.java:584-589 | the merge target is the first directory of the list with the name |
| Importing.ImportLocks | src/main/java/VirtualDirectory.java:576-577 | import takes a read lock-down of the source plus the target's list locks, all or nothing |
| Importing.ImportDirs | src/main/java/VirtualDirectory.java:579-591 | for every source directory the target ends up with a subdirectory of that name, and existing nodes only gain children, only in lists whose locks were free |
| Importing.ImportFiles | src/main/java/VirtualDirectory.java:593-600 | the source files are cloned in order behind the target's files; a name collision with the next file gives NotUnique after releasing the locks |
| Importing.ImportContent | src/main/java/VirtualDirectory.java:573-603 | import is refused when the locks are busy or the target lies inside the source; on success every source file has a copy appended to the target's files, the source file names were all fresh there, and every source directory's name is among the target's subdirectories |
| Importing.ImportMerge | src/main/java/VirtualDirectory.java:573-603 | the merge with locks already held appends a copy of every source file to the target and leaves a subdirectory named after every source directory |
| Importing.ImportRefused | src/main/java/VirtualDirectory.java:573-577 | a target inside the source's subtree can never be write-locked next to the source's read lock-down |
| Iterating.Find | src/main/java/VirtualFileIterator.java:21-39 | an iterator is created iff both lists can be read-locked, else ConcurrentModification; it starts at the first file |
| Iterating.FirstMatch | src/main/java/VirtualFileIterator.java:46-51 | the file cursor stops on the first matching file at or after it, skipping only non-matches |
| Iterating.HasNext | src/main/java/VirtualFileIterator.java:42-73 | hasNext fails ConcurrentModification while the directory is being modified; it stays on its directory |
| Iterating.Next | src/main/java/VirtualFileIterator.java:76-85 | next fails exactly as hasNext does, and stays on its directory |
| Iterating.HasNextRest | src/main/java/VirtualFileIterator.java:42-73 | hasNext answers yes iff some file remains to be yielded, and keeps the remaining sequence |
| Iterating.YieldRest | src/main/java/VirtualFileIterator.java:76-85 | next yields the first of the remaining files, which matches the predicate, and the rest follow |
| Iterating.HasNextAgain | src/main/java/VirtualFileIterator.java:42-73 | calling hasNext again gives the same answer; after a yes it changes nothing, so a match is never skipped |
| Iterating.NextOk | src/main/java/VirtualFileIterator.java:76-85 | next succeeds after hasNext said yes |
| Iterating.NextExhausted | src/main/java/VirtualFileIterator.java:76-85 | next fails NoSuchElement iff no file remains |
| Iterating.FoundFlat | src/main/java/VirtualFileIterator.java:53-55 | a non-recursive find yields exactly the directory's own files that match |
| Iterating.FoundListed | src/main/java/VirtualFileIterator.java:42-73 | a recursive find yields exactly the matching files of the subtree |
| Iterating.MatchingIn | src/main/java/VirtualFileIterator.java:46-51 | the matching files of a list are exactly its elements that satisfy the predicate |
| Iterating.ReadyOk | src/main/java/VirtualFileIterator.java:42-73 | in a subtree with no flag raised, hasNext succeeds and leaves a usable iterator |
| Iterating.NextReady | src/main/java/VirtualFileIterator.java:76-85 | in a subtree with no flag raised, next leaves a usable iterator |
| Iterating.FindStep | src/main/java/VirtualFileIterator.java:42-85 | hasNext then next yields the first remaining file and leaves the others to come |
| Iterating.Pull | src/main/java/VirtualFileIterator.java:42-85 | one hasNext/next round either ends exactly when no file remains or yields the first remaining file; it fails only when hasNext does |
| Iterating.FindAll | src/main/java/VirtualDirectory.java:320-331 | draining a find yields exactly the reference order: the matching files, then each subdirectory's matches left to right, depth-first; with no flag raised it cannot fail |
| Files.OpenFile | src/main/java/VirtualFile.java:213-255 | open accepts only "r" and "rw" (else IllegalArgument), takes a shared or exclusive content lock (else Locked), and opens the stream at the file's head; "rw" raises the parent's flag |
| Files.OpenLocked | src/main/java/VirtualFile.java:257-282 | the lock-free open checks the mode the same way and opens the stream at the head, taking no lock |
| Files.Settle | src/main/java/VirtualFile.java:239-242 | the close callback stores the reported head as the file's content, releases the handle's lock and lowers the parent's flag after "rw" |
| Files.OpenClose | src/main/java/VirtualFile.java:213-255 | opening and then closing without writing gives back exactly the holds and keeps the tree; for "rw" the parent's flag ends lowered, even if it was raised before, and for "r" every flag is as it was |
| Files.SettleOpened | src/main/java/VirtualFile.java:239-242 | closing a handle restores the lock state from before the open and records the new head |
| Files.ReadAllOf | src/main/java/VirtualFile.java:155-158 | reading a whole file leaves the locks and the tree as they were |
| Files.ReadAllLoads | src/main/java/VirtualFile.java:155-158 | reading a whole stored file returns exactly its content |
| Files.WriteNewOf | src/main/java/VirtualFile.java:160-162 | writing into a file leaves the locks as they were and only changes its content head |
| Files.WriteNewStores | src/main/java/VirtualFile.java:160-162 | writing bytes into an empty file stores exactly those bytes at a new head and lowers the parent's flag |
| Files.RemoveFile | src/main/java/VirtualFile.java:80-111 | a deleted file fails AlreadyDeleted, then a parentless one Unremovable, then a busy content or list lock Locked; a removal marks the file deleted |
| Files.RemoveErases | src/main/java/VirtualFile.java:86-111 | a removal truncates the content to nothing (head -1), drops the file from its parent's list, clears its parent link, gives back the locks and lowers the parent's flag |
| Files.RenameFile | src/main/java/VirtualFile.java:51-77 | as written: for every non-empty name it gives exactly what the corrected rename gives; for "" it never succeeds, and it fails with EmptyName exactly when the locks are granted, so the empty-name exit is the only place the two differ |
| Files.RenameAgrees | src/main/java/VirtualFile.java:51-77 | for a non-empty name, rename as written and the corrected rename give the same result and the same tree, locks and flags |
| Files.RenameFileFixed | src/main/java/VirtualFile.java:51-77 | corrected: rename succeeds iff the name is non-empty and the locks and the name check pass; success renames with the parent's flag lowered; every failure past the deleted check gives back the locks and lowers the parent's flag |
| Files.RenameEmptyLeaks | src/main/java/VirtualFile.java:51-77 | as written: renaming to "" fails EmptyName but keeps the content write lock and the list lock and leaves the flag raised, so the file cannot even be opened afterwards |
| Files.RenameEmptyExample | src/main/java/VirtualFile.java:51-77 | a concrete file in a concrete directory to which the leak happens |
| Files.RenameKeepsUnique | src/main/java/VirtualFile.java:51-77 | a corrected rename keeps the parent's file names unique |
| Files.MoveFile | src/main/java/VirtualFile.java:114-143 | as written: a move succeeds iff the locks are granted and, for an attached file only, the name is free at the destination; the locks are restored |
| Files.MoveLeavesFlag | src/main/java/VirtualFile.java:114-143 | as written, a successful move between two directories leaves the old parent's flag raised |
| Files.MoveRootDuplicates | src/main/java/VirtualFile.java:127-136 | as written, a parentless file moved next to a same-named file creates a duplicate name |
| Files.MoveRootExample | src/main/java/VirtualFile.java:127-136 | a concrete parentless file for which the duplicate arises |
| Files.MoveFileFixed | src/main/java/VirtualFile.java:114-143 | corrected: the name is checked for every file, and both the old parent's and the destination's flags end lowered |
| Files.MoveFixedRelinks | src/main/java/VirtualFile.java:137-138 | the moved file leaves the old parent's list and is appended to the destination's with parent = destination; names are unchanged |
| Files.MoveKeepsUnique | src/main/java/VirtualFile.java:114-143 | a corrected move keeps file names unique in both directories |
| Files.CloneFile | src/main/java/VirtualFile.java:145-166 | a deleted file fails AlreadyDeleted; an empty file's clone is just a new node with the same name under the destination; a clone allocates exactly one node |
| Files.CloneCopies | src/main/java/VirtualFile.java:145-166 | the clone of a stored file has its own chain of blocks, apart from the source's, holding the same bytes; the source keeps its content |
| Files.CopyFile | src/main/java/VirtualFile.java:168-187 | copy needs a read lock on the source and the destination's list lock (else Locked); it appends the clone to the destination's files without a name check and lowers the flag |
| Files.CopyCopies | src/main/java/VirtualFile.java:168-187 | a copy of a stored file holds the same bytes in separate blocks, the source keeps its content and its place in its own parent's list, and only the destination's list changes |

## Left out

- `VirtualFS.java`: Java serialization, `finalize` and the delegating methods are not modelled. `save()` (VirtualDirectory.java:709-727) persists and has no effect in the model.
- `importContent(File)`, `importFile` and `exportContent` (VirtualDirectory.java:608-704) are host-file I/O and are not modelled.
- The physical `FileChannel` locks and their `OverlappingFileLockException` retry loops are not modelled: container writes are unconditional.
- Threads are not modelled. A try-lock that Java retries because another thread holds the lock is a plain refusal here.
- `VirtualFSNode.move` is an empty method that both subclasses override; no member models it.
- The bulk `read(byte[], off, len)` and `write(byte[], off, len)` loop to `len` rather than `off + len`. Only whole-array calls (offset 0) are modelled.
- The inherited `RandomAccessFile` helpers (`readLine`, `readLong`, `writeLong`) are not modelled.
- Timestamps: `new Date()` is a `now` parameter, and `modifiedAt` is set only where the tree operations set it.
- Blocks.ReadFileInfo: refuses a header block size of 16 or less with IOError. The source accepts any `(int)` value at VirtualRandomAccessFile.java:100 and fails only later, for instance with a negative array size for the head buffer.
- Blocks.ReadFileInfo: rewrites the header of a short container even for a stream opened "r"; the source's lock on a read-only channel would fail there instead.
- Blocks.FindFirstEmptyBlock: a slot that is cut short by the end of the container gives IOError; the source throws an `OverlappingFileLockException`, which `writeBlock`'s retry loop catches.
- Stream.WriteByte: does not call the `onModify` listener (VirtualRandomAccessFile.java:420). So `modifiedAt` is not refreshed and `save()` is not called on each write (VirtualFile.java:239-242, 269). Files.WriteNewOf and Files.CloneFile inherit this.
- Stream.Seek: on a negative target the flush has already written the container, but the model's error result drops that state.
- Files.WriteNewOf: likewise keeps the container from before the write when a stream step fails midway.
- Stream.DeleteBlock: running out of its step bound (the chain length) gives IOError. A well-formed chain never does; Truncating.ChainFits gives the bound.
- LockDown.LockDown: the subtree walk takes a depth bound (fuel); exhausting it gives IOError, where the source would keep recursing.
- Copying.CloneDir: the recursive clone takes the same depth bound, and exhausting it gives IOError.
- Tree.FindVfs: the parent walk takes a step bound; exhausting it before a container or a root is reached gives IOError.
- Iterating.HasNext: each nested directory iterator uses one unit of a depth bound, and exhausting it gives IOError.
- Iterating.Find: takes the name predicate as a function of the name. `find(String)` is `NameTest` (name contains the substring); `find(Pattern)` is any such predicate, without regular-expression matching.
- Iterating.Find: does not call `save()` from `getDirectories` (VirtualDirectory.java:88).
- Iterating.Find: the iterator reads the directory's lists as they are at each call. Java keeps references to the list objects, which `remove` replaces with new lists (VirtualDirectory.java:197-198). So an iterator built before a removal is not modelled.
- Iterating.HasNext: Java throws ConcurrentModification after its cursors may already have moved. The model returns only the error and not the moved cursors.
- Iterating.HasNextAgain: states that a second hasNext gives the same answer, and after a yes the same state. After a no, the state is not the same: the source's `directoryIdx++` (VirtualFileIterator.java:61) moves past an exhausted child iterator on every call.
- Stream.SetLength: growth is proved only for a stream with no blocks yet (Growing.GrowNew): n zero bytes, for n < 2^31. Growing a stream that already holds bytes is covered only by the general ensures of Stream.SetLength, not by a content theorem.
- Stream.SetLength: a growth of 2^32 bytes or more has a non-negative int cast (exactly 2^32 casts to 0), so the source writes fewer bytes than asked; the model follows the cast and proves nothing about the resulting length.
- Importing.ImportFiles: a file name collision is the only error stated; other failures midway (a clone that runs out of room) are not.
- Importing.ImportContent: a failure after the locks (a nested refusal, a clone that fails) leaves what was already pasted, and the outer holds, in place, as the source does. Only a file clash releases the holds. No contract states the tree after such a failure.
- Importing.ImportDirs: states a counterpart of each source directory by name only. It does not state that a directory with a new name is a structural copy of the source directory once the loop ends, nor what the recursive merge into a same-named directory leaves there: that needs a frame showing a nested import touches only its own target's subtree and fresh nodes, which is not proved.
- Importing.ImportMerge: the directory half of its success case is the same name-only statement as Importing.ImportDirs, for the same reason.
- Importing.ImportContent: the directory half of its success case is the same name-only statement as Importing.ImportDirs, for the same reason; the file half is stated in full.
- Importing.FindNamed: requires that some directory of the list has the name; the source's loop would simply find nothing, but it is only reached after the uniqueness check has failed.
- Files.CloneCopies: requires the content lock of the next free id to be takeable. The model's holds may mention ids that are not yet allocated, while in the source a new file starts with fresh locks.
- Files.CopyCopies: has the same requirement on the next free id.

## Findings

| source | as written | input that shows it | evidently intended | confidence | as-written member | corrected member |
|---|---|---|---|---|---|---|
| src/main/java/VirtualFile.java:51-77 | `rename` takes the content write lock and the parent's file-list lock and raises the parent's flag. `super.rename` then throws EmptyNodeName for "", without releasing either lock or lowering the flag | `rename("")` on file "a" in directory "d", with no lock held | the empty name is refused, every lock is given back and the parent's flag is lowered | high (not executed) | Files.RenameEmptyLeaks | Files.RenameFileFixed |
| src/main/java/VirtualFile.java:114-143 | after `rootDirectory.remove(this)` and `paste`, the field `rootDirectory` names the destination, so the closing `rootDirectory.isModifying.set(false)` lowers the destination's flag twice and never the old parent's. Also, a file with no parent skips the name check | moving file "a" from directory 0 to directory 2; or moving a parentless "a" into a directory that holds "a" | the old parent's flag is lowered, and the destination's names stay unique | high (not executed) | Files.MoveLeavesFlag | Files.MoveFileFixed |
| src/main/java/VirtualDirectory.java:246-270 | the same field reassignment: the closing `rootDirectory.isModifying.set(false)` lowers the destination's flag, and the old parent's flag stays raised. Its iterators then fail with ConcurrentModification | moving a directory between two different parents | the old parent's flag is lowered | high (not executed) | Directories.MoveDir | Directories.MoveDirFixed |
| src/main/java/VirtualRandomAccessFile.java:273-285 | `readNextByte` returns `buffer[bufferPosition++]`, a signed byte, so a stored 0xFF reads as -1, the end-of-stream value, while the position advances | a one-byte stream holding 0xFF | `read()` returns the byte as 0..255, as `RandomAccessFile.read` promises, and -1 only at the end | high (not executed) | Unsigned.SignedReadEnds | Unsigned.ReadByte |
