# A verified model of a small distributed file system

The system keeps files on one disk behind an extent server, lets several clients use them through a
caching lock service, and connects everything by a hand-written RPC layer. This project models its
four working parts in Dafny and proves what they are for.

* **Caching locks** (`LockServer`, `LockClient`, `LockSystem`, `LockInvariant`, `LockTheorems`,
  `LockHistory`). One lock server, any number of clients and threads. `LockServerCache` and `LockClientCache` have one
  method for each stretch of code that runs under the mutex, tied to a function from lock record to
  lock record; `LockSystem` interleaves those stretches. RPCs are synchronous, so a thread and the
  handlers working for it are at one place at a time, and messages in flight are threads at the
  places named after the messages. They arrive in any order. `LockInvariant` is the inductive
  invariant, `LockTheorems` what follows: mutual exclusion, no failing check, no lost wake-up, first
  come first served on each client, a bound on the steps left after the last call, and no deadlock;
  `LockHistory` adds up grants, revokes, releases and retries over whole runs, and shows that every call
  can be granted.
* **At-most-once RPC** (`XidWindow`, `ReplyWindow`, `RpcSystem`, `RpcInvariant`, `RpcCalm`,
  `RpcForgotten`, `RpcReplies`, `RpcCalls`). The client's compressed window of finished calls, the server's window of remembered calls, and between
  them a network that loses, delays, duplicates and reorders. `RpcCalm` says when a waiting call is
  never forgotten, and shows a run with one timeout in which it is; `RpcForgotten` says exactly which
  requests are answered so. `RpcReplies` says what the server does with every request, from its executions
  alone, and `RpcCalls` what every call returns, from the steps of the run. The comment at
  `rpc/rpc.cc:650` says that entries up to and including `xid_rep` are deleted; the code deletes the smaller ones only,
  and the proofs need the entry that stays.
* **Blocks, inodes and files** (`Bits`, `Words`, `Disk`, `Allocation`, `Bitmap`, `Inodes`, `Files`,
  `FileSpace`, `Images`, `FileRuns`, `InodeLayer`, `Extents`, `FullDisk`). `RawDisk`, `BlockManager` and
  `InodeManager` are the source's classes with its loops, down to the bytes of the bitmap and of the
  inodes. `Files` holds the theory on a disk taken apart into marks, inodes and blocks; `Images` takes
  disks apart; `FileRuns` is about whole runs. The disk is sound when the marked blocks are exactly the
  1034 reserved ones and, each for one owner, the blocks of the files. Formatting reserves blocks
  0..1033, while the block of inode 1023 is 1034, so facts about files are about inodes 1..1022;
  `FreshExactlyWhenLeft` says what happens beyond, `WriteSoundExactlyWhenRoom` what happens on a full
  disk, and `FullDisk` gives runs that get there.
* **Directories** (`Directory`, `Unlink`, `Tree`, `FileTree`, `TreeRuns`, `Client`). The text of a
  directory, the loop that parses it, and deletion by searching the text. `YfsClient` is built on the
  `ExtentServer`, which is built on the `InodeManager`, so its guarantees reach down to the disk, and each
  of its operations is a step of the runs in `TreeRuns`. Deletion is right exactly when the entry is not
  hidden (`UnlinkExactlyWhenNotHidden`); a name that is not all digits never is. A run goes through trees
  of directories only, exactly when it deletes no hidden entry (`RunsKeepTreeExactly`), and orphans no
  inode exactly when it makes files in directories only and unlinks no directory that lists something
  (`RunsOrphanExactly`).
* **Marshalling** (`Wire`, `Spelling`, `Marshalling`). The byte format, a grammar of it for which reading is
  the exact parser, and the `marshall` and `unmarshall` classes with their growing buffer and header space.

Names like `old(Held())` in contracts are abstract states: `Held()` is the map from inode number to
type and content that the log of operations so far amounts to.

## Model

| member | source | states |
|---|---|---|
| LockServer.LockServerCache.Acquire | lock_server_cache.cc:17-59 | the locked part of acquire: which check fails, the answer OK or RETRY, whether a revoke is due, the new record, and that no other lock changes |
| LockServer.LockServerCache.Release | lock_server_cache.cc:65-81 | the locked part of release: NOENT for an unknown lock, which check fails, and the first waiter in string order chosen to be retried |
| LockServer.AcquireMeans | lock_server_cache.cc:22-56 | for any record: exactly when a VERIFY of acquire fails, when the lock is granted and when a revoke is due, and who waits afterwards |
| LockServer.ReleaseMeans | lock_server_cache.cc:73-81 | for any record: exactly when release passes the lock on, and to whom |
| StringOrder.LeqIsLexicographic | lock_server_cache.cc:78 | the order is that of strings: a prefix, or the smaller character at the first difference |
| StringOrder.LeastUnique | lock_server_cache.cc:78 | the first element of the waiter set is its one least member in string order |
| LockClient.LockClientCache.Acquire | lock_client_cache.cc:62-90 | acquire up to its first RPC, wait or return is the region EnterAcquire of LockSystem's Start, on this lock's record only |
| LockClient.LockClientCache.WakeFirst | lock_client_cache.cc:85-86 | the region AfterFirstWait of LockSystem's Advance, on this lock's record only |
| LockClient.LockClientCache.WakeQueued | lock_client_cache.cc:90-101 | the region AfterQueueWait of LockSystem's Advance, on this lock's record only |
| LockClient.LockClientCache.Reply | lock_client_cache.cc:42-59 | the region AfterReply of LockSystem's Advance, on this lock's record only |
| LockClient.LockClientCache.WakeRetry | lock_client_cache.cc:54-58 | the region AfterRetryWait of LockSystem's Advance, on this lock's record only |
| LockClient.LockClientCache.Release | lock_client_cache.cc:106-137 | NOENT for an unknown lock; otherwise the region EnterRelease of LockSystem's Advance, on this lock's record only |
| LockClient.LockClientCache.ReleaseReturned | lock_client_cache.cc:122-137 | the region AfterRelease of LockSystem's Advance, on this lock's record only |
| LockClient.LockClientCache.DequeueWaiter | lock_client_cache.cc:127-136 | the region Dequeue of LockSystem's Advance, on this lock's record only |
| LockClient.LockClientCache.Revoke | lock_client_cache.cc:141-157 | the region HandleRevoke of LockSystem's Advance, on this lock's record only |
| LockClient.LockClientCache.RevokeReleaseReturned | lock_client_cache.cc:152-157 | the region AfterRevokeRelease of LockSystem's Advance, on this lock's record only |
| LockClient.LockClientCache.Retry | lock_client_cache.cc:161-168 | the region HandleRetry of LockSystem's Advance, on this lock's record only |
| LockClient.EnterMeans | lock_client_cache.cc:62-90 | for any record: exactly when acquire returns at once, calls the server or waits, and in which state it leaves the lock |
| LockClient.QueueWaitMeans | lock_client_cache.cc:90-101 | for any record: a woken thread returns if and only if its client has the lock, which is then locked |
| LockClient.ReplyMeans | lock_client_cache.cc:42-59 | for any record: what OK and RETRY lead to, and that an early retry is used up |
| LockClient.ReleaseMeans | lock_client_cache.cc:106-137 | for any record: the lock goes back to the server if and only if it was asked for, otherwise to the next thread, or it stays cached |
| LockClient.HandlersMean | lock_client_cache.cc:141-168 | for any record: what the revoke and retry handlers do |
| LockInvariant.StartPreserves | lock_client_cache.cc:62-90 | a new call of acquire keeps the protocol's invariant |
| LockInvariant.AdvancePreserves | lock_client_cache.cc:38-169 | every step of every thread, handler and message keeps the protocol's invariant |
| LockInvariant.RunsAreSafe | lock_server_cache.cc:17-84 | every state of every run satisfies the invariant |
| LockTheorems.MutualExclusion | lock_client_cache.cc:38-159 | in every state at most one thread anywhere has returned from acquire and not called release, and its client has the lock |
| LockTheorems.NoFault | lock_server_cache.cc:27-41 | in every run no VERIFY fails, no queue is empty when its front is taken, and no thread leaves with the mutex held |
| LockTheorems.FaultsExactly | lock_client_cache.cc:38-169 | exactly which steps count as faults: a state a thread cannot go on from, a failing VERIFY, a message to nobody, the front of an empty queue |
| LockTheorems.NextStepIsSound | lock_client_cache.cc:38-169 | in every run, whatever thread moves next finds its client in a state it can go on from, the server's checks hold, and no empty queue is looked at |
| LockTheorems.RequestsFindTheirLock | lock_server_cache.cc:75-76 | a holder never asks for its lock again, and release arrives in REVOKING from the holder, with somebody waiting |
| LockTheorems.ReadsAfterUnlockAreStable | lock_server_cache.cc:59-61 | holder and retryer, read after the mutex is dropped, are those decided under it, and at most one revoke and one retry are due at a time |
| LockTheorems.ActiveThreadIsFront | lock_client_cache.cc:73-102 | a thread inside acquire or release is in its client's queue, and is its front unless it sleeps behind another |
| LockTheorems.FreeHasNoQueue | lock_client_cache.cc:73-83 | a cached free lock has no queue and belongs to its client at the server |
| LockTheorems.SleeperWillBeRetried | lock_client_cache.cc:51-57 | a thread asleep in acquire_server is in the server's waiter set, or chosen with its retry under way |
| LockTheorems.RevokeIsUnderWay | lock_server_cache.cc:31-57 | in REVOKING a revoke is under way, noted at the holder, or the release has started |
| LockTheorems.FirstComeFirstServed | lock_client_cache.cc:127-134 | on every client threads leave the queue in the order in which they joined it, over whole runs |
| LockTheorems.Terminates | lock_client_cache.cc:106-169 | after the last call of acquire a run has at most 21 steps per thread left |
| LockTheorems.Progress | lock_server_cache.cc:77-82 | while a thread is in acquire or release some thread can take a step |
| LockTheorems.QuietMeansDone | lock_client_cache.cc:136-169 | when nothing can move, all queues are empty, no client is between states, and the server is FREE or LOCKED |
| LockHistory.GrantsInOrder | lock_client_cache.cc:62-137 | over whole runs the threads of a client return from acquire in the order of their calls: the grants are the departures and the thread inside, a prefix of the calls |
| LockHistory.CallIsGranted | lock_client_cache.cc:62-137 | from every state of every run any thread can call acquire, and the run can go on until all calls so far, and then this one, have been granted and released |
| LockHistory.MessagesBalance | lock_server_cache.cc:17-84 | counted over every run: grants are releases and the present one, revokes are releases and the one being carried out, RETRY answers are retries and the waiters, and each revoke and retry is delivered once except the one under way |
| LockHistory.RunIsLabelled | lock_client_cache.cc:38-169 | every run can be counted so |
| XidWindow.Front | rpc/rpc.cc:386-408 | the largest n such that 1..n have been reported |
| XidWindow.FrontUnique | rpc/rpc.cc:386-408 | no other number has that property |
| XidWindow.FrontGrows | rpc/rpc.cc:386-408 | more reports never move the front back |
| XidWindow.Window.UpdateXidRep | rpc/rpc.cc:386-408 | for any order of reports with repeats, the front is right and the entries after it are exactly the reported numbers beyond it |
| XidWindow.Window.Insert | rpc/rpc.cc:391-399 | the new number goes before the first larger one |
| XidWindow.Window.Compress | rpc/rpc.cc:401-407 | the loop that pops while it iterates never removes the node it stands on, and stops at the front |
| ReplyWindow.ReplyWindows.CheckDuplicateAndUpdate | rpc/rpc.cc:659-707 | the verdict NEW, INPROGRESS, DONE or FORGOTTEN, and a window that gains the new call and loses what is strictly below xid_rep |
| ReplyWindow.VerdictMeans | rpc/rpc.cc:670-684 | DONE with a reply if and only if the window has that reply for the call, INPROGRESS if and only if it has the call without one, FORGOTTEN if and only if it starts beyond the call |
| ReplyWindow.ReplyWindows.AddReply | rpc/rpc.cc:714-728 | the saved reply lands in the entry of its call and nowhere else |
| ReplyWindow.NewMeansUnknown | rpc/rpc.cc:665-690 | a call is NEW exactly when the window neither lists it nor has moved past it |
| ReplyWindow.RememberKnows | rpc/rpc.cc:683-704 | no update loses knowledge of a call, thanks to the entry that survives at xid_rep |
| RpcInvariant.RunInv | rpc/rpc.cc:188-408 | every state of every run satisfies the invariant of windows, calls, messages and executions |
| RpcInvariant.AtMostOnce | rpc/rpc.cc:578-611 | for every client and call number the handler runs at most once, whatever the network does |
| RpcInvariant.ReturnedMeansExecutedOnce | rpc/rpc.cc:585-633 | a call that returned a non-negative status was executed exactly once, on its own arguments, and returned what that execution produced |
| RpcReplies.DeliveryExactly | rpc/rpc.cc:578-643 | in every run a request whose call was executed, and is not below an xid_rep seen, is answered with the outcome if there is one and with nothing otherwise; one passed by gets -4; any other runs the handler; nothing else happens |
| RpcReplies.RunSendsExactly | rpc/rpc.cc:599-642 | in every run each execution that ended has its reply in the network, and every reply is such an outcome or -4 |
| RpcCalls.CallReturns | rpc/rpc.cc:189-376 | in every run a call returned the payload of the first reply that arrived while it waited, -7 if and only if it was cancelled, -1 if and only if neither happened |
| RpcCalls.RunIsTaken | rpc/rpc.cc:189-408 | every run can be seen with its steps |
| RpcCalls.ReportedExactly | rpc/rpc.cc:302-362 | in every run the calls reported are those for which a reply arrived or which returned |
| RpcCalls.RequestsAcknowledge | rpc/rpc.cc:206-213 | in every run each request carries its call's number and arguments, and acknowledges exactly the calls reported without a gap when it was made |
| RpcCalls.CanCallExactly | rpc/rpc.cc:197-205 | in every run a call can be made if and only if bind returned 0 before, bind if and only if not, and neither once waiting calls were cancelled |
| RpcCalls.WaitingCanReturn | rpc/rpc.cc:189-323 | from every state of every run a call that waits can return a status its execution produced, or -4 if the server has passed it by |
| RpcCalls.WaitingCanFail | rpc/rpc.cc:163-323 | it can also time out with -1, or be cancelled with -7 |
| RpcCalm.CalmRunsForgetNothing | rpc/rpc.cc:683-704 | without timeouts and cancels the server's front is the larger of 1 and the greatest xid_rep applied, and a waiting call is never answered FORGOTTEN |
| RpcForgotten.ForgottenExactlyWhen | rpc/rpc.cc:659-707 | in every run a request is answered FORGOTTEN if and only if the server has executed a later call of the client and no call up to this one at or above every xid_rep it has seen |
| RpcForgotten.RunListsKept | rpc/rpc.cc:683-704 | in every run the window lists exactly the executed calls that are not below an xid_rep seen |
| RpcCalm.TimeoutForgetsWaitingCall | rpc/rpc.cc:249-323 | a run with one timeout after which a call that still waits is answered FORGOTTEN |
| Bits.BitsAfter | inode_manager.cc:52-78 | setting or clearing a bit of a byte changes that bit and no other |
| Disk.Layout | inode_manager.h:58-71 | bitmap before inodes; the inode blocks that formatting reserves are those of inodes up to 1022, and the next one is the first data block |
| Disk.RawDisk.ReadBlock | inode_manager.cc:9-21 | the block, or the buffer as it was for a number beyond the disk |
| Disk.RawDisk.WriteBlock | inode_manager.cc:23-32 | one block changes, or none for a number beyond the disk |
| Disk.BlockManager.FirstClear | inode_manager.cc:51-58 | the scan through a bitmap block stops at its first clear bit |
| Disk.BlockManager.AllocBlock | inode_manager.cc:37-61 | the scan through all bitmap blocks returns and marks the first unmarked block, and 0 for a full disk |
| Disk.BlockManager.FreeBlock | inode_manager.cc:63-80 | the bit of the block is cleared, and the first blocks are ignored |
| Disk.FirstBlocksStay | inode_manager.cc:63-70 | blocks up to 10 are never freed |
| Disk.FreeClears | inode_manager.cc:63-80 | for any other number, exactly the bit it names is cleared |
| Disk.BlockManager.Format | inode_manager.cc:84-98 | formatting is 1034 calls of alloc_block |
| Bitmap.AllocUsed | inode_manager.cc:37-61 | on the set of marked blocks alloc_block takes the least unmarked one and changes no other block; on a full disk it returns 0 and changes nothing |
| Bitmap.FreeUsed | inode_manager.cc:63-80 | free_block removes exactly its block from the set of marked ones |
| Bitmap.FormattedDisk | inode_manager.cc:84-98 | a formatted disk has exactly blocks 0..1033 marked and the rest zero |
| Allocation.TakeMany | inode_manager.cc:297-304 | while enough blocks are left, n calls of alloc_block hand out n different unmarked blocks |
| Allocation.RunsOut | inode_manager.cc:297-304 | with more calls than blocks the last answer is 0 and no other number is handed out twice |
| Words.WordPut | inode_manager.cc:292-304 | a 32-bit number stored in a block is read back, and its neighbours stay |
| Inodes.InodeRound | inode_manager.cc:201-214 | what put_inode stores is what get_inode reads |
| Inodes.InodeLayout | inode_manager.h:81-88 | where each field of the structure lies in its block, and that padding and the rest of the block are left alone |
| Inodes.PointersRound | inode_manager.cc:299-306 | the block of pointers gives back the numbers entered in it |
| Files.OneFileChanges | inode_manager.cc:270-342 | an operation that touches one inode and its blocks keeps marks and ownership in step for the whole disk |
| Files.OneFileView | inode_manager.cc:219-389 | such an operation changes no other file, byte for byte |
| Files.WriteStoresFile | inode_manager.cc:272-342 | with room, write_file stores exactly the content, whatever the old size, keeps the type, leaves all other files, and keeps the disk sound |
| Files.ReadKeepsFiles | inode_manager.cc:263-267 | the time stamps of read_file change no file |
| Files.RemovalDropsFile | inode_manager.cc:363-389 | remove_file frees exactly the blocks of the file and drops it |
| Files.BirthAddsFile | inode_manager.cc:141-145 | a free inode that gets a type is a new empty file |
| FileSpace.BlocksConserved | inode_manager.cc:84-98 | the free blocks number 31734 less the blocks that the sizes of the files call for |
| FileSpace.RoomBySizes | inode_manager.cc:285-306 | whether a content fits can be counted from the sizes of the files |
| FileSpace.WriteSoundExactlyWhenRoom | inode_manager.cc:285-342 | write_file leaves a sound disk if and only if there is room; otherwise the file owns block 0 |
| Images.StagedWrote | inode_manager.cc:285-341 | the three loops of write_file, with the pointers read back in the third, amount to the content in the new blocks and nothing else touched |
| Images.TargetsAre | inode_manager.cc:308-335 | the numbers read back from the pointer block are those handed out, if no direct block overwrote them |
| Images.FreshExactlyWhenLeft | inode_manager.cc:124-149 | alloc_inode yields an inode with storage of its own if and only if one of 1..1022 is free; otherwise it returns the root or overwrites the first data block |
| Images.AllocInodeCorrect | inode_manager.cc:124-149 | with an inode left, alloc_inode adds one empty file |
| Images.LeastFreeInode | inode_manager.cc:136-147 | its number is the least that is free |
| FullDisk.InodesRunOut | inode_manager.cc:124-149 | a run of 1022 creations from a formatted disk after which no inode is left, and any further one is given number 1023 and overwrites block 1034 |
| FullDisk.RoomRunsOut | inode_manager.cc:285-342 | a run with 197 files of the largest size after which there is an inode and no room, and any write of that size leaves a disk that is not sound |
| FileRuns.RunsKeepFiles | inode_manager.cc:84-389 | in every run from a formatted disk the disk stays sound, and its files are what the operations made them |
| FileRuns.RunsConserveBlocks | inode_manager.cc:84-389 | in every run no block is lost or owned twice: free blocks are 31734 less the blocks owned |
| FileRuns.RunsKeepFirst | inode_manager.cc:124-214 | in every run the block of inode 0 holds no inode |
| FileRuns.FreshFiles | inode_manager.cc:112-119 | a new disk holds an empty root directory under number 1 and nothing else |
| InodeLayer.InodeManager.constructor | inode_manager.cc:112-119 | the disk is formatted and holds a root directory |
| InodeLayer.InodeManager.MakeRoot | inode_manager.cc:114-118 | the first inode handed out is 1, so the start-up check passes |
| InodeLayer.InodeManager.GetInode | inode_manager.cc:174-199 | the inode, or nothing for a number out of range or a free inode |
| InodeLayer.InodeManager.PutInode | inode_manager.cc:201-214 | the fields of the inode are written over its block |
| InodeLayer.InodeManager.AllocInode | inode_manager.cc:123-149 | the first inode without a type gets one; 1 when there is none |
| InodeLayer.InodeManager.FreeInode | inode_manager.cc:151-169 | the inode found under any number below 1024 is cleared, all its fields zero |
| InodeLayer.InodeManager.ReadBlocks | inode_manager.cc:235-244 | the reading loop appends the bytes of one table of blocks, the last block cut at the size |
| InodeLayer.InodeManager.ReadContent | inode_manager.cc:232-260 | both loops together return the content, across the border between direct and indirect blocks |
| InodeLayer.InodeManager.ReadFile | inode_manager.cc:219-268 | the content of a live file and nothing for any other; no file changes, and access and change time are set |
| InodeLayer.InodeManager.FreeOld | inode_manager.cc:285-294 | exactly the blocks the file owned are unmarked |
| InodeLayer.InodeManager.AllocDirect | inode_manager.cc:297-298 | the direct slots get the next numbers |
| InodeLayer.InodeManager.AllocIndirect | inode_manager.cc:301-304 | the block of pointers gets the next numbers |
| InodeLayer.InodeManager.AllocNew | inode_manager.cc:296-306 | direct, pointer and indirect blocks in this order, and the pointer block written |
| InodeLayer.InodeManager.WriteBlocks | inode_manager.cc:309-320 | the writing loop fills one table of blocks with the next pieces of the content |
| InodeLayer.InodeManager.WriteData | inode_manager.cc:308-335 | both writing loops, with the indirect numbers read back in between |
| InodeLayer.InodeManager.WriteFile | inode_manager.cc:271-342 | the disk stays sound if and only if there is room, and then holds the new content beside all other files; size, modification and change time are set |
| InodeLayer.InodeManager.FreeForRemoval | inode_manager.cc:375-385 | exactly the blocks the file owned are unmarked |
| InodeLayer.InodeManager.RemoveFile | inode_manager.cc:363-389 | the file is gone and nothing else changes; a file that does not exist is left alone |
| Extents.RoomByFiles | inode_manager.cc:285-306 | room on the disk as a condition on the map of files |
| Extents.InodeLeftByFiles | inode_manager.cc:136-147 | an inode is left if and only if one of the numbers 1..1022 has no file |
| Extents.ExtentServer.constructor | extent_server.cc:12-14 | a new server holds an empty root directory |
| Extents.ExtentServer.Create | extent_server.cc:16-22 | an empty file under the least free number; with none left, the root's number and no change, or 1023 and the first data block overwritten |
| Extents.ExtentServer.Put | extent_server.cc:24-32 | the content of the file that the low 31 bits name is replaced if it fits; if it does not, the disk is not sound any more |
| Extents.ExtentServer.Get | extent_server.cc:34-51 | the content of the file that the low 31 bits name, or the empty text if there is none |
| Extents.ExtentServer.Remove | extent_server.cc:66-73 | the file that the low 31 bits name is gone, and no other changes |
| Extents.ExtentServer.GetAttr | extent_server.cc:53-64 | type, size and times of the file that the low 31 bits name, or zeros if there is none |
| Directory.DecRound | yfs_client.cc:14-27 | printing an inode number and reading it back are inverse |
| Directory.ToInumStops | yfs_client.cc:14-27 | reading a number stops at the first character that is no digit |
| Directory.EncodeAppend | yfs_client.cc:209-212 | appending an entry's text appends the entry |
| Directory.EntriesOfEncode | yfs_client.cc:304-330 | readdir parses back exactly the entries written, for slash-free names |
| Directory.ReaddirEnds | yfs_client.cc:318-327 | the loop of readdir ends if and only if the text is empty or ends in a slash |
| Directory.ReadDir | yfs_client.cc:304-330 | the loop lists the pairs of fields of the text |
| Directory.Search | yfs_client.cc:281-291 | the first entry of that name, if any |
| Unlink.OccurrenceMatches | yfs_client.cc:422-426 | an occurrence of an entry's text lies where a field ends in the name and the next one is the number |
| Unlink.DeletesExactly | yfs_client.cc:422-426 | on fields: deleting the first occurrence is right if and only if no match lies ahead of the entry's predecessor |
| Unlink.UnlinkExactlyWhenNotHidden | yfs_client.cc:422-426 | deletion leaves the directory without the entry if and only if no two neighbours before it hide it |
| Unlink.HiddenStaysListed | yfs_client.cc:422-426 | after the deletion of a hidden entry, every reading of the text as entries still lists that entry |
| Unlink.WordsAreNotHidden | yfs_client.cc:422-426 | a name that is not all digits is never hidden |
| Unlink.DeletionCanGoWrong | yfs_client.cc:422-426 | a directory of three entries in which deletion goes wrong |
| Unlink.EntryFound | yfs_client.cc:425-425 | the search finds the text of a listed entry |
| Tree.AddKeepsTree | yfs_client.cc:191-216 | a new entry for a new inode keeps names unique and numbers unique, live and different from the root |
| Tree.DropKeepsTree | yfs_client.cc:400-430 | so does dropping an entry together with its inode |
| Tree.AddKeepsReached | yfs_client.cc:205-213 | a new entry gives its inode a path from the root and takes none away |
| Tree.DropKeepsReachedExactly | yfs_client.cc:418-426 | dropping an entry with its inode orphans nothing if and only if the inode is no directory that lists something |
| Tree.StrayIsOrphan | yfs_client.cc:205-213 | an inode whose entry is appended to what is no directory is an orphan |
| FileTree.EnterKeeps | yfs_client.cc:205-213 | on files: the new file and the longer directory text mean exactly one more entry |
| FileTree.StrayKeeps | yfs_client.cc:205-213 | on files: appending to a parent that is no directory adds a file and leaves every directory as it was |
| FileTree.DropKeeps | yfs_client.cc:418-426 | on files: the removed file and the shorter text mean exactly one entry less |
| FileTree.HiddenDropBreaks | yfs_client.cc:418-426 | on files: after the deletion of a hidden entry no reading of the directories is a tree, since the dead inode is still listed |
| Client.ReadAfterWrite | yfs_client.cc:340-391 | what was written at an offset is read back, and bytes outside it stay |
| Client.ReadAt | yfs_client.cc:350-355 | the length and every byte of what a read yields, also where it reaches past the end |
| Client.WrittenAt | yfs_client.cc:367-391 | every byte after a write: the data, the old byte, or zero in a hole |
| Client.YfsClient.Lookup | yfs_client.cc:261-294 | EXIST and the number if and only if the directory that the low 31 bits name lists the name; nothing is found in what is no directory |
| Client.YfsClient.Create | yfs_client.cc:191-216 | EXIST and no change for a listed name; otherwise one new file under the least free number, its entry appended to the parent, directory or not: the step Add of TreeRuns, down to the disk |
| Client.YfsClient.MakeDir | yfs_client.cc:228-251 | the same for an empty directory |
| Client.YfsClient.Symlink | yfs_client.cc:440-464 | the same for a link and its path |
| Client.YfsClient.Unlink | yfs_client.cc:400-430 | NOENT and no change for a name not listed; otherwise the step Drop: the inode is gone, only the parent's text changes besides, and what is left is a tree of directories, then the right one, if and only if the entry was not hidden |
| Client.YfsClient.Read | yfs_client.cc:340-357 | the bytes of the range that the file named by the low 31 bits has, fewer where the range reaches past its end |
| Client.YfsClient.Write | yfs_client.cc:367-391 | the data at the offset, holes filled with zero bytes, no other file changed: the step Change, which keeps the directories; if it does not fit, the disk is not sound any more |
| Client.YfsClient.SetAttr | yfs_client.cc:163-181 | the same with the content cut or extended with zero bytes |
| TreeRuns.StepKeepsTreeExactly | yfs_client.cc:191-464 | an operation leaves a tree of directories, then the right one, if and only if it is not the deletion of a hidden entry |
| TreeRuns.RunsKeepTree | yfs_client.cc:191-464 | in every run that deletes no hidden entry names stay unique per directory, the numbers in live directories stay different, live and not the root's, and the texts list what was added and not dropped |
| TreeRuns.RunsKeepTreeExactly | yfs_client.cc:191-464 | a run goes through trees of directories only, if and only if it deletes no hidden entry |
| TreeRuns.WordRunsKeepTree | yfs_client.cc:191-464 | runs in which every name added has a character that is not a digit delete no hidden entry |
| TreeRuns.RunsOrphanExactly | yfs_client.cc:191-464 | in a run that deletes no hidden entry every live inode has a path from the root at all times, if and only if files are made in directories only and no directory that lists something is unlinked |
| Wire.BigEndianRound | rpc/rpc.cc:818-866 | a number is read back from its bytes, most significant first |
| Spelling.BigEndianByte | rpc/rpc.cc:851-858 | each byte of a number, most significant first |
| Wire.UnsignedWraps | rpc/rpc.cc:793-835 | signed numbers are sent in two's complement |
| Wire.Round | rpc/rpc.cc:779-990 | every value, whatever follows it, is decoded from its encoding: numbers, signed numbers, strings, vectors and maps |
| Wire.RoundAll | rpc/marshall.h:210-259 | every sequence of values is decoded from its encoding with nothing left over |
| Spelling.ReadsExactly | rpc/marshall.h:201-261 | a read succeeds with a value if and only if the bytes before the rest spell it, by a grammar of the format |
| Spelling.ReadsEncodings | rpc/marshall.h:201-231 | for types without bool and map, a read succeeds if and only if the bytes start with the encoding of a value of the type |
| Spelling.SpelledTyped | rpc/marshall.h:201-261 | what is read has the type asked for |
| Spelling.MapOfWrites | rpc/marshall.h:245-261 | a map read lists each key once, with the value that came last for it |
| Spelling.CutShort | rpc/rpc.cc:890-990 | a value cut short anywhere is not read |
| Spelling.ArgumentsCutShort | rpc/rpc.cc:890-990 | nor is a sequence of arguments cut short |
| Marshalling.ReqRound | rpc/marshall.h:83-96 | a request header is read back as written |
| Marshalling.ReplyRound | rpc/marshall.h:98-108 | so is a reply header |
| Marshalling.Marshall.RawByte | rpc/rpc.cc:755-765 | the byte is appended, and a full buffer doubles |
| Marshalling.Marshall.RawBytes | rpc/rpc.cc:767-778 | the bytes are appended; the buffer grows by the source's rule, which always makes room |
| Marshalling.Marshall.PutU32 | rpc/rpc.cc:817-826 | four bytes, most significant first |
| Marshalling.Marshall.PutNum | rpc/rpc.cc:787-849 | the bytes of a number of 1, 2, 4 or 8 bytes |
| Marshalling.Marshall.PutString | rpc/rpc.cc:835-841 | length and bytes |
| Marshalling.Marshall.PutVector | rpc/marshall.h:210-217 | count and elements |
| Marshalling.Marshall.PutMap | rpc/marshall.h:233-243 | count and pairs in order |
| Marshalling.Marshall.Put | rpc/rpc.cc:779-849 | the encoding of the value is appended |
| Marshalling.Marshall.PackReqHeader | rpc/marshall.h:83-96 | the header fills its space; body and position stay |
| Marshalling.Marshall.PackReplyHeader | rpc/marshall.h:98-108 | the same for a reply |
| Marshalling.Marshall.TakeBuf | rpc/marshall.h:110-116 | the buffer and its size, and the object is left without one |
| Marshalling.Unmarshall.RawByte | rpc/rpc.cc:890-899 | the next byte, or 0 and not ok from then on |
| Marshalling.Unmarshall.RawBytes | rpc/rpc.cc:979-990 | on any object, that many bytes replace the string; without them the string and the position stay and the object is not ok |
| Marshalling.Unmarshall.GetU32 | rpc/rpc.cc:939-947 | the number in the next four bytes, or not ok |
| Marshalling.Unmarshall.GetNum | rpc/rpc.cc:908-967 | the number in the next bytes, or not ok |
| Marshalling.Unmarshall.GetString | rpc/rpc.cc:969-977 | the string, or not ok when the announced bytes are not there |
| Marshalling.Unmarshall.GetVector | rpc/marshall.h:220-231 | the elements are appended to the vector passed in, or the object is not ok |
| Marshalling.Unmarshall.GetMap | rpc/marshall.h:245-259 | the map that the pairs amount to, or not ok |
| Marshalling.Unmarshall.Get | rpc/rpc.cc:901-977 | ok with the value that the next bytes spell, if and only if they spell one of the type |
| Marshalling.Unmarshall.UnpackReqHeader | rpc/marshall.h:175-187 | the header, if the packet is long enough, and on to the body |
| Marshalling.Unmarshall.UnpackReplyHeader | rpc/marshall.h:189-199 | the same for a reply |
| Marshalling.Unmarshall.OkDone | rpc/rpc.cc:880-888 | ok and nothing left |
| Marshalling.Sent | rpc/marshall.h:46-199 | header and arguments, packed, handed over and unpacked, are what was sent, with okdone true |

## Left out

- The lock protocol takes each RPC to execute exactly once and to return, and a condition wait to return only when signalled; `RpcInvariant` proves at most once, and exactly once for calls that return.
- The lock protocol is modelled for one lock; locks share only the mutex, and the limit of six dispatch threads is not modelled.
- Fairness among clients: the server picks the least waiter in string order, so none is promised.
- Call numbers are natural numbers without wrap-around, nonces are distinct and not 0, and a server does not restart.
- Replies in the window are values; when their memory is freed is not modelled.
- Sockets, polling, time-outs as durations, thread pools and packet checksums.
- `Directory.ToInum` reads the digits a text starts with; white space, signs and numbers beyond 64 bits, which the stream would also accept or clip, do not occur in directory texts.
- `InodeLayer.InodeManager.WriteFile`: for a live inode in 1..1022 and at most 81920 bytes, which the source relies on without a test.
- `InodeLayer.InodeManager.ReadFile`: for numbers 0 and 1023, which have no inode of their own, only while the type field found there is 0; for 0 it always is (`FileRuns.RunsKeepFirst`).
- `InodeLayer.InodeManager.RemoveFile`: the same.
- `InodeLayer.InodeManager.AllocInode`: the type is cut to 16 bits and the inode's padding bytes are left as they are.
- `Extents.ExtentServer.Get`: not for inode 1023, whose block is the first data block.
- `Extents.ExtentServer.Remove`: the same.
- `Extents.ExtentServer.GetAttr`: the same.
- `Extents.ExtentServer.Create`: for a type whose low 16 bits are not 0; the protocol's types are 1, 2 and 3.
- `Extents.ExtentServer.Put`: for a file that exists and at most 81920 bytes; the source follows a null pointer or runs past its tables otherwise.
- `Client.YfsClient.Create`: for a parent that exists, with a number and room left for the file and its entry, and for names without a slash; a put without room is covered by ExtentServer.Put.
- `Client.YfsClient.MakeDir`: the same.
- `Client.YfsClient.Symlink`: the same.
- `Client.YfsClient.Lookup`: not for parent 1023, nor are Unlink and Read.
- `Client.YfsClient.Write`: for a file that exists and a new size of at most 81920 bytes.
- `Client.YfsClient.SetAttr`: the same.
- `Marshalling.Unmarshall.RawBytes`: the 32-bit sum of position and length is not wrapped.
- `Marshalling.Marshall.Put`: capacities are natural numbers; char is a signed number of one byte, and a map is the list of its pairs in the order of iteration.
- `extent_client.cc` is taken as a direct call of the extent server, and each file system operation as atomic under its lock.
- Clock readings and what is left over in a buffer are arbitrary values.
- `lock_server.cc` and `lock_client.cc`, the server and client without caching.
- `fuse.cc`, the process start-up files, the demos and the tests.
- `getfile`, `getdir` and `readlink`, which only copy attributes or contents.
