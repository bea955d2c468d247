# Verified model of rivet-go

rivet-go lets Go programs host Rivet actors. A native runner delivers events and takes commands; a Go pump routes them
to one worker per actor generation; each actor has a SQLite database whose pages live in a remote store and whose
statements travel either through the native runner or over a socket. This project models the parts of that system whose
correctness is not visible in any one function, and proves them in Dafny.

| module | what it models | form |
|---|---|---|
| `PageStore`, `VfsFile`, `SqliteHeader` | the SQLite VFS: registration, write buffer, two aging page caches, prefetch, atomic writes over a remote page store | functions on a state value, and a class whose methods are proved equal to them |
| `WorkerCancel` | cancelling commands of the SQLite worker thread | interleaved atomic steps |
| `SaveProtocol` | actor-state saves and their anonymous acknowledgements | interleaved steps |
| `DatabaseFence` | admission, transaction leases, sleep fence and close of an actor's database handle | class of mutex sections, interleaved steps |
| `Correlation` | request ids, tombstones and wraparound in the waiter tables | class, interleaved steps |
| `TurnOwnership` | the actor turn and the caller identity that goes with it | interleaved steps |
| `WebSockets` | routing, hibernation and disconnect callbacks of one generation's sockets | method with a loop, interleaved steps |
| `SubmitQueue`, `StopOrder` | the submission loop, and the order of a generation's commands against its stop result | methods with loops, interleaved steps |
| `Mailbox` | the unbounded mailbox of an actor worker | class, interleaved steps |
| `MsgpackScan` | the MessagePack shape scanner | functions and a loop method |
| `BareCodec`, `SocketMessages`, `SocketCodec` | BARE values, query results and requests of the SQLite socket | functions, and encoder and decoder classes proved equal to them |
| `SocketGrammar`, `Utf8` | what the decoders accept, said without them: a grammar over the bytes, and the encodings of Unicode scalar values | predicates and lemmas |
| `ResultChunks` | reassembly of chunked query results and their rows | class and loop methods against functions |
| `ActorKeys` | the text form of actor keys | loop methods against functions |
| `Common`, `Runs`, `ByteStrings`, `Bits` | shared vocabulary: options, arithmetic, runs of a step system, byte strings, bitwise operations | |

A protocol is a `State`, a `Step` datatype, `Enabled` and `Apply`; each step is one mutex section, atomic operation or
channel operation, and timeouts and cancellations are steps that may happen whenever the code can observe them. A *run*
is any sequence of states that starts in `Init` and moves by steps, so a lemma about every run is a lemma about every
interleaving. Where the code meets a property only under a condition, the condition is stated as "if and only if", or a
reachable run outside it is constructed.

Findings that the model states as such:

- A flush after a bare truncation sends nothing, so the stored file keeps its old length (`FlushRefines`).
- Opening an atomic write drops buffered pages (`BeginKeepsFileIff`).
- A page cut off by a truncation that was not committed is still answered by the store. Growing over it brings its old
  bytes back (`TruncateRefines`, `WriteRefinesIff`, `OldPageComesBack`), and a short read past the end returns them instead
  of zeros (`ShortReadIsZeroFilledIff`, `ShortReadReturnsOldPage`).
- With expiry or caching switched off, the main page seeded at registration hides later commits of it (`CommitSeenIff`,
  `MainPageGoesStale`).
- The worker publishes its command id with a release store and then loads the cancellation flag with an acquire load.
  Unless that store is visible before the load, a cancellation can be lost, and only then (`CancellationLostIff`,
  `UnfencedCanLose`).
- A late save acknowledgement clears the poison flag and takes its mark in two sections; a second save abandoned in
  between loses its mark and its acknowledgement stops the pump. So does the acknowledgement of a save that a closing
  session let go, once the actor is removed (`UnplacedAcknowledgementIff`, `OrphanRemovalStopsThePump`).
- Offsets are cut into pages of at least 4096 bytes while the file is measured in the pages its header tells. A database
  with smaller pages cannot be read past the first one and is measured short (`TruncateMeasuresIff`, `WriteMeasuresIff`,
  `ReadsFileIff`, `SmallPagesAreLost`).
- Closing a database can overtake a sleep preparation's rollback (`CloseEndsEveryLease`).
- A waiter removed outright although its command was sent frees its id for reuse while the answer is still due
  (`AnswerGoesAstrayIff`, `StrayRemovalMisdelivers`). The paths that do this are a write that failed after it started, the
  key-value waiters, and a submission abandoned while it waits in the queue.
- The deferred give-up of a request that has just been answered is taken for a no-op; if its id was issued again in the
  meantime, it silences the new holder (`LateGiveUpSilences`).
- A hibernating socket is reported as disconnected when its worker quits before the sleep stop
  (`QuitReportsHibernatingSocket`).
- Keep-awake work started through a Run context from an action leaves the action's caller behind for the next callback
  (`FreeTurnIffNoLeak`). Its documentation speaks of Run only; the code does not check.
- The rows of a result without columns leave no trace (`RowsRecovered`).

## Model

| member | source | states |
|---|---|---|
| PageStore.CachedIsCommitted | crates/rivet-depot-client-pinned/src/vfs.rs:1008-1019 | a page found in either cache is the store's latest content of it: the stored page, or zeros where the store holds none and none is buffered |
| PageStore.ResolveIsContent | crates/rivet-depot-client-pinned/src/vfs.rs:1425-1718 | buffer, then committed cache, then read cache, then store resolve a page of the file to its visible content |
| PageStore.ReadKeepsFile | crates/rivet-depot-client-pinned/src/vfs.rs:2529-2622 | a read, whatever it prefetches or evicts, changes neither the visible file nor the invariant |
| PageStore.ReadRefines | crates/rivet-depot-client-pinned/src/vfs.rs:2529-2622 | a read returns the flat file's bytes up to its end and is reported short exactly past it, for every prediction |
| PageStore.ShortReadIsZeroFilledIff | crates/rivet-depot-client-pinned/src/vfs.rs:2529-2622 | the bytes a read returns from past the end are zeros if and only if the pages it touches there resolve to nothing or to zeros |
| PageStore.ShortReadReturnsOldPage | crates/rivet-depot-client-pinned/src/vfs.rs:2529-2622 | they need not be: from every registration with a first page, truncating to nothing and reading it returns the old page, reported short |
| PageStore.WrittenByte | crates/rivet-depot-client-pinned/src/vfs.rs:2653-2774 | each byte of a patched page is the source's byte inside the written range and the old byte outside it |
| PageStore.WriteRefines | crates/rivet-depot-client-pinned/src/vfs.rs:2653-2774 | a write changes nothing when it fails and otherwise, over a clean gap, exactly its own bytes of the flat file, growing it in whole zero-filled pages |
| PageStore.WriteRefinesIff | crates/rivet-depot-client-pinned/src/vfs.rs:2653-2774 | every reader, now and after any wait, sees the flat file's write if and only if no page skipped over is still stored or cached with other bytes than zeros |
| PageStore.WrittenFileIff | crates/rivet-depot-client-pinned/src/vfs.rs:2653-2774 | the buffered and stored bytes are the flat file's if and only if no page skipped over is still stored with other bytes than zeros |
| PageStore.TruncateRefines | crates/rivet-depot-client-pinned/src/vfs.rs:1945-1955 | truncation leaves the store alone and cuts the flat file at a page boundary; growth extends it by zeros if and only if no page brought back is stored with other bytes |
| PageStore.OldPageComesBack | crates/rivet-depot-client-pinned/src/vfs.rs:1945-1955 | both conditions fail in reach: from every registration, cutting a stored page off and growing over it, by truncation or by a write behind it, brings its old bytes back |
| PageStore.CommitRefines | crates/rivet-depot-client-pinned/src/vfs.rs:1731-1830 | an accepted commit makes the visible file the stored file, and keeps the caches in step wherever committed pages are kept |
| PageStore.CommitSeenIff | crates/rivet-depot-client-pinned/src/vfs.rs:1096-1101 | after a commit every reader goes on seeing the file, now and after any wait, if and only if committed pages are kept or no old copy of one is left in front |
| PageStore.FlushRefines | crates/rivet-depot-client-pinned/src/vfs.rs:1731-1830 | a flush succeeds if and only if the file is not lost and there is nothing to send, an atomic write is open, or the store answers; without something to send it changes nothing; and a successful one makes the visible file the stored one if and only if pages were buffered or the sizes already agreed |
| PageStore.SyncRefines | crates/rivet-depot-client-pinned/src/vfs.rs:2796-2821 | a sync first fails once over a commit error that was put off, sending nothing, and is a flush otherwise |
| PageStore.BeginKeepsInv | crates/rivet-depot-client-pinned/src/vfs.rs:2878-2910 | opening an atomic write on an empty buffer keeps the file and remembers it |
| PageStore.BeginKeepsFileIff | crates/rivet-depot-client-pinned/src/vfs.rs:2878-2910 | opening one keeps the file if and only if every buffered page already equals the stored one |
| PageStore.RollbackRefines | crates/rivet-depot-client-pinned/src/vfs.rs:2878-2910 | rollback returns to the remembered file, leaves the store alone and closes the atomic write |
| PageStore.AtomicCommitRefines | crates/rivet-depot-client-pinned/src/vfs.rs:1841-1943 | an atomic commit changes no visible byte; a failed one leaves store and bracket as they were, and puts its error off unless the fence is lost; a successful one ends the bracket, leaves the file usable and stores it under the flush condition |
| PageStore.TickKeepsInv | crates/rivet-depot-client-pinned/src/vfs.rs:1134-1148 | time passing never makes a cached page stale although commits leave the read cache alone |
| PageStore.StepRefines | crates/rivet-depot-client-pinned/src/vfs.rs:2529-2791 | with pages at least as large as offsets are cut, and outside the exact cases above, every operation of the VFS is the corresponding operation of a flat byte file |
| PageStore.RunRefines | crates/rivet-depot-client-pinned/src/vfs.rs:2529-2910 | the same of every sequence of reads, writes, truncates, syncs, begins, commits, rollbacks and pauses, outputs included, in every cache mode |
| PageStore.DeadIff | crates/rivet-depot-client-pinned/src/vfs.rs:1388-1400 | over every operation: the file is lost if and only if it was, or the operation sent a request that came back with the fence lost, where the request is told from buffer, size and cached pages; and a commit error is put off if and only if a commit failed otherwise or one was put off and no sync has reported it |
| PageStore.OutcomeIff | crates/rivet-depot-client-pinned/src/vfs.rs:2529-2910 | every operation succeeds if and only if its argument is legal, the file is not lost and its request, if it sends one, is answered; a sync besides has no commit error to report |
| PageStore.AnsweredRunServes | crates/rivet-depot-client-pinned/src/vfs.rs:2529-2910 | over every run whose requests are all answered the file stays usable: each operation with a legal argument succeeds, and each read returns the flat file's bytes |
| PageStore.OpenIff | crates/rivet-depot-client-pinned/src/vfs.rs:2878-2910 | an atomic write is open exactly from its begin to its rollback or to a commit that succeeds |
| PageStore.CachesChangedBy | crates/rivet-depot-client-pinned/src/vfs.rs:1945-1955 | only a truncation and a commit that asks touch the committed cache, only a truncation and a read the read cache, and a truncation empties both |
| PageStore.ReadCaches | crates/rivet-depot-client-pinned/src/vfs.rs:2529-2622 | after a read that had to ask every predicted stored page is at hand where prefetched pages are kept, the pages read are forgotten unless the read cache retains them, and what is retained is what was cached or had expired |
| PageStore.FaultedReadCaches | crates/rivet-depot-client-pinned/src/vfs.rs:2529-2622 | a read that stumbles over a short page has prefetched all the same |
| PageStore.CommittedIsAtHand | crates/rivet-depot-client-pinned/src/vfs.rs:1096-1105 | a committed page is served without asking until it expires, where committed pages are kept |
| PageStore.TruncateMeasuresIff | crates/rivet-depot-client-pinned/src/vfs.rs:1348-1350 | truncation leaves the file as long as asked, in whole pages, for every length if and only if pages have at least 4096 bytes |
| PageStore.WriteMeasuresIff | crates/rivet-depot-client-pinned/src/vfs.rs:1348-1350 | every write grows the file by the pages it needs if and only if pages have at least 4096 bytes |
| PageStore.ReadsFileIff | crates/rivet-depot-client-pinned/src/vfs.rs:2535-2619 | every read inside a registered database returns its bytes if and only if pages have at least 4096 bytes or there is only one |
| PageStore.SmallPagesAreLost | crates/rivet-depot-client-pinned/src/vfs.rs:2535-2619 | two pages of 512, 1024 or 2048 bytes: the second cannot be read, and truncating to the file's own length drops it |
| PageStore.CloseRefines | crates/rivet-depot-client-pinned/src/vfs.rs:2449-2491 | closing keeps the file; it succeeds, and loses the file, exactly where stated; a close that reports success has stored it, an open atomic write included, under the flush condition |
| PageStore.CachedPageIsCommittedOverRuns | crates/rivet-depot-client-pinned/src/vfs.rs:1008-1019 | after any such sequence from registration a cached page is the latest committed content, zeros where nothing is stored |
| PageStore.MainPageGoesStale | crates/rivet-depot-client-pinned/src/vfs.rs:1096-1101 | with expiry or caching off, from every registration: writing and syncing the main page stores it, and the next read returns the seeded copy |
| PageStore.NothingStoredInside | crates/rivet-depot-client-pinned/src/vfs.rs:2878-2910 | nothing reaches the store inside an atomic write, whatever is done there |
| PageStore.BracketRollsBack | crates/rivet-depot-client-pinned/src/vfs.rs:2878-2910 | begin, any work, rollback: the file and the store of before, no bracket and nothing buffered |
| PageStore.BracketCommits | crates/rivet-depot-client-pinned/src/vfs.rs:1841-1943 | begin, any work, successful commit: the stored file becomes the visible one in that step, the bracket is closed and the file usable |
| VfsFile.RemoteStore.GetPages | crates/rivet-depot-client-pinned/src/vfs.rs:1425-1718 | the assumed store answers exactly the pages asked for, in order |
| VfsFile.RemoteStore.Commit | crates/rivet-depot-client-pinned/src/vfs.rs:1731-1830 | the assumed store applies a commit atomically and drops pages past the new size |
| SqliteHeader.EmptyDbPageDescribesItself | crates/rivet-depot-client-pinned/src/vfs.rs:48-90 | the page a fresh database starts with carries, and reads back as, one page of the default size |
| SqliteHeader.PageSizeIff | crates/rivet-depot-client-pinned/src/vfs.rs:67-80 | a page size is read if and only if the header's text is there and bytes 16 and 17 hold it big-endian: any power of two from 512 to 65536, the last written as one, and no other number |
| SqliteHeader.SizeInPagesIff | crates/rivet-depot-client-pinned/src/vfs.rs:82-89 | a page count is read if and only if the header's text is there and bytes 28 to 31 hold it big-endian, and zero is read as one |
| SqliteHeader.SizesReadBack | crates/rivet-depot-client-pinned/src/vfs.rs:67-89 | so a page that carries its database's sizes has both read back |
| SqliteHeader.EmptyDbPageIsAnEmptyDatabase | crates/rivet-depot-client-pinned/src/vfs.rs:48-65 | the other fields of that page hold what SQLite's file format asks of an empty database |
| VfsFile.SeedPages | crates/rivet-depot-client-pinned/src/vfs.rs:1107-1132 | the seeding loop takes both sizes from the first page's header, else the defaults, and caches that page and, in a mode that keeps them, the other preloaded ones |
| VfsFile.Handle.constructor | crates/rivet-depot-client-pinned/src/vfs.rs:1183-1198 | every stored database whose first page carries its page size and page count, and whose pages have that size, is registered with exactly these; in general registration starts from what that page says, is right if and only if it is there and tells its sizes right, and meets the starting condition of the runs if and only if the pages have at least 4096 bytes besides |
| VfsFile.Handle.Cached | crates/rivet-depot-client-pinned/src/vfs.rs:1008-1019 | the lookup over both caches is the modelled one |
| VfsFile.Handle.Lookup | crates/rivet-depot-client-pinned/src/vfs.rs:1425-1718 | the loop splits the targets into pages at hand and pages to fetch, each of these once |
| VfsFile.Handle.Plan | crates/rivet-depot-client-pinned/src/vfs.rs:1425-1718 | the fetch list is the missing targets and the predicted pages not at hand, each once |
| VfsFile.Handle.Absorb | crates/rivet-depot-client-pinned/src/vfs.rs:1425-1718 | the answer resolves every target and caches exactly the prefetched pages |
| VfsFile.Handle.FetchMissing | crates/rivet-depot-client-pinned/src/vfs.rs:1425-1718 | one request for the missing targets and the predicted pages resolves every target and leaves the modelled state |
| VfsFile.Handle.ResolvePages | crates/rivet-depot-client-pinned/src/vfs.rs:1425-1718 | resolving fails exactly when the store is needed and does not answer, and otherwise yields the modelled pages and state |
| VfsFile.Handle.CopyPages | crates/rivet-depot-client-pinned/src/vfs.rs:2529-2622 | the page-by-page copy fills the caller's buffer with the modelled bytes and nothing else, and fails exactly on a page too short for its part |
| VfsFile.Handle.IoRead | crates/rivet-depot-client-pinned/src/vfs.rs:2529-2622 | the read callback is the modelled read for pages of any length, buffer contents and result code included |
| VfsFile.Handle.IoFileSize | crates/rivet-depot-client-pinned/src/vfs.rs:2823-2835 | the reported length is that of the visible file |
| VfsFile.Handle.ReadForPatch | crates/rivet-depot-client-pinned/src/vfs.rs:2653-2774 | a partial write reads the existing pages it touches and changes no state |
| VfsFile.Handle.BuildPages | crates/rivet-depot-client-pinned/src/vfs.rs:2653-2774 | the pages built are the modelled ones, and building fails exactly when a needed page cannot be had |
| VfsFile.Handle.PatchAll | crates/rivet-depot-client-pinned/src/vfs.rs:2653-2774 | the loop over the span produces every patched page |
| VfsFile.Handle.PatchPage | crates/rivet-depot-client-pinned/src/vfs.rs:2653-2774 | the slice arithmetic overlays exactly the source bytes that fall in the page |
| VfsFile.Handle.IoWrite | crates/rivet-depot-client-pinned/src/vfs.rs:2653-2774 | the write callback is the modelled write |
| VfsFile.Handle.IoTruncate | crates/rivet-depot-client-pinned/src/vfs.rs:1945-1955 | the truncate callback is the modelled truncation |
| VfsFile.Handle.KeepCommitted | crates/rivet-depot-client-pinned/src/vfs.rs:1096-1101 | the loop puts every committed page in the committed cache |
| VfsFile.Handle.SendBuffered | crates/rivet-depot-client-pinned/src/vfs.rs:1731-1830 | the state moves on if and only if the store accepted the buffered pages |
| VfsFile.Handle.FlushDirtyPages | crates/rivet-depot-client-pinned/src/vfs.rs:1731-1830 | the flush is the modelled one |
| VfsFile.Handle.IoSync | crates/rivet-depot-client-pinned/src/vfs.rs:2796-2821 | the sync callback is the modelled sync, the put-off commit error included |
| VfsFile.Handle.BeginAtomicWrite | crates/rivet-depot-client-pinned/src/vfs.rs:2878-2910 | the begin control is the modelled one |
| VfsFile.Handle.SendAtomicWrite | crates/rivet-depot-client-pinned/src/vfs.rs:1841-1943 | sending an atomic write is the modelled commit, error reporting aside |
| VfsFile.Handle.CommitAtomicWrite | crates/rivet-depot-client-pinned/src/vfs.rs:2878-2910 | the commit control is the modelled one, with its put-off error |
| VfsFile.Handle.IoClose | crates/rivet-depot-client-pinned/src/vfs.rs:2449-2491 | the close callback is the modelled close |
| VfsFile.Handle.RollbackAtomicWrite | crates/rivet-depot-client-pinned/src/vfs.rs:2878-2910 | the rollback control is the modelled one |
| WorkerCancel.InterruptsHitTheirCommand | crates/rivet-depot-client-pinned/src/worker.rs:410-435 | on every run each interrupt falls inside the window of the command it was meant for, on a live connection, and finishing never panics |
| WorkerCancel.StepKeepsSafe | crates/rivet-depot-client-pinned/src/worker.rs:613-638 | the shared word names the current window or nothing, and a claiming guard pins the worker inside its own window |
| WorkerCancel.CancellationLostIff | crates/rivet-depot-client-pinned/src/worker.rs:613-623 | on every run, whatever the memory ordering: a dropped guard's command runs on uninterrupted if and only if the guard claimed while the worker was past its second check and its publication still unseen |
| WorkerCancel.NoCancellationLost | crates/rivet-depot-client-pinned/src/worker.rs:551-600 | any other dropped guard's command was interrupted, is over, or has not started and never will, for the rest of the run |
| WorkerCancel.FencedNeverMisses | crates/rivet-depot-client-pinned/src/worker.rs:613-623 | no guard claims unseen where the publication is visible before the second check |
| WorkerCancel.UnfencedCanLose | crates/rivet-depot-client-pinned/src/worker.rs:613-623 | with the publication still in the store buffer such a claim, and a lost cancellation, is reachable: a concrete run |
| WorkerCancel.NextCommandId | crates/rivet-depot-client-pinned/src/worker.rs:364-374 | the counter wraps around 64 bits, terminates and skips both reserved words |
| WorkerCancel.CommandsRunInOrder | crates/rivet-depot-client-pinned/src/worker.rs:448-517 | on every run commands are taken up in the order submitted: when one has started, each one before it has run, was cancelled, or nobody listened; an idle worker with an empty queue has settled all of them |
| WorkerCancel.StoppedHasReleased | crates/rivet-depot-client-pinned/src/worker.rs:519-525 | on every run a stopped worker has let go of its connection, its database and the shared word |
| SaveProtocol.AtMostOneUnacknowledged | internal/pump/pump.go:1024-1090 | on every run at most one save is out at the native side, and each acknowledgement resolves the save that caused it, once |
| SaveProtocol.RefusedUntilLateAcknowledgement | internal/pump/pump.go:1440-1459 | on every run new saves are refused while an abandoned save's acknowledgement is out, and a save is accepted whenever none is out: the late acknowledgement has cleared the flag |
| SaveProtocol.UnplacedAcknowledgementIff | internal/pump/pump.go:2252-2268 | once quiet, the pump has stopped over an acknowledgement if and only if a save was abandoned inside another's late gap or an actor was removed over a save its session had let go |
| SaveProtocol.SaveGoesThrough | internal/pump/pump.go:1024-1090 | from every reachable state with saving open and nothing out, a save is accepted, acknowledged and returned, with everything else as it was |
| SaveProtocol.WaitingIsAnswered | internal/pump/pump.go:1064-1084 | on every run a saver that waits with nothing out any more has its result |
| SaveProtocol.NoSaveAfterStop | internal/pump/pump.go:1024-1036 | once a session stops accepting or is aborted, no save begins for the rest of the run |
| SaveProtocol.GapAbandonStopsThePump | internal/pump/pump.go:1450-1459 | two saves abandoned in quick succession reach the first case: a concrete run |
| SaveProtocol.OrphanRemovalStopsThePump | internal/pump/pump.go:2252-2258 | an actor removed over a save its closing session let go reaches the second: a concrete run |
| DatabaseFence.Handle.BeginOperation | rivet/sqlite.go:300-311 | admits and counts exactly while neither closing nor fenced |
| DatabaseFence.Handle.FinishOperation | rivet/sqlite.go:313-320 | uncounts one operation and wakes the drain at zero |
| DatabaseFence.Handle.Reserve | rivet/sqlite.go:199-246 | one begin at a time, and only with no lease in the table |
| DatabaseFence.Handle.Register | rivet/sqlite.go:199-246 | publishes the lease unless a fence or close came in between |
| DatabaseFence.Handle.Unreserve | rivet/sqlite.go:224-228 | ends the begin, whatever its outcome |
| DatabaseFence.Handle.Unregister | rivet/sqlite.go:322-329 | takes an ended lease out of the table |
| DatabaseFence.Handle.FenceForSleep | rivet/sqlite.go:255-280 | raises the fence once and tells the call that raised it which leases to roll back |
| DatabaseFence.Handle.ResumeAfterSleepFailure | rivet/sqlite.go:282-291 | lowers the fence unless closing |
| DatabaseFence.Handle.BeginClose | rivet/sqlite.go:332-339 | closes admission and tells the close which leases to roll back |
| DatabaseFence.CloseExcludesOperations | rivet/sqlite.go:331-376 | on every run the counter is the number of admitted operations, the backend is closed at most once, with none in flight and none admitted later |
| DatabaseFence.SingleLeaseEndedOnce | rivet/sqlite.go:446-480 | on every run at most one lease is beginning or registered, and each lease gets at most one commit or rollback |
| DatabaseFence.NextTransactionIff | rivet/sqlite.go:199-246 | on every run, while nobody is at work on a lease, there is room for a transaction if and only if every lease handed out has been ended: an ended transaction makes room for the next |
| DatabaseFence.BeginningIffReserving | rivet/sqlite.go:199-246 | on every run the right to begin is held if and only if some operation is between reserving and giving it back |
| DatabaseFence.EndTakesEffect | rivet/sqlite.go:446-480 | a commit or rollback past its admission has seen to exactly one end call for its lease, and that call is back once nobody is at work |
| DatabaseFence.CloseEndsEveryLease | rivet/sqlite.go:331-376 | when the backend is closed, the leases nobody has ended are exactly the one a sleep preparation is still rolling back |
| DatabaseFence.CloseCanOvertakeSleepRollback | rivet/sqlite.go:255-291 | that overlap is reachable: a concrete run |
| DatabaseFence.AcceptedSleepNeverReopens | rivet/actor.go:256-280 | from the answer that accepts a sleep request on, admission stays closed for the rest of every run |
| DatabaseFence.RejectedSleepReopens | rivet/actor.go:256-280 | a rejected request reopens admission if and only if its own call raised the fence and no close has begun |
| DatabaseFence.SleepGoesAhead | rivet/sqlite.go:255-274 | a sleep request that finds the database open or fenced goes ahead with admission closed; during a close it is refused and changes nothing |
| DatabaseFence.PreparationFailedIff | rivet/sqlite.go:275-280 | on every run a sleep preparation counts as failed if and only if one of its own rollbacks failed |
| DatabaseFence.PreparationEnds | rivet/sqlite.go:275-291 | a preparation that ends asks for the sleep if none of its rollbacks failed, and otherwise gives up and reopens admission unless a close has begun |
| DatabaseFence.PreparedSleepIsQuiet | rivet/actor.go:256-280 | on every run a prepared sleep is asked for with nothing in progress and every lease ended, except exactly one that a concurrent close is still rolling back |
| Correlation.PendingTable.Add | internal/sqlitesocket/client.go:310-324 | allocation ends and takes the next free id in cyclic order, skipping zero and ids still in the table |
| Correlation.PendingTable.Remove | internal/sqlitesocket/client.go:326-330 | forgets the id |
| Correlation.PendingTable.Abandon | internal/sqlitesocket/client.go:332-338 | leaves a tombstone where the id was pending and nothing elsewhere |
| Correlation.PendingTable.Settle | internal/sqlitesocket/client.go:240-260 | hands the response to its waiter or swallows it, and frees the id with the last one |
| Correlation.AnswerGoesAstrayIff | internal/sqlitesocket/client.go:240-260 | on every run, removals of sent requests and the close included: the waiter a response finds is a stranger if and only if the request's id was issued again while it could still be answered, and no response ever went to a stranger otherwise |
| Correlation.AnswersReachNoOther | internal/sqlitesocket/client.go:109-169 | so without a removal of a sent request, up to the close, no id is issued again too early and no response reaches a stranger |
| Correlation.AnswerReachesItsRequestIff | internal/sqlitesocket/client.go:240-260 | on every run a response finds its request waiting if and only if the request did not give up and its entry was neither tombstoned nor removed from under it |
| Correlation.DeliveryIs | internal/sqlitesocket/client.go:240-260 | on every run a response, chunk or final, goes to its request if that still waits, to nobody if the entry is gone or a tombstone, and to a stranger only where the id was issued again; a final one ends the entry |
| Correlation.CloseTellsEveryWaiter | internal/sqlitesocket/client.go:340-350 | on every run a close tells every request that still waits and empties the table |
| Correlation.LateGiveUpSilences | internal/pump/pump.go:1284-1300 | an entry is tombstoned so for every table size: a request that gives up just after its answer silences the next holder of its id |
| Correlation.NobodyServedTwice | internal/sqlitesocket/client.go:240-260 | on every run no waiter receives a second final response |
| Correlation.IdNotReissued | internal/pump/pump.go:3093-3121 | an id is not issued again while a response to it can still arrive |
| Correlation.FreeIdExists | internal/sqlitesocket/client.go:310-324 | the allocation loop's condition holds whenever fewer ids are pending than exist |
| Correlation.StrayRemovalMisdelivers | internal/pump/pump.go:1908-1935 | for every table size, one removal of a sent request lets its answer reach a stranger after wraparound |
| Correlation.CloseEndsTheGuarantee | internal/sqlitesocket/client.go:340-350 | so does a close: a response still in the reader's hand when the table is cleared can reach a stranger |
| TurnOwnership.StepKeepsInv | rivet/actor.go:170-182 | each step keeps the turn with one owner and the caller identity with the body that owns it, until a leaking keep-awake call |
| TurnOwnership.EveryCallbackSeesItsOwnCaller | rivet/actor.go:557-588 | on every run up to such a call, a free turn has no caller and each callback, across any number of yields, sees exactly its own |
| TurnOwnership.FreeTurnIffNoLeak | rivet/managed_work.go:31-39 | a run keeps the free turn free of callers if and only if no keep-awake call gave the turn up with a caller set |
| TurnOwnership.KeepAwakeFromActionLeaks | rivet/managed_work.go:113-123 | such a call is reachable for every caller, and the next lifecycle callback sees that caller |
| WebSockets.DetachActorWebSockets | internal/pump/pump.go:2904-2937 | one pass takes every socket of the actor out of the table, into exactly one of the two lists, and touches no other |
| WebSockets.MailboxOrder | internal/pump/pump.go:2222-2251 | per socket the mailbox carries its Open first and only there, then messages, then at most one Close and nothing after it |
| WebSockets.RoutedArrives | internal/pump/pump.go:2222-2251 | whatever is routed to a live worker is in its mailbox, in its place, once the poll loop is free again; a stop comes behind a Close for each socket it found that does not hibernate |
| WebSockets.NeverRoutedAgain | internal/pump/pump.go:2904-2937 | after its close, a stop, its rejection or the worker's end no event of a socket is routed for the rest of the run |
| WebSockets.OpenedIsAccepted | rivet/actor.go:866-901 | a socket opened without a rejection is connected and counts as accepted for the rest of the run |
| WebSockets.ClosedIsReported | rivet/actor.go:931-955 | on every run an accepted socket whose Close was handled has been reported, unless its connection was closed on its own or the worker left for a sleep |
| WebSockets.StopSettlesEverySocket | internal/pump/pump.go:2120-2152 | each socket a stop detached has exactly one of a hibernate command (sleep, not draining, able to) or a Close queued before the stop |
| WebSockets.DisconnectedOnce | rivet/actor.go:931-988 | the disconnect callback runs at most once per connection, and exactly once for every accepted socket of a worker that left for another reason than sleep, unless its connection was closed on its own |
| WebSockets.HibernatingSocketReportedIff | rivet/actor.go:957-988 | a socket told to hibernate is reported as disconnected if and only if its worker left for another reason than sleep while the connection was still there |
| WebSockets.QuitReportsHibernatingSocket | rivet/actor.go:957-988 | a worker that quits between the hibernate command and its sleep stop reaches that case: a concrete run |
| SubmitQueue.Collect | internal/pump/pump.go:2040-2053 | the collected requests are a prefix of the queue in order, only the last one may pass the limit of 1024 commands, and collecting looks at the queue once for each request and stops early only on an empty one |
| SubmitQueue.SubmitLoop | internal/pump/pump.go:2033-2068 | for every behaviour of its environment: each batch belongs to one turn, in order, and has that turn's answer; the arrivals that the turns looked at, and those that came with the stop, are exactly the requests of the batches, the refused and the queued, in order; answers follow in order, one each; a turn without a batch found nothing; nothing is left after a stop |
| SubmitQueue.TakeTurn | internal/pump/pump.go:2033-2068 | one turn keeps these books: it collects, hands over and answers with what the native side said |
| SubmitQueue.AnswerAll | internal/pump/pump.go:2064-2066 | every request of a batch gets that batch's result |
| SubmitQueue.RefuseAll | internal/pump/pump.go:3138-3147 | after the stop every queued request is refused, in order |
| SubmitQueue.StreamIsInOrder | internal/pump/pump.go:2033-2068 | when no batch fails, the native side sees the commands of the served requests in queue order |
| StopOrder.NothingFollowsTheStopResult | internal/pump/pump.go:2487-2513 | on every run no save or SQLite command of a generation follows its stop result in the command stream, abandoned requests and failed batches included |
| StopOrder.SubmittedArrives | internal/pump/pump.go:2033-2068 | on every run, up to a batch the native side refuses, whatever is submitted stays behind what was submitted before it, and the native side has it all once queue and batch are empty |
| StopOrder.CounterIsExact | internal/pump/pump.go:1461-1516 | the counter the stop waits on is the number of operations in progress; once seen at zero behind the closed gate none begins again |
| Mailbox.ActorMailbox.Append | internal/pump/pump.go:1705-1708 | put's mutex section appends at the end |
| Mailbox.ActorMailbox.Post | internal/pump/pump.go:1709-1713 | put's second half leaves a token pending and never blocks |
| Mailbox.ActorMailbox.TakeOne | internal/pump/pump.go:1717-1730 | take's mutex section removes the oldest event, or changes nothing |
| Mailbox.ActorMailbox.Receive | internal/pump/pump.go:1731-1735 | take's wait uses up the token |
| Mailbox.FifoAndNoLostWakeup | internal/pump/pump.go:1693-1737 | on every run taken plus queued is what was put, in order, and a consumer waiting on a non-empty queue has a token pending or a producer about to post one |
| Mailbox.DrainingEnds | internal/pump/pump.go:1717-1737 | without new events only boundedly many steps can follow |
| Mailbox.StoppedMeansDelivered | internal/pump/pump.go:1717-1737 | and when no step is left everything put has been taken |
| Mailbox.CancelledTakesNothing | internal/pump/pump.go:1731-1735 | a cancelled consumer takes nothing more for the rest of the run |
| MsgpackScan.ScanLen | internal/wire/scan.go:160-178 | a length is accepted only if it fits in what follows, and the scan moves past its prefix |
| MsgpackScan.ScanValue | internal/wire/scan.go:42-157 | the scan always terminates, consumes at least one byte and never passes the end |
| MsgpackScan.ScanEntriesLoop | internal/wire/scan.go:197-209 | the loop over entries scans that many values one after the other |
| MsgpackScan.LenReadsBack | internal/wire/scan.go:160-178 | a big-endian length is read back, and refused only when the bytes it announces are missing |
| MsgpackScan.Accepted | internal/wire/scan.go:42-157 | every value tree within the limits is scanned to its last byte, whatever surrounds it: the early checks never refuse one |
| MsgpackScan.Sound | internal/wire/scan.go:42-157 | whatever is scanned is the serialization of a value tree within depth, entry and blob limits |
| MsgpackScan.AcceptsExactlyTheLegalTrees | internal/wire/scan.go:31-40 | a message is accepted if and only if it is the serialization of one value tree within the limits |
| MsgpackScan.Unambiguous | internal/wire/scan.go:42-157 | no bytes are the start of two different trees, so that tree is unique |
| BareCodec.UintRoundTrip | internal/sqlitesocket/codec.go:56-62 | every 64-bit integer takes at most ten bytes and is read back exactly, wherever it stands |
| BareCodec.UintIsShortest | internal/sqlitesocket/codec.go:56-62 | no shorter form exists: a longer one is at least the weight of its last group |
| BareCodec.UintInRange | internal/sqlitesocket/codec.go:185-202 | any bytes yield a 64-bit integer from at most ten of them or an error, and the too-long error is unreachable |
| BareCodec.U32ReadsBack | internal/sqlitesocket/codec.go:204-210 | little-endian round trip |
| BareCodec.U64ReadsBack | internal/sqlitesocket/codec.go:212-218 | little-endian round trip |
| BareCodec.I64ReadsBack | internal/sqlitesocket/codec.go:228-231 | two's-complement round trip over the whole signed range |
| BareCodec.BytesReadBack | internal/sqlitesocket/codec.go:244-268 | a length-prefixed string within the limit is read back and exactly consumed |
| BareCodec.SqlRoundTrip | internal/sqlitesocket/codec.go:83-116 | every encodable SQL value reads back as the payload its kind uses; with the UTF-8 check, if and only if its text is UTF-8 |
| Utf8.ValidIffText | internal/sqlitesocket/codec.go:255-268 | text passes the UTF-8 check if and only if it is the concatenation of the encodings, one to four bytes computed from the number, of some sequence of Unicode scalar values |
| SocketMessages.AcceptedIsRectangular | internal/sqlitesocket/codec.go:421-470 | whatever the bytes, an accepted query result consists of whole rows |
| SocketMessages.QueryRoundTrip | internal/sqlitesocket/codec.go:421-470 | every well-formed query result followed by anything decodes to its columns, values in row order and counters, consuming exactly its bytes |
| SocketGrammar.QueryAcceptedIff | internal/sqlitesocket/codec.go:421-470 | whatever the bytes, a query result is decoded to given columns, values and counters if and only if the bytes are one of that result's forms under the grammar; the grammar mentions no decoder |
| SocketGrammar.ValueIff | internal/sqlitesocket/codec.go:270-301 | the same of one value: its tag, then its payload |
| SocketGrammar.UintIff | internal/sqlitesocket/codec.go:185-202 | the same of a variable-length integer: at most ten bytes, all but the last marked, worth their base-128 digits, within 64 bits |
| SocketGrammar.FixedIff | internal/sqlitesocket/codec.go:204-218 | the same of a fixed-width integer: each byte is one digit to the base 256 |
| SocketGrammar.I64Iff | internal/sqlitesocket/codec.go:228-231 | the same of a signed integer, in two's complement |
| SocketGrammar.TextIff | internal/sqlitesocket/codec.go:255-268 | the same of a text: its length, then as many bytes, which are UTF-8 |
| SocketGrammar.TableIff | internal/sqlitesocket/codec.go:433-453 | the same of the rows, each with its own width, all as wide as there are columns |
| SocketMessages.RequestRoundTrip | internal/sqlitesocket/codec.go:120-167 | an encoded request is read back as exactly the fields its kind uses |
| SocketMessages.RequestEncodableIff | internal/sqlitesocket/codec.go:120-167 | a request can be sent if and only if it has an id, at most 1024 arguments and what its kind needs: arguments with a payload of their kind, texts and blobs within a megabyte, or a lease |
| SocketMessages.ArgsEncodableIff | internal/sqlitesocket/codec.go:83-116 | arguments can be encoded if and only if each has a payload of its kind within the limit |
| SocketMessages.RequestsAreInjective | internal/sqlitesocket/codec.go:120-167 | two encodable requests have the same bytes if and only if they agree on the fields their kinds use |
| SocketCodec.Encoder.Uint | internal/sqlitesocket/codec.go:56-62 | the or-and-shift loop appends the variable-length form |
| SocketCodec.Encoder.Fixed | internal/sqlitesocket/codec.go:64-66 | appends the little-endian form |
| SocketCodec.Encoder.String | internal/sqlitesocket/codec.go:78-81 | appends length and bytes |
| SocketCodec.Encoder.OptionalString | internal/sqlitesocket/codec.go:69-76 | appends presence, then the string |
| SocketCodec.Encoder.SqlValue | internal/sqlitesocket/codec.go:83-116 | appends the value, or fails exactly on an unknown kind or a missing or oversized payload |
| SocketCodec.Encoder.Args | internal/sqlitesocket/codec.go:142-147 | the loop appends every argument or reports the first failure |
| SocketCodec.EncodeBody | internal/sqlitesocket/codec.go:137-165 | each kind's own part, and the error of a missing lease |
| SocketCodec.EncodeRequest | internal/sqlitesocket/codec.go:120-167 | the whole request, and every error case |
| SocketCodec.Decoder.Take | internal/sqlitesocket/codec.go:176-183 | the next bytes, or an error with the position unchanged |
| SocketCodec.JoinGroup | internal/sqlitesocket/codec.go:196 | masking, shifting and or-ing a group onto those below it adds its weight and loses no bit of the word |
| SocketCodec.Decoder.Uint | internal/sqlitesocket/codec.go:185-202 | the mask, shift and or of each group compute the decoded integer, with the same errors |
| SocketCodec.Decoder.Fixed | internal/sqlitesocket/codec.go:204-218 | the little-endian value |
| SocketCodec.Decoder.I64 | internal/sqlitesocket/codec.go:228-231 | the signed value |
| SocketCodec.Decoder.Boolean | internal/sqlitesocket/codec.go:233-242 | zero or one, anything else an error |
| SocketCodec.Decoder.Length | internal/sqlitesocket/codec.go:244-253 | a length within the maximum and the remaining bytes |
| SocketCodec.Decoder.String | internal/sqlitesocket/codec.go:255-268 | length, bytes and the UTF-8 check |
| SocketCodec.Decoder.SqlValue | internal/sqlitesocket/codec.go:270-301 | the value by its tag, and every error |
| SocketCodec.Decoder.Columns | internal/sqlitesocket/codec.go:422-432 | the column loop |
| SocketCodec.Decoder.Row | internal/sqlitesocket/codec.go:438-452 | one row appended to the values read before, refused if its width differs |
| SocketCodec.Decoder.Table | internal/sqlitesocket/codec.go:433-453 | the row loop |
| SocketCodec.Decoder.QueryResult | internal/sqlitesocket/codec.go:421-470 | the whole result |
| ResultChunks.Assembler.constructor | internal/pump/pump.go:243-247 | starts empty |
| ResultChunks.Assembler.AddContent | internal/pump/pump.go:1349-1354 | the running check refuses exactly when the total passes the limit |
| ResultChunks.Assembler.Add | internal/pump/pump.go:1324-1366 | each chunk's effect, its completion and every refusal |
| ResultChunks.AwaitingIff | internal/pump/pump.go:1324-1366 | more is awaited if and only if the chunks so far are consecutive, consistent, within the limit and unfinished, and then all of them are kept |
| ResultChunks.CompleteIff | internal/pump/pump.go:1324-1366 | a result completes at a chunk if and only if the chunks are a cutting of a rectangular result under the limit |
| ResultChunks.AssembledIffWithinLimit | internal/pump/pump.go:1324-1385 | a rectangular result, however it is cut, is assembled if and only if its names, texts and blobs together with sixteen bytes for each value that is not null and one for each that is come to at most 32 MiB |
| ResultChunks.ContentIs | internal/pump/pump.go:1368-1385 | the weight of values is their texts and blobs, sixteen bytes for each value that is not null, and one for each that is |
| ResultChunks.MisplacedChunkRejected | internal/pump/pump.go:1325-1331 | a missing, repeated or reordered chunk is refused where it arrives |
| ResultChunks.AnyCuttingAssembles | internal/pump/pump.go:1324-1366 | however a rectangular result is cut, its chunks assemble to the same columns, values and counters |
| ResultChunks.DecodeRowAt | rivet/sqlite.go:679-687 | the inner loop decodes one row or fails on a bad value |
| ResultChunks.DecodeSqliteRows | rivet/sqlite.go:666-690 | the outer loop yields whole rows, and fails exactly on ragged or invalid input |
| ResultChunks.RowsIff | rivet/sqlite.go:666-714 | whatever the values, they decode to a given table if and only if they are whole rows and each carries its cell; without columns, to the empty table if and only if there are none |
| ResultChunks.RowsRecovered | rivet/sqlite.go:666-690 | the rows come out as they went in if and only if there are columns or no rows |
| ResultChunks.TableSurvivesChunking | rivet/sqlite.go:666-714 | a table of cells comes back unchanged through any cutting into chunks |
| ActorKeys.TwoPassesEscape | rivet/client.go:521-522 | the two replacement passes escape character by character |
| ActorKeys.SerializeActorKey | rivet/client.go:511-525 | the loop prints every segment, the empty ones and the empty key included |
| ActorKeys.DeserializeActorKey | rivet/client.go:528-569 | the character loop is the modelled parser |
| ActorKeys.KeyRoundTrip | rivet/client.go:511-569 | every key is read back from its text |
| ActorKeys.DanglingBackslash | rivet/client.go:528-569 | a backslash that escapes nothing is kept as part of the last segment |
| ActorKeys.SerializeIsInjective | rivet/client.go:511-525 | distinct keys have distinct texts |

## Left out

- Native library loading, the C ABI and the foreign-function layer: calls into code outside this model.
- SQLite itself and statement execution; in the worker model a command is an opaque window, and an interrupt issued inside it counts as reaching it.
- The remote store's own implementation: commits are assumed atomic, answers complete, and a commit reported as failed is assumed not applied.
- Capacity eviction from the page caches and page numbers beyond 32 bits; the protected page cache is consulted by the code but never filled, so it is always empty here.
- The prefetch predictor, the recent-page tracker and preload range coalescing: the predicted pages of a fetch are an arbitrary set, so nothing proved depends on them.
- The first page that reads of a fresh database make up before its first commit is treated as a stored page; auxiliary files (journals) are not modelled.
- Memory ordering other than the worker's own store buffer; unwinding of a command that panics.
- Correlation.AnswersReachNoOther: ends at the close and excludes removals of sent requests; Correlation.AnswerGoesAstrayIff is the exact condition beyond both.
- Key-value, queue and schedule waiters are the table of `Correlation` under another name and have no members of their own.
- TurnOwnership: yields and keep-awake calls are those made by the turn's owner.
- WebSockets: connection ids are not reused within a generation, and a hibernate submission that fails stops the poll loop.
- StopOrder: the abort path of a stopping pump, which submits no stop result, and the bounded capacity of the queue.
- The handshake, the error payloads and the frame header of socket responses (`decodeHello`, `decodeResponse`, `versionedDecoder`), and socket framing.
- Text is a sequence of bytes in the codecs and of characters in the actor keys; keys that are not valid UTF-8 are outside the model.
- HTTP, scheduling, connection-state and registry wrappers, metrics, logging, hooks and retry timing: pass-through code that would only add easy members.
