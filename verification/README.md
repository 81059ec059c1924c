# Model of the striper, its lock, and four neighbours

This project models five parts of the repository and proves properties of them. `dafny verify dfyconfig.toml`
checks all of it.

**A flat file in many objects** (`Rados`, `Striping`, `Ioctx`, `StriperState`, `Striper`, `Session`,
`UnseenFailures`, `Encoding`). `SimpleRADOSStriper` cuts a file into objects of 4 MB, queues writes and attribute
updates asynchronously, and keeps size, allocation and version in attributes of the first object. The model has a
pool of objects, each with a queue of operations that have been submitted but have not ended. Between any two steps
of the client the cluster may end any number of them, in order on each object and in any order across objects, each
either applied as a whole or failed and not applied. Class `Striper` has the fields and methods of the source;
`Valid()` says that every pending operation is on the queue or abandoned and every failed one is on a list of what was
queued, looked at, reported, waited for or abandoned, that the remembered failure is the first one found since the last
report, that the stored attributes are those in memory once everything landed if nothing failed, that no extent
dangles in any pool state that can come about if no removal and no update of the allocation failed, and that the
objects hold the flat file `flat` if nothing failed. Every operation keeps its record in the log of its object, so
that the lists can be read as operations. Ghost fields record what the theorems depend on: `popped` (operations that
non-blocking drains took off the queue since the last report), `story` (what was reported, taken off by blocking
drains, waited for one by one, or abandoned after a refused removal), `landed` (none of those waited for one by one
failed), `bounded` (every request fitted the growth rule), `dense` (no write or truncate left a gap) and `told` (some
call returned an error or a short count). The pool's history is kept, so that crash safety is a statement about all
states passed through; refused requests and failed reads are counted, so that every error has a reason. `Window` is
what a flush reports after any sequence of calls; `Session` and `Relay` put it together for whole runs of one client,
its reads among them, and of any number of clients one after the other.

**The lock** (`LockProtocol`, `LockKeeper`, `SqliteLocks`). Any number of clients run `lock()`, `recover_lock()` and
`unlock()` step by step against one lock with a lease, an owner attribute, monitors that keep a blocklist by epoch with
entries that expire, and storage daemons that learn epochs from requests and from each other. The keeper that renews
the lease is a timed machine. SQLite's lock levels sit on top, first for one file and then joined with the protocol.

**Mapping a block device** (`KrbdMap`, `Glob`): the poll loop, the matching of udev events, and the escaping of names
in patterns.

**Histograms** (`Histogram`, `HistogramAxis`) over any number of axes in one linear array of 64-bit counters.

**The inode cache of the tracing file system** (`InodeOrder`, `InodeGraph`, `InodeCache`): objects that point at
each other, with their links as a value in `InodeGraph`. `SqlitePath` has the paths that name databases.

Assumed of the cluster: operations on one object end in the order they were queued, whole or not at all; return codes
are not positive; a missing object is reported only where there is none. Assumed of the lock: clients have distinct
addresses; the switch that turns blocklisting off is not used; requests of a recovery that was given up do not arrive
later; a daemon shares its map with a client whose map is older; an owner that unlocks has nothing under way, which
flush() sees to (`Flush`) unless a removal was refused earlier and the ones before it were abandoned.

Where the code does not do what one would expect of it, the code is modelled, with an input or a run that shows it and,
wherever an equivalence is named below, the exact condition:

- Waiting for an operation returns 0 however the operation ended (src/librados/AioCompletionImpl.h:61-65, as
  src/include/rados/librados.h:1915-1926 says), though the striper treats it as the code of the operation. So flush()
  can return 0 although an operation failed, exactly if one of those did that were waited for (`Window`, `Flush`), and
  with data lost (`LostByte`); a failed growth or removal goes unseen and can leave an extent dangling (`GrowthLost`,
  `Write`, `ShrinkAlloc`, `Remove`), and a failed read is an empty one (`Read`).
- Growth is computed from the current size, not from the size asked for. A large enough request is not covered and
  leaves an extent dangling, and growth can lower the allocation (`GrowthCoversExactly`, `GrowthFallsShort`, `Write`).
  The comments in the source promise that no extent dangles.
- Reads do not fill gaps, so a file written with gaps is not a flat file (`ReadFullExactly`, `SparseWriteMovesUp`).
- Recovery sets the owner without looking again. Owners that were never blocklisted are named at all times exactly if
  it never takes the attribute from one of them (`RunNamedExact`, `SetOwnerExact`), which holding the lock ensures
  (`HeldIsUncontested`) and losing the lease can break (`RecoveryNeedsItsLease`).
- Blocklist entries expire, after which a client that lost the file is let in again (`ExpiryLetsIn`).
- An update that fails goes unseen. The version that is handed over is the last owner's exactly if its last update did
  not fail (`CleanHandOff`, `FailureBreaksHandOff`).
- Fencing covers the attributes from the moment the owner is set, but data only on daemons that know the new map
  (`RefusedExactly`): a write of the old owner can land in the new one's turn (`LateDataLands`), though not on an
  object that the new one has touched (`StaleWritesRefused`).
- That the wait for the latest map succeeds is not looked at either; mutual exclusion does not depend on it, fencing
  does (`RunNamedExact`, `StepKeeps`).
- `lock()` can fail with the lock taken, after which a database file can never be locked again (`CouplingExact`,
  `BrokenForGood`).
- Attribute values are printed as unsigned and parsed as signed numbers (`NumberRoundTrip`).
- The loop over the children of an inode that is unlinked uses each name after it was freed (`UnlinkExact`,
  `WayBackSurvives`). A lookup can overwrite the index entry of an inode in use (`LookupMiss`); renaming an entry onto
  itself drops it (`RenamedEntries`); two parents with one number clash (`AddDentryExact`, `RenamedExact`); forgetting
  an unknown number leaves a null entry (`Forget`, `AddInode`); a re-stat can change a number (`RenumberLinked`).
- A name with a backslash is not matched by its own escaped form (`EscapeExact`).
- Bucket numbers and ranges can leave 64 bits for axes that are accepted (`GetRawSize`, `GetBucketForAxis`,
  `GetAxisBucketRanges`). The counters of a histogram are not cleared at construction, so counts are stated from the
  first reset on.
- In the bracket expressions of the path patterns a `-` between a class and a character is read as a literal.

## Model

| member | source | states |
|---|---|---|
| Striping.NextExtent | src/SimpleRADOSStriper.cc:99-113 | a piece lies in one object, starts at the offset asked for, is not empty unless the request is, and stops short of the request only at the end of its object |
| Striping.ExtentsTile | src/SimpleRADOSStriper.cc:458-469 | the pieces of a byte range tile it: the first starts at its start, each next one at the start of the next object, the last ends at its end |
| SimpleRadosStriper.LengthOfExtents | src/SimpleRADOSStriper.cc:490-501 | the pieces of a range add up to its length |
| SimpleRadosStriper.CutRange | src/SimpleRADOSStriper.cc:490-501 | the loop that cuts a read yields just that tiling |
| Striping.GrownAlloc | src/SimpleRADOSStriper.cc:397-404 | a grown allocation is a whole number of objects, 128 MB to 132 MB beyond the current size |
| Striping.GrowthCoversExactly | src/SimpleRADOSStriper.cc:397-404 | growth covers a request if and only if it ends within the old allocation or within 128 MB of the rounded current size; then growth never lowers the allocation |
| Striping.GrowthFallsShort | src/SimpleRADOSStriper.cc:397-404 | two requests that growth does not cover, one of which lowers the allocation |
| Striping.ShrinkSettles | src/SimpleRADOSStriper.cc:345-366 | shrinking is idempotent, never cuts into the file, and bounds the slack by 256 MB above the rounded size; the allocation of a file that is not empty is kept if and only if it is within that bound |
| StriperState.FirstFailureIsFirst | src/SimpleRADOSStriper.cc:159-182 | the remembered code is 0 exactly if every operation ended well, and otherwise is the code of the earliest one that did not |
| RadosClient.Ioctx.WaitForComplete | src/librados/AioCompletionImpl.h:61-65 | waiting ends when the operation has ended and never says how: the answer is 0, with whatever landed or failed meanwhile |
| StriperState.QueuePop | src/SimpleRADOSStriper.cc:161-180 | taking an ended operation off the queue, looking at it or not, keeps the remembered failure equal to the first failure of all that were looked at, and keeps every pending and every failed operation accounted for |
| StriperState.InvEvolves | src/SimpleRADOSStriper.cc:159-182 | whatever queued operations land, in whatever interleaving across objects and with whatever failures, the striper invariant and the content relation hold on |
| SimpleRadosStriper.Striper.PopFront | src/SimpleRADOSStriper.cc:161-180 | the loop body takes the oldest operation off; only one that was not waited for can leave its code, and only the first to fail does |
| SimpleRadosStriper.Striper.WaitForAios | src/SimpleRADOSStriper.cc:159-182 | a blocking call empties the queue and leaves the remembered failure as it was; a non-blocking one splits the queue, in order, into what it looked at and what is left, and leaves at the front only what has not ended; a failure once remembered stays |
| SimpleRadosStriper.Striper.Drain | src/SimpleRADOSStriper.cc:198-203 | the code returned is that of the first failure among the operations that non-blocking drains took off since the last report, and it is reported once; afterwards nothing is in flight if and only if every abandoned removal has ended |
| SimpleRadosStriper.Striper.Flush | src/SimpleRADOSStriper.cc:184-204 | if the update of the size is refused nothing is forgotten; otherwise, whatever the code, the first failure found since the last report is returned and forgotten, all the rest was waited for, the size is up to date and an extent dangles if and only if an object lies beyond the allocation; so the code is an error only for a refusal or a failure found before; after success with no earlier error an operation has failed if and only if one did that was waited for; the stored version is the one in memory if and only if the last update did not fail; if nothing failed the attributes and the flat file are stored |
| SimpleRadosStriper.Striper.RecordSize | src/SimpleRADOSStriper.cc:191-196 | the size in the attributes is brought up to date if it was not, or the request is refused; nothing known of earlier operations is lost |
| StriperState.NothingLost | src/SimpleRADOSStriper.cc:184-204 | with an empty queue nothing is in flight if and only if every abandoned removal has ended; then the stored version is the one in memory if and only if the last update did not fail, and attributes and file are stored if no operation failed |
| StriperState.VersionExact | src/SimpleRADOSStriper.cc:384-442 | on the first object at rest, the version that is stored is the one in memory if and only if the last update did not fail, however many before it did |
| StriperState.FailuresKnown | src/SimpleRADOSStriper.cc:159-204 | an operation has failed if and only if one did that is queued, was looked at, was reported, was waited for or was abandoned: none gets lost in any run |
| StriperState.CleanExact | src/SimpleRADOSStriper.cc:184-204 | with an empty queue and no error ever returned, an operation has failed if and only if one did that was waited for |
| StriperState.FailureUnclean | src/SimpleRADOSStriper.cc:167-176 | a remembered failure is that of an operation which failed |
| StriperState.LandedExact | src/SimpleRADOSStriper.cc:286-343 | as long as requests fit and no removal was abandoned, none of the operations waited for one by one failed if and only if no removal and no update of the allocation in the whole pool did |
| UnseenFailures.LostByte | src/SimpleRADOSStriper.cc:159-204 | a run in which flush returns 0 and the one byte of the file is lost, while the stored size says that it is there |
| UnseenFailures.HarmlessFailure | src/SimpleRADOSStriper.cc:159-204 | a run in which a write fails and the file is stored all the same: that nothing failed is enough, but not needed |
| UnseenFailures.LandedExactly | src/SimpleRADOSStriper.cc:161-180 | an object at rest that takes one operation which would change it is changed if and only if that operation did not fail |
| RadosClient.SteadyEvolves | src/SimpleRADOSStriper.cc:286-343 | a pool in which no extent dangles whatever lands next stays one as things land: a crash at any point is safe |
| RadosClient.NoDanglingExact | src/SimpleRADOSStriper.cc:422-431 | what counts as no dangling extent holds of a pool if and only if no sequence of landings and failures leads to a stored object beyond the stored allocation |
| StriperState.SteadyWrite | src/SimpleRADOSStriper.cc:452-469 | queueing a write below the allocation that the attributes show, or into the first object, keeps the pool free of dangling extents |
| StriperState.SteadyXattrs | src/SimpleRADOSStriper.cc:411-431 | queueing an attribute update that does not lower the allocation does so too |
| StriperState.SteadyShrink | src/SimpleRADOSStriper.cc:308-331 | lowering the allocation does so once the objects above it are gone |
| StriperState.RemovalDone | src/SimpleRADOSStriper.cc:308-313 | a removal that ended without a failure, or found nothing, leaves no object and nothing queued that could bring it back |
| StriperState.RemovalsDone | src/SimpleRADOSStriper.cc:308-313 | once all removals have ended nothing is queued on their objects, and if none failed they are gone |
| StriperState.LeftBehind | src/SimpleRADOSStriper.cc:308-331 | an object that stays behind dangles as soon as the lowered allocation is on its way |
| UnseenFailures.GrowthLost | src/SimpleRADOSStriper.cc:416-431 | a run in which the update that grows the allocation fails, memory says that it has grown, and a byte that fits dangles |
| StriperState.XattrsWaited | src/SimpleRADOSStriper.cc:416-431 | an awaited attribute update either is in place or has left the attributes as they were; it never half applies |
| SimpleRadosStriper.Striper.SubmitRemoves | src/SimpleRADOSStriper.cc:289-306 | on success every object from the new end up to the allocation has a removal queued, none twice and none below |
| SimpleRadosStriper.Striper.AwaitRemoves | src/SimpleRADOSStriper.cc:308-313 | all removals have ended; the objects are gone if none of them failed, which is not noticed otherwise |
| SimpleRadosStriper.Striper.UpdateXattrs | src/SimpleRADOSStriper.cc:315-331 | queue and wait: memory takes the update over however it ended, and if it failed the attributes go on showing the old allocation |
| SimpleRadosStriper.Striper.ShrinkAlloc | src/SimpleRADOSStriper.cc:286-343 | allocation and version move unless a request is refused, in which case the removals so far are abandoned; from a state in which no extent dangles, one does afterwards, or did on the way, if and only if an object is left beyond the new allocation |
| SimpleRadosStriper.Striper.ReplaceAlloc | src/SimpleRADOSStriper.cc:315-342 | an update that changes the allocation is waited for and taken over however it ended; if it failed the attributes go on showing the old allocation |
| SimpleRadosStriper.Striper.LowerAlloc | src/SimpleRADOSStriper.cc:315-342 | the second half, which lowers the allocation whether or not the objects have gone |
| SimpleRadosStriper.Lowered | src/SimpleRADOSStriper.cc:292-331 | the value-level form of that equivalence |
| SimpleRadosStriper.Striper.MaybeShrinkAlloc | src/SimpleRADOSStriper.cc:345-366 | success leaves the settled allocation, bumps the version exactly if that is a change, and leaves an extent dangling if and only if an object is left beyond it |
| SimpleRadosStriper.Striper.QueueXattrs | src/SimpleRADOSStriper.cc:411-434 | an update that keeps the allocation is queued without waiting, with the memory it describes |
| SimpleRadosStriper.Striper.GrowXattrs | src/SimpleRADOSStriper.cc:416-431 | an update that raises the allocation has ended before the call returns success; if it failed, memory has the new allocation and the attributes show the old one |
| SimpleRadosStriper.Striper.SendXattrs | src/SimpleRADOSStriper.cc:416-434 | the update is waited for if and only if it changes the allocation, and otherwise joins the queue |
| SimpleRadosStriper.Striper.PushMetadata | src/SimpleRADOSStriper.cc:411-440 | memory afterwards is the one the update describes, or the old one if the update was refused |
| SimpleRadosStriper.Striper.Settle | src/SimpleRADOSStriper.cc:435-439 | with the size taken over, the file is cut to it and the allocation follows |
| SimpleRadosStriper.Striper.CommitSize | src/SimpleRADOSStriper.cc:411-440 | a size is recorded, the file is cut to it and the allocation settles; a refusal leaves the old file or the new one |
| SimpleRadosStriper.Striper.SetMetadata | src/SimpleRADOSStriper.cc:384-442 | success leaves the grown or settled allocation, the new size and the file cut to it; a refusal leaves the old file or the resized one; without growth an extent dangles if and only if an object is left beyond the allocation; with a failed growth the attributes show the old allocation; no report is made and nothing known of earlier operations is lost |
| StriperState.ContentWrite | src/SimpleRADOSStriper.cc:459-469 | queueing one more piece turns a pool that holds the file with the first bytes spliced in into one that holds it with the next piece spliced in too |
| StriperState.ContentRemove | src/SimpleRADOSStriper.cc:296-306 | removing an object beyond the end of the file does not touch the file |
| SimpleRadosStriper.PieceWritten | src/SimpleRADOSStriper.cc:459-469 | the same for the whole invariant, for any landings and failures in between |
| SimpleRadosStriper.Striper.SubmitPiece | src/SimpleRADOSStriper.cc:459-468 | one piece is queued, and the pool with it is among the states that a crash may leave, or it is refused |
| SimpleRadosStriper.Striper.SubmitWrites | src/SimpleRADOSStriper.cc:458-469 | what joins the queue is, in order, the pieces of the data cut at object boundaries, up to the first refusal, and they splice in exactly a prefix of the data; the count is short if and only if a request was refused; an extent dangles if one of them lies past the allocation that the attributes show |
| SimpleRadosStriper.Striper.QueueData | src/SimpleRADOSStriper.cc:458-469 | the file is the one with the data spliced in, and a short count counts as a reported error |
| SimpleRadosStriper.Striper.ExtendSize | src/SimpleRADOSStriper.cc:471-477 | a non-blocking drain and then the new size: the queue is split in order, no remembered failure is lost, and the size is out of date exactly if it was or the file grew |
| SimpleRadosStriper.Striper.WriteAllocated | src/SimpleRADOSStriper.cc:458-478 | the file is the one with the data spliced in, nothing that was queued, found or remembered is lost, and an extent dangles if the data reaches past the allocation that the attributes show |
| SimpleRadosStriper.Striper.Reserve | src/SimpleRADOSStriper.cc:452-456 | a write that outgrows the allocation first has it grown; the file and its size stay as they are |
| SimpleRadosStriper.Striper.Write | src/SimpleRADOSStriper.cc:444-480 | the flat file becomes the one with the data spliced in, and what joined the queue for it is exactly the pieces of the data that the count covers, whatever has failed before; the count is short or negative if and only if a request was refused; the oldest operation left on the queue has not ended; nothing that was queued, found, remembered or waited for before is lost or reported; from a state in which no extent dangles, a write queued in full leaves none dangling, now or at any crash point, if and only if it fitted the growth rule, or, when the growth failed unseen, if and only if it stays in the first object; the flag that decides between the two is set if no removal and no update of the allocation failed, and only if, as long as requests fit and no call returned an error |
| SimpleRadosStriper.Striper.Store | src/SimpleRADOSStriper.cc:452-480 | the same of a striper that is not blocklisted, from the growth of the allocation on |
| SimpleRadosStriper.Striper.Fill | src/SimpleRADOSStriper.cc:458-480 | the same once the allocation was grown, or was to be |
| SimpleRadosStriper.SentMore | src/SimpleRADOSStriper.cc:459-469 | each round of the write loop queues the next piece, and the pieces left are those of the rest of the range |
| SimpleRadosStriper.SentAll | src/SimpleRADOSStriper.cc:458-469 | all of the data is on its way if and only if there is an operation for each piece |
| SimpleRadosStriper.PieceDangles | src/SimpleRADOSStriper.cc:459-469 | a piece queued past the allocation that the attributes show dangles |
| SimpleRadosStriper.WriteEnds | src/SimpleRADOSStriper.cc:397-404 | a request that does not fit ends past the allocation that growth chooses; one that outgrows the old allocation ends past that, unless it stays in the first object |
| SimpleRadosStriper.Striper.Truncate | src/SimpleRADOSStriper.cc:143-157 | success leaves the file cut to the length, its size recorded and the settled allocation; the call fails if and only if a request was refused, and that leaves one of the two files; when cut within the allocation an extent dangles if and only if an object is left beyond it; nothing known of earlier operations is lost |
| SimpleRadosStriper.Striper.Read | src/SimpleRADOSStriper.cc:482-515 | the call fails if and only if a request was refused; otherwise the bytes are what is stored in each piece once everything queued there has ended, one after the other, whatever has failed, a failed or missing object counting as empty; inside a file written without gaps or errors, with nothing failed, they are just that part of the file |
| SimpleRadosStriper.Striper.ReadPieces | src/SimpleRADOSStriper.cc:502-511 | the loop over the pieces, up to the first refusal |
| SimpleRadosStriper.PieceRead | src/SimpleRADOSStriper.cc:504-511 | one more piece read continues what the pieces before it yield, whether or not its read failed, and the objects read before have not changed since |
| SimpleRadosStriper.ReadFullExactly | src/SimpleRADOSStriper.cc:503-514 | a read is full if and only if every byte of the range is there |
| SimpleRadosStriper.CollectedInside | src/SimpleRADOSStriper.cc:490-514 | on a pool that holds a file, what the pieces of an inner range collect is that range of the file |
| SimpleRadosStriper.SparseWriteMovesUp | src/SimpleRADOSStriper.cc:503-511 | after a write behind a gap a read yields the byte at the wrong place: why the flat-file reading needs writes without gaps |
| SimpleRadosStriper.Striper.Remove | src/SimpleRADOSStriper.cc:115-141 | a remembered failure is returned and nothing is removed; otherwise the call fails only if a request was refused or with the code of the removal of the first object; on success the first object is gone, and nothing of the file is left, and nothing is queued that could bring it back, if and only if no extent dangled on the way |
| SimpleRadosStriper.Striper.RemoveFirst | src/SimpleRADOSStriper.cc:132-136 | the removal of the first object, and what it decides |
| SimpleRadosStriper.FirstRemoved | src/SimpleRADOSStriper.cc:132-136 | with the first object removed last, what is left is what was left of the others |
| StriperState.AllGone | src/SimpleRADOSStriper.cc:132-136 | removing the first object last leaves nothing at all |
| StriperState.CreatedIsHandover | src/SimpleRADOSStriper.cc:218-241 | a freshly created file is fit to be opened, as the empty file |
| StriperState.FlushedIsHandover | src/SimpleRADOSStriper.cc:184-204 | a file flushed without any error is fit to be opened, as that file |
| StriperState.Resumes | src/SimpleRADOSStriper.cc:243-284 | reading the attributes of such a pool re-establishes the whole invariant for that same file |
| SimpleRadosStriper.Striper.constructor | src/SimpleRADOSStriper.h:41-49 | a striper starts with an empty memory |
| SimpleRadosStriper.Striper.Open | src/SimpleRADOSStriper.cc:243-284 | on success memory is what the attributes say; a file that was handed over is resumed as it was left; the call fails if and only if there is no first object or the request is refused |
| StriperSession.MakeCall | src/SimpleRADOSStriper.cc:143-204 | one call of a session moves file, allocation and pending size as the plan says, or reports an error, which it does only if a request was refused or an operation has failed; a read inside the file yields that part of the planned file if nothing failed |
| StriperSession.MakeFlush | src/SimpleRADOSStriper.cc:184-204 | the same of a flush |
| StriperSession.MakeCalls | src/SimpleRADOSStriper.cc:143-515 | so does any sequence of calls up to the first error, and all its reads |
| StriperSession.NearIsRegular | src/SimpleRADOSStriper.cc:397-404 | whatever the allocation is, calls fit that start inside the file and reach at most 128 MB past its end |
| StriperSession.AliveSafe | src/SimpleRADOSStriper.cc:286-331 | if no removal and no update of the allocation failed, no state passed through had a dangling extent |
| StriperSession.Session | src/SimpleRADOSStriper.cc:243-515 | open, any sequence of calls without gaps that fit the growth rule, flush: it succeeds if no request is refused and no operation fails, and only if none is refused; every pool state ever passed through is free of dangling extents if no removal and no update of the allocation failed; every read inside the file returned just that part of it if nothing failed, however the session ends; on success nothing is in flight, and if besides no operation failed the pool is handed over with exactly the flat file and the allocation that the calls describe |
| StriperSession.AnyCall | src/SimpleRADOSStriper.cc:143-157 | a write, a truncate or a read, with whatever result, loses nothing of what was queued, found, remembered, reported or waited for |
| StriperSession.FailingFound | src/SimpleRADOSStriper.cc:167-176 | a call that looks at what has ended finds every failure on the queue that has nothing unfinished ahead of it |
| StriperSession.Window | src/SimpleRADOSStriper.cc:159-204 | from any valid state, any sequence of calls with whatever results and then a flush: it returns the first failure among all that was found to have ended since the last report and clears it, unless the size update is refused, when nothing is lost; a failure that was on the queue with nothing unfinished ahead of it makes it return an error if one of the calls was a write that went through; when it returns 0 with no error ever returned, an operation has failed if and only if one did that was waited for |
| StriperSession.Relay | src/SimpleRADOSStriper.cc:659-772 | any number of clients, one after the other: no extent ever dangled if no removal and no update of the allocation failed; if no request is refused and nothing fails, all take their turn, and the file and its allocation in the end are what all their calls make of it, turn by turn |
| StriperSession.Leave | src/SimpleRADOSStriper.cc:184-204 | the last flush of a session that went well hands the file over |
| Encoding.ObjectNameIs | src/SimpleRADOSStriper.cc:103-108 | the name of an object is that of the file, a dot and sixteen lower-case hexadecimal digits that stand for the stripe |
| Encoding.ObjectNamesDiffer | src/SimpleRADOSStriper.cc:103-108 | equal object names mean the same file and the same stripe, for all stripe numbers below 2^64 |
| Encoding.NumberTextIs | src/SimpleRADOSStriper.cc:375-382 | an attribute value is printed in decimal, with zeros in front up to sixteen digits and none beyond |
| Encoding.NumberRoundTrip | src/SimpleRADOSStriper.cc:375-382 | a printed attribute value is parsed back if and only if it is below 2^63; any larger one is rejected |
| Encoding.ValueOfText | src/SimpleRADOSStriper.cc:375-382 | digits in any base up to 16 stand for the number they were printed from |
| Encoding.ValuePadded | src/SimpleRADOSStriper.cc:375-382 | padding with zeros does not change the value |
| Encoding.TextLength | src/SimpleRADOSStriper.cc:103-108 | a number below base^n has at most n digits, so a padded stripe number has a fixed width |
| LockProtocol.FastPathKeeps | src/SimpleRADOSStriper.cc:685-718 | the compound lock, compare and set keeps the protocol invariant, however it ends |
| LockProtocol.TakeLockKeeps | src/SimpleRADOSStriper.cc:584-591 | taking the lock in a recovery keeps it |
| LockProtocol.ReadOwnerKeeps | src/SimpleRADOSStriper.cc:595-615 | reading the last owner keeps it, with the owner found, missing or unreadable |
| LockProtocol.BlocklistKeeps | src/SimpleRADOSStriper.cc:617-641 | adding the last owner to the blocklist keeps it |
| LockProtocol.ChangeKeeps | src/mon/OSDMonitor.cc:12600-12605 | a client put on the blocklist keeps it, and so does an entry that expires, unless it is that of an owner |
| LockProtocol.SealedLater | src/mon/OSDMonitor.cc:12600-12605 | an entry that has not expired since is on every later list |
| LockProtocol.FetchMapKeeps | src/SimpleRADOSStriper.cc:642-644 | after waiting for the map, requests of the recovering client carry an epoch at which the last owner is blocklisted |
| LockProtocol.SetOwnerKeeps | src/SimpleRADOSStriper.cc:646-656 | setting oneself as the owner while holding the lock keeps it |
| LockProtocol.OwnKeeps | src/SimpleRADOSStriper.cc:685-696 | a client may become the owner when the last owner is fenced off from the first object |
| LockProtocol.OpenKeeps | src/SimpleRADOSStriper.cc:725-728 | reading the attributes keeps it, also when that is refused |
| LockProtocol.DeliverKeeps | src/SimpleRADOSStriper.cc:411-431 | an attribute update arriving at the first object, accepted or refused, keeps it |
| LockProtocol.FailKeeps | src/SimpleRADOSStriper.cc:418-434 | an update that fails unseen keeps it |
| LockProtocol.FailingTracks | src/SimpleRADOSStriper.cc:411-434 | when the oldest of several updates fails, each attribute that a later one carries will still be what memory says, and the version will be if and only if there is a later one |
| LockProtocol.UnlockKeeps | src/SimpleRADOSStriper.cc:755-764 | giving the lock back keeps it: stored is what the owner had in memory, as far as the last update of each attribute did not fail |
| LockProtocol.UnlockExact | src/SimpleRADOSStriper.cc:755-764 | unlock() gives back lock and owner attribute, both or neither: if and only if the client is not refused and still has both; otherwise nothing changes hands |
| LockProtocol.TurnPasses | src/SimpleRADOSStriper.cc:659-772 | from every state in which an owner has flushed, is not refused and still has lock and attribute, its unlock() and the next client's lock() make that client the holder and named owner, with what is stored in memory, and no lease has to run out |
| LockProtocol.NextTakes | src/SimpleRADOSStriper.cc:685-728 | a file that nobody has is taken and opened by the next client that was never blocklisted, on the fast path |
| LockProtocol.TriesOn | src/SimpleRADOSStriper.cc:685-718 | a client that was never blocklisted fails to take the lock if and only if it already has it, goes on trying if and only if another has it, and recovers if and only if the lock is free and an owner is named |
| LockProtocol.RetriesOn | src/SimpleRADOSStriper.cc:584-593 | in a recovery it takes the lock if and only if that is free, and starts over if and only if another has it |
| LockProtocol.Recovers | src/SimpleRADOSStriper.cc:577-657 | a client that was never blocklisted gets through a whole recovery of an abandoned lock: the old owner is blocklisted, and it is holder and named owner with what is stored in memory |
| LockProtocol.Arrives | src/SimpleRADOSStriper.cc:458-469 | data that is not refused lands, once |
| LockProtocol.StepKeeps | src/SimpleRADOSStriper.cc:577-772 | every step of every client and of the cluster, failing updates among them, keeps the invariant, if the owner is set by who holds the lock, no wait for a map fails, and no blocklist entry of an owner expires |
| LockProtocol.RunKeeps | src/SimpleRADOSStriper.cc:577-772 | so does every run of such steps |
| LockProtocol.StepNamedExact | src/SimpleRADOSStriper.cc:646-656 | one step of anybody: every owner that was never blocklisted stays named by the owner attribute if and only if the step does not take the attribute from such an owner |
| LockProtocol.RunNamedExact | src/SimpleRADOSStriper.cc:577-772 | whole runs, whatever expires and fails: such owners are named at all times if and only if no step takes the attribute from one of them |
| LockProtocol.SetOwnerExact | src/SimpleRADOSStriper.cc:646-656 | a recovering client that was never blocklisted sets the owner and leaves at most one owner that was never blocklisted if and only if the attribute did not name another one |
| LockProtocol.StepClaims | src/SimpleRADOSStriper.cc:577-772 | what a recovering client that holds the lock can rely on is kept by every step, however leases and entries expire and whatever fails, if the owner is set by who holds the lock |
| LockProtocol.HeldIsUncontested | src/SimpleRADOSStriper.cc:577-657 | in every run in which recoveries set the owner while they hold the lock, they take it from nobody but blocklisted owners |
| LockProtocol.MutualExclusion | src/SimpleRADOSStriper.cc:577-736 | in every run in which nobody takes the attribute from an owner that was never blocklisted, at most one such client owns the file, and the owner attribute names it |
| LockProtocol.StaleWritesRefused | src/SimpleRADOSStriper.cc:642-650 | whatever another client still has on its way to an object the owner has touched is refused there, as long as no owner's blocklist entry expires and no wait for a map fails |
| LockProtocol.LateDataRefused | src/SimpleRADOSStriper.cc:642-650 | data of a client that is not named is refused by every daemon that has come as far as that of the first object, under the same condition |
| LockProtocol.RefusedExactly | src/SimpleRADOSStriper.cc:642-650 | who was blocklisted once is refused by a daemon if and only if that daemon knows, or learns from the request, the map that says so |
| LockProtocol.LateDataLands | src/SimpleRADOSStriper.cc:577-657 | a run in which nothing fails or expires and the lock is held, and a write of the old owner to an object that the new one has not touched is let in after the new one has become owner |
| LockProtocol.StaleUpdatesRefused | src/SimpleRADOSStriper.cc:642-655 | every attribute update of anybody but the named owner is refused, under the same condition |
| LockProtocol.CleanHandOff | src/SimpleRADOSStriper.cc:738-772 | with an empty owner attribute, no update that is under way can change what is stored, and a client that was never blocklisted has neither updates nor data under way; the stored version is the one the last owner had in memory if and only if its last update did not fail, and size and allocation are if the last update of each did not fail |
| LockProtocol.SmoothHandOff | src/SimpleRADOSStriper.cc:738-772 | over every such run in which no update fails, an empty owner attribute means that exactly what the last owner had in memory is stored |
| LockProtocol.OnlyOwnerStores | src/SimpleRADOSStriper.cc:642-655 | the stored attributes change by an update of the named owner and by nothing else; data is another matter |
| LockProtocol.FastPathResumes | src/SimpleRADOSStriper.cc:685-728 | who gets the lock on the fast path finds the version that the last owner left in memory if and only if the last update of that one did not fail, and all of it if none of its last updates did |
| LockProtocol.HalfRecovery | src/SimpleRADOSStriper.cc:577-644 | a client can always get half-way through a recovery of an abandoned lock, with the old owner blocklisted |
| LockProtocol.RecoveryNeedsItsLease | src/SimpleRADOSStriper.cc:584-657 | a run in which a lease ends during a recovery and two clients that were never blocklisted own the file |
| LockProtocol.ExpiryLetsIn | doc/rados/api/libcephsqlite.rst:324-326 | a run in which a blocklist entry expires and the update of a client that lost the file is accepted |
| LockProtocol.FailureBreaksHandOff | src/SimpleRADOSStriper.cc:738-764 | a run in which the last update of a turn fails unseen and the next client finds another version and size |
| LockKeeper.StepOnTime | src/SimpleRADOSStriper.cc:547-575 | from the answer to the lock request on, under the timing condition each step of the keeper, its waits and its requests leaves the lease unexpired |
| LockKeeper.EarlyBound | src/SimpleRADOSStriper.cc:554-557 | with a clock that moves in steps, a wake-up that finds it too early for a renewal comes at most the slip after the last one |
| LockKeeper.EarlyExact | src/SimpleRADOSStriper.cc:554-557 | and it can come that late, when the clock had just moved on |
| LockKeeper.RunOnTime | src/SimpleRADOSStriper.cc:547-575 | so does every run, and the keeper never stops |
| LockKeeper.WorstCase | src/SimpleRADOSStriper.cc:553-573 | one run of the keeper that loses the lease exactly if the condition fails |
| LockKeeper.LeaseBoundExact | src/SimpleRADOSStriper.cc:547-575 | the lease never lapses in any run if and only if the timing condition holds |
| LockKeeper.StopsExactly | src/SimpleRADOSStriper.cc:558-570 | in every run the keeper stops, and for good, if and only if a renewal comes after the lease has run out, and a lease that has run out is never renewed |
| LockKeeper.DefaultsExact | src/SimpleRADOSStriper.h:122-123 | with renewals every 2 s, leases of 30 s and any clock step that divides 2 s, the lease never lapses if and only if lateness and two round trips add up to at most 26 s and 1 ns |
| SqliteLocks.StepCoupled | src/libcephsqlite.cc:209-251 | one call keeps the striper locked exactly while a level is held, and no assertion fires, unless lock() fails with the lock taken |
| SqliteLocks.StepLevel | src/libcephsqlite.cc:209-251 | a call that returns Ok leaves the level asked for and any other leaves the old one; it returns Ok if and only if the striper is not needed or does its part |
| SqliteLocks.LevelIsLast | src/libcephsqlite.cc:209-251 | after any calls the level is the one that was granted last |
| SqliteLocks.BrokenForGood | src/libcephsqlite.cc:215-223 | after that every attempt to raise the level aborts and nothing repairs it |
| SqliteLocks.CouplingExact | src/libcephsqlite.cc:209-251 | over whole runs of legal calls level and striper lock are in step if and only if no lock() failed with the lock taken |
| SqliteLocks.SqliteFile.constructor | src/libcephsqlite.cc:166-174 | a file starts without a level and without the lock |
| SqliteLocks.SqliteFile.Lock | src/libcephsqlite.cc:209-229 | the method does what the step of the state machine says, with its assertions as aborts |
| SqliteLocks.SqliteFile.Unlock | src/libcephsqlite.cc:231-251 | likewise |
| SqliteLocks.SqliteFile.CheckReservedLock | src/libcephsqlite.cc:253-272 | in any state that a run of all databases leads to, the answer of a client that was never blocklisted and has at least a shared level says whether any such client of the whole cluster has a level above shared |
| SqliteLocks.OwnerStays | src/SimpleRADOSStriper.cc:738-764 | no step of the protocol but the client's own unlock takes ownership away |
| SqliteLocks.MoveKeeps | src/libcephsqlite.cc:209-251 | every step of a database or of the protocol keeps it that a level comes with ownership |
| SqliteLocks.MovedLevels | src/libcephsqlite.cc:209-251 | every step leaves the level it asked for, a release none if and only if unlocking worked, in which case the lock is free, and nobody else's level changes |
| SqliteLocks.MovesKeep | src/libcephsqlite.cc:209-251 | the same over whole runs |
| SqliteLocks.ReservedIsGlobal | src/libcephsqlite.cc:253-272 | a level above shared excludes every other client that was never blocklisted from one, over whole runs of levels and lock protocol |
| SqlitePath.ParseIsMatch | src/libcephsqlite.cc:382-398 | parsing yields a location if and only if one of the two patterns matches with those groups, so a path has at most one reading |
| SqlitePath.PatternsDisjoint | src/libcephsqlite.cc:384-385 | no pool is matched by both patterns |
| SqlitePath.ParseFormat | src/libcephsqlite.cc:382-398 | the printed form of any acceptable location, behind any number of slashes, is parsed back to it |
| SqlitePath.SlashesIgnored | src/libcephsqlite.cc:384-385 | slashes in front make no difference |
| SqlitePath.FullPathnameExact | src/libcephsqlite.cc:661-686 | a path is accepted if and only if one of the patterns matches it and its printed form is shorter than the buffer, and then the answer is that form; it is unknown if and only if none matches |
| SqlitePath.FullPathnameCanonical | src/libcephsqlite.cc:661-686 | the canonical path stands for the same place, is its own canonical path, fits where it fitted before, and does not depend on the slashes in front |
| SqlitePath.CanonicalIffSame | src/libcephsqlite.cc:661-686 | two accepted paths have the same canonical path if and only if they name the same place |
| KrbdMap.MatchedMeans | src/krbd.cc:350-358 | the mapping is complete if and only if some event added the image and some event, before or after it, added its device node |
| KrbdMap.MatchedStays | src/krbd.cc:359-395 | further events never undo that, so the first yes comes with the earliest event that completes it |
| KrbdMap.CandidatesFirst | src/krbd.cc:371-383 | gathering only candidates loses nothing: the first gathered device with a node is the first of all events with it |
| KrbdMap.UdevMapHandler.constructor | src/krbd.cc:346-348 | a handler starts with nothing seen |
| KrbdMap.UdevMapHandler.Gather | src/krbd.cc:359-376 | the image device is the first matching event; until it is seen all candidates are kept, in order |
| KrbdMap.UdevMapHandler.Handle | src/krbd.cc:359-395 | the answer after any sequence of events is yes if and only if the mapping is complete, and then the numbers are those of the earliest event for the node; the two assertions hold if and only if they agree with those of the image device |
| KrbdMap.ReadEvents | src/krbd.cc:320-345 | the events of one round are handled up to the first that completes the match; the answer is 0 if and only if one does, and then the handler has the numbers, or else the error behind them |
| KrbdMap.WaitForMapping | src/krbd.cc:283-347 | whatever the order of the answers: not mapped if and only if the first answer of the kernel is an error, which is the one reported; mapped if and only if that is 0 and the udev side has ended, with 0 if some prefix of the events matched before any error and then with the numbers of the device, or else with the error; aborted if and only if the kernel's answer is positive and the udev side has ended; waiting if and only if an answer that is needed is missing, and then polling just for what is |
| Glob.EscapeExact | src/krbd.cc:618-623 | an escaped name, as a pattern of section 2.13 of the POSIX Shell Command Language, matches that name and no other string if and only if it has no backslash |
| Glob.EscapedMatchesItself | src/krbd.cc:618-623 | without a backslash the pattern matches exactly the name |
| Glob.BackslashBreaks | src/krbd.cc:618-623 | with a backslash the pattern does not even match the name, also behind further backslashes |
| Glob.BracketedMatches | src/krbd.cc:621-622 | a special character between brackets matches just itself |
| Histogram.GetRawSize | src/perf_histogram.h:161-168 | the loop computes the number of counters, and stays within 64 bits if and only if that number does |
| Histogram.IndexShift | src/perf_histogram.h:190-205 | the running index of the recursion is the start times the size of the remaining axes plus the index among them |
| Histogram.IndexInRange | src/perf_histogram.h:190-205 | every tuple of valid buckets has a counter |
| Histogram.TupleOfIndex | src/perf_histogram.h:190-205 | the buckets can be recovered from the index: no two tuples share a counter |
| Histogram.IndexOfTuple | src/perf_histogram.h:190-205 | every counter belongs to some tuple |
| Histogram.IndexIsLexicographic | src/perf_histogram.h:190-205 | counters are ordered as their tuples are, lexicographically |
| Histogram.VisitValues | src/perf_histogram.h:207-226 | the traversal, with 32-bit indices, visits every counter of the block once and in order, and enters and leaves axes in a balanced way |
| Histogram.TallyInc | src/perf_histogram.h:119-124 | one more tuple counted changes the counter of that tuple and no other |
| Histogram.PerfHistogram.constructor | src/perf_histogram.h:77-92 | there is one counter per tuple; their values are not set |
| Histogram.PerfHistogram.Reset | src/perf_histogram.h:104-110 | afterwards the counters stand for no inputs |
| Histogram.PerfHistogram.IncBucket | src/perf_histogram.h:119-124 | the counters stand for one input more, or the call aborts exactly if a bucket is negative or too large |
| Histogram.PerfHistogram.ReadBucket | src/perf_histogram.h:126-131 | the value is how often that tuple was counted since the reset, modulo 2^64, or the call aborts exactly if a bucket is negative or too large |
| Histogram.SumOutExact | src/perf_histogram.h:66-72 | summing exact counts over the axes one is not interested in gives the counts of the projected inputs |
| Histogram.SumOutIsProjection | src/perf_histogram.h:66-72 | the same for the stored counters, modulo 2^64, for any choice of axes |
| HistogramAxis.QuantsIncrease | src/common/perf_histogram.cc:59-67 | bucket ends never decrease |
| HistogramAxis.GetBucketForAxis | src/common/perf_histogram.cc:69-91 | the bucket of a value is in range, and it is the one whose printed range the value is in, on both scales; it is computed within 64 bits if and only if the distance to the minimum is, and on a logarithmic scale there are at most 64 buckets or the distance is below 2^62 quanta |
| HistogramAxis.Log2Bucket | src/common/perf_histogram.cc:82-88 | the same of the loop over logarithmic buckets |
| HistogramAxis.BucketUnique | src/common/perf_histogram.cc:93-121 | no value is in two ranges |
| HistogramAxis.BucketWidths | src/common/perf_histogram.cc:59-121 | buckets follow each other without a gap from the least to the greatest value; the inner ones of a linear scale are one quantum wide, and on a logarithmic scale each from the second on is as wide as all before it together |
| HistogramAxis.GetAxisBucketRanges | src/common/perf_histogram.cc:93-121 | the printed ranges are those of the buckets, also with one or two buckets; they are computed within 64 bits if and only if the end of the last bucket but one is |
| HistogramAxis.RangesAre64Bit | src/common/perf_histogram.cc:93-121 | in that case every printed number is one of 64 bits |
| InodeOrder.FirstKey | fusetrace/fusetrace_ll.cc:94-98 | the beginning of an ordered map is its least key by name, then by number |
| InodeGraph.DetachLinked | fusetrace/fusetrace_ll.cc:135-147 | dropping an entry keeps every entry matched by a way back and vice versa |
| InodeGraph.AttachLinked | fusetrace/fusetrace_ll.cc:156-157 | adding an entry keeps that if and only if the child does not already list another parent under the same name and number |
| InodeGraph.AddDentryExact | fusetrace/fusetrace_ll.cc:149-158 | adding in place of an old entry keeps links consistent if and only if the child may be listed there |
| InodeGraph.AddDentryRanked | fusetrace/fusetrace_ll.cc:149-158 | and keeps the order of inodes |
| InodeGraph.LiftRanked | fusetrace/fusetrace_ll.cc:884-887 | a link to an inode that is not above the directory closes no cycle: a new order fits |
| InodeGraph.CycleUnranked | fusetrace/fusetrace_ll.cc:884-887 | a link to an inode that is above the directory leaves no order at all: a cycle |
| InodeGraph.WayBackSurvives | fusetrace/fusetrace_ll.cc:171-173 | any child of any unlinked inode may go on listing it, as the name under which its way back is looked for has been freed |
| InodeGraph.UnlinkExact | fusetrace/fusetrace_ll.cc:160-173 | unlinking is sure to leave no link of an inode, whatever is found in place of freed names, if and only if the inode has no entries |
| InodeGraph.BareUnlinked | fusetrace/fusetrace_ll.cc:164-173 | for an inode without entries the loop over its parents is all it takes |
| InodeGraph.RemoveAlone | fusetrace/fusetrace_ll.cc:183-192 | such an inode can go, and nothing that stays points at it |
| InodeGraph.RenamedEntries | fusetrace/fusetrace_ll.cc:884-887 | exactly two entries change in a rename, the old one going last: renaming an entry onto itself drops it |
| InodeGraph.RenamedExact | fusetrace/fusetrace_ll.cc:884-887 | a rename keeps links consistent if and only if the inode may be listed at its new place |
| InodeGraph.RenamedRanked | fusetrace/fusetrace_ll.cc:884-887 | and keeps the order of inodes |
| InodeGraph.RenumberLinked | fusetrace/fusetrace_ll.cc:263-266 | a re-stat that finds another number keeps links consistent if and only if the inode has no entries |
| InodeGraph.ChainResolves | fusetrace/fusetrace_ll.cc:92-107 | following the names of an inode's path from the root leads to that inode |
| InodeGraph.JoinedInjective | fusetrace/fusetrace_ll.cc:96-98 | different ways give different path strings |
| InodeCache.Cache.constructor | fusetrace/fusetrace_ll.cc:1148-1153 | the cache starts sound and with a complete index, with the root alone |
| InodeCache.Cache.RemoveDentry | fusetrace/fusetrace_ll.cc:135-147 | the entry goes, and the way back goes that is listed under what the name reads as by then; with a name of its own both ends of one link go and nothing else changes |
| InodeCache.Cache.AddDentry | fusetrace/fusetrace_ll.cc:149-158 | both ends of one link come, after both ends of the old one went |
| InodeCache.Cache.DropParents | fusetrace/fusetrace_ll.cc:164-169 | the loop leaves the graph as it was without the links into this inode |
| InodeCache.Cache.DropChildren | fusetrace/fusetrace_ll.cc:171-173 | the loop drops every entry once and, for each, a way back under an unknown name |
| InodeCache.Cache.UnlinkInode | fusetrace/fusetrace_ll.cc:160-181 | nothing is open on the inode and its links are dropped as the two loops do; if it had no entries the graph is the old one without any link of it |
| InodeCache.Cache.RemoveInode | fusetrace/fusetrace_ll.cc:183-192 | the inode leaves the index; if it had no entries the cache stays sound and no inode that stays mentions it |
| InodeCache.Cache.Forget | fusetrace/fusetrace_ll.cc:308-324 | the inode goes exactly if its references are used up, soundly if it had no entries; all other references stay; an unknown number leaves a null entry in the index |
| InodeCache.Cache.AddInode | fusetrace/fusetrace_ll.cc:194-213 | a number in use is reused, a new one gets a new inode, and there is no result exactly if the index holds a null entry; the cache stays sound unless an inode with entries is reused |
| InodeCache.Cache.Reuse | fusetrace/fusetrace_ll.cc:199-210 | the inode left over is unlinked and listed at its new place only, if it had no entries |
| InodeCache.Cache.Create | fusetrace/fusetrace_ll.cc:204-207 | a new inode keeps the cache sound; the index stays complete if and only if it was and the number is new |
| InodeCache.Cache.Rename | fusetrace/fusetrace_ll.cc:880-891 | the graph is the renamed one; the cache stays sound if and only if the inode may be listed at its new place, which a complete index guarantees |
| InodeCache.Cache.Link | fusetrace/fusetrace_ll.cc:935-940 | one more entry and one more reference; the cache stays sound if and only if the inode may be listed there, which a complete index guarantees |
| InodeCache.Cache.Unlink | fusetrace/fusetrace_ll.cc:801-807 | the cache stays sound with one entry less, or as it was if the name was not cached |
| InodeCache.Cache.LookupMiss | fusetrace/fusetrace_ll.cc:276-291 | the cache stays sound; its index stays complete if and only if it was and the number was not in use |
| InodeCache.Cache.MakeInodePath | fusetrace/fusetrace_ll.cc:92-107 | in every sound cache, also one with an incomplete index, a path is found if and only if there is a way from the inode, by the first key of the parents of each, to the root with no parents; the path is the base directory and the names of those keys from the root down, and they lead back to the inode |
| InodeGraph.AscendsChain | fusetrace/fusetrace_ll.cc:92-107 | there is at most one such way, and its names are those that the recursion collects |

## Left out

- Histogram.PerfHistogram.IncBucket: counters wrap, but the concurrency of atomic increments is not modelled.
- Histogram.VisitValues: asks that the counters can be indexed by 32 bits, as the traversal in the source does; beyond that the source overflows.
- SimpleRadosStriper.Striper.Write: offsets and sizes are unbounded, so sums beyond 2^64 are not modelled.
- SimpleRadosStriper.Striper.Truncate: for a growing truncate only size, allocation and the absence of dangling extents are stated, not the content of the gap.
- SimpleRadosStriper.Striper.Read: the pieces are read one by one rather than all requested first; no write of this client comes in between either way.
- SimpleRadosStriper.Striper.Open: attributes are read as numbers; that their text form is lossless is `NumberRoundTrip`.
- SimpleRadosStriper.Striper.Remove: not part of the lock protocol, where the first object is never removed.
- StriperSession.Relay: takes it for granted that nothing of an earlier client lands in a later turn. The lock ensures that for the attributes (`OnlyOwnerStores`), and for data after an orderly unlock (`CleanHandOff`), but after a recovery only on daemons that know the new map (`LateDataRefused`, `LateDataLands`); the two are not joined in one machine.
- LockProtocol.StepKeeps: several addresses of one client are one, and the retry with the older spelling of the blocklist command is the same step.
- KrbdMap.ReadEvents: a failed assertion in the handler is recorded there and does not end the loop, as it would end the program.
- KrbdMap.WaitForMapping: the sentinel INT_MAX is an absent answer, and the loop is over the rounds of poll given to it.
- InodeCache.Cache.AddInode: attributes other than the number, and references to inodes held by the kernel, are not modelled.
- InodeCache.Cache.LookupMiss: the number of an inode does not change in the class; a lookup hit that re-stats and finds another one is `RenumberLinked` on the graph.
- lock(), unlock() and the lock keeper as methods of class `Striper`: they are steps of the protocol machine instead, and `Session` leaves through flush().
- Opening, sizing, reading and writing a database through the SQLite file system layer, with its zero fill of short reads.
- Performance counters, logging, print_lockers, dumping to a formatter.
- Counting histogram values rather than buckets, which only composes two operations that are here.
- Unmapping, sysfs writes and udev enumeration in the block device client; only the pattern escaping used there is here.
- System calls, permissions and trace output of the tracing file system.
- The internals of the object store, its monitors and its object classes.
- All other parts of the repository.
