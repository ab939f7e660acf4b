# OxenDB: a verified model

OxenDB is a transactional page store with a redo-only write-ahead log. This project models the part of
it that keeps the data safe, down to the bytes in its two files, and proves what it promises:
commits are atomic and durable whatever crashes, failing system calls and thread schedules do in
between, readers see one fixed state, and the page cache never shows anything but the last published
contents of a page.

`dafny verify dfyconfig.toml` checks the whole project.

## How it is built

The modules follow the source, from the bottom up.

- `Bytes`, `Crc32c`, `CrcPowers`, `Pages`, `FileHeader`, `WalRecord`, `WalLog`: the formats. Everything
  is bytes; checksums are the real CRC32C (section 12.1 of RFC 3720).
- `DataFile`, `Fsync`, `Wal`: the two files as a crash may leave them. Between two fsyncs the data file is
  the list of its contents after each write; a crash leaves any byte-wise mixture of them. After an fsync
  that failed, a later one that succeeds makes only those pages durable that were written again since.
  An unsynced log batch survives as whole records from its front followed by bytes that are not the next
  record; a reset survives with its truncation, its header write, both or neither.
- `Recovery`, `Store`: replay, and the logical database that commits are applied to.
- `Engine`: the whole engine as a step machine. One event is one effect that a crash, a failing call or
  another thread could fall in front of; checking the poison flag and taking a lock are two events. The
  death of the process (`Kill`) and the loss of power (`PowerLoss`) are different events.
- `DiskInvariant`, `EngineInvariant`, `OpenSteps`, `CacheSteps`, `CommitSteps`, `CheckpointSteps`: one
  invariant over files, log, memory and history, and the proof that every event keeps it.
- `CrashSafety`, `Isolation`: the main theorems over whole runs.
- `Runs`, `Races`, `Restarts`, `Traces`: four schedules under which a promise fails, each as a concrete
  run, and for each the exact condition under which it does not.
- `Clock`, `BufferPool`, `Pool`, `Sharding`, `Disk`, `WalHandle`: the page cache, the file handles and
  the log handle as the classes they are, methods, loops and error paths included.
- `PoolRefinement`: what sequences of calls of the page cache do to file and dirty pages are runs of the machine.
- `PoolThreads`, `PoolSafety`, `PoolClients`, `PoolContents`: the page cache under any number of threads,
  each lock acquisition its own step; then the same under the locks of the database, and with the bytes
  of every frame and of the file.
- `Database`, `Transactions`, `Opening`, `Creation`: the database handle, its transactions, checkpoints,
  opening and creation as imperative code. Each method records the machine's steps it takes, so that
  every theorem about runs speaks about every sequence of calls, and about a crash in the middle of any
  of them.

## What holds only with a side condition

Some promises of the documentation do not hold as stated; the code is modelled as it is.

- A checkpoint checks the poison flag before it waits for the log lock, and not again after
  (`crates/oxendb/src/db/mod.rs:177-181`). Two things can go wrong in between.
  A commit may fail partway through publishing: the checkpoint then flushes what was published and
  empties the log, which held the only copy of the rest (`Traces.CheckpointRace`).
  Or another checkpoint's fsync may fail: the pages it wrote are marked clean, so this checkpoint skips
  them and empties the log although they may never have reached the disk (`Traces.FsyncRace`, in which an
  acknowledged commit is lost).
  `Races.CheckpointExact` gives the one condition for both: whatever happens after the lock is taken,
  nothing is lost if and only if the log is itself poisoned, and so refuses the reset, or every committed page
  was at that moment in the cache, or in the file with no failed fsync putting it in question, and the
  flushed file is long enough. `Races.HalfKept` and `Races.SuspectKept` spell the condition out for the
  two cases; `CheckpointSteps.HealthyFlushKeeps` shows that a database that is not poisoned meets it.
- A read transaction checks the flag before it takes the publish lock, and not again after
  (`crates/oxendb/src/db/txn.rs:37-47`); it may then be given a half-published state
  (`Traces.ReaderRace`). `Isolation.ReaderExact` says exactly when it still sees the state before the
  commit, `Isolation.ReaderSeesCommit` exactly when it sees the state with it. In either case its view
  does not change while it is open (`Isolation.StableReads`).
- When the process dies, and the kernel lives on, with a complete batch written to the log and not
  fsynced, reopening reads the batch, does not fsync the log, since nothing was cut off
  (`crates/oxendb/src/storage/wal/log.rs:128-135`), and starts writing its pages. Losing power before the
  log is reset may lose the log record of pages already half written (`Traces.RestartRace`).
  `Restarts.RestartExact` says exactly when nothing can be lost. Without a power loss such a restart
  always ends with the commit applied (`Restarts.RestartApplies`).
- Creating a database is not atomic. A crash before the data file's first fsync, or between making the log
  file and its fsync, may leave a file that every later open refuses and nothing removes.
  `Creation.EmptyFileBlocks` is such a case; `Creation.CreationExact` says exactly when that is so.
- A change inside four consecutive bytes that straddles the end of a checksum field can keep the checksum
  right. On a page only the check of the type then refuses it (`Pages.StraddlePassesChecksum`). On a log
  record it can produce the same record under another sequence number (`WalRecord.StraddleExists`), and
  nothing else (`WalRecord.DamageExact`); a reader, which expects a particular number, still refuses it.

The runs of the main theorems exclude exactly two events (`EngineInvariant.Safe`): a checkpoint that takes
the log lock where `Races.CheckpointExact` says data can be lost, and a power loss that takes away the
unsynced records of a commit which a restart has begun to write, over pages the log cannot put back.
Everything else is in them, in particular the reopening after a commit that returned an error.

## What is assumed of the environment

- A successful fsync makes everything written since the last fsync durable, if no fsync of that file has
  failed since the machine came up. After a failed one, each unsynced write may or may not have survived,
  and an fsync that succeeds later settles only the pages written again in full since the failure.
  Until the machine crashes, reads return what was last written.
- An fsync of the log vouches for records behind others only if those are durable: records found at opening
  that were never fsynced by this process stay in doubt until the log is reset.
- The fsync after a log reset makes the new header and the truncation durable, also after an earlier
  failure: both are written again just before it.
- Bytes left of an unsynced log record are not, under the sequence number expected there, another record
  (`Wal.Damage`). `Wal.CutIsDamage` proves this for every cut of the batch and `Wal.BurstIsDamage` for
  every change inside four bytes; for arbitrary damage it is a hypothesis. Likewise such bytes do not pass
  for a record under the number in a new header (`Wal.Stale`); behind a durable record this is proved
  (`Wal.RecordsAreStale`).
- `set_len` and the 24-byte log header write are each atomic.
- Failing system calls are parameters: the environment chooses what fails and which mixture is left.
- Transaction ids, sequence numbers and page counts do not run out; preconditions say so.

## Model

| member | source | states |
|---|---|---|
| `Crc32c.BuildTables` | crates/oxendb/src/storage/checksum/mod.rs:22-50 | the nested loops fill the eight tables: entry `b` of table `k` is `b` put through `8 * (k + 1)` single-bit steps of the reflected polynomial |
| `Crc32c.EntryIsByteThenZeros` | crates/oxendb/src/storage/checksum/mod.rs:17-20 | that entry is the checksum register after feeding byte `b` and then `k` zero bytes |
| `Crc32c.UpdateBytewise` | crates/oxendb/src/storage/checksum/mod.rs:53-58 | the table loop equals the bit-by-bit register for every seed and input |
| `Crc32c.SliceStep` | crates/oxendb/src/storage/checksum/mod.rs:63-74 | eight table lookups equal feeding the eight bytes one by one |
| `Crc32c.UpdateSlice8` | crates/oxendb/src/storage/checksum/mod.rs:61-76 | slicing-by-8, remainder included, equals the byte-at-a-time update for every seed and every input |
| `Crc32c.UpdateConcat` | crates/oxendb/src/storage/checksum/mod.rs:91-94 | feeding data in pieces at any split gives the one-shot register |
| `Crc32c.UpdateLinear` | crates/oxendb/src/storage/checksum/mod.rs:53-58 | the update is linear over XOR in seed and input together |
| `Crc32c.UpdateInjective` | crates/oxendb/src/storage/checksum/mod.rs:53-58 | different registers stay different whatever is fed next |
| `Crc32c.ChecksumLinear` | crates/oxendb/src/storage/checksum/mod.rs:109-113 | the checksums of two equal-length inputs differ by what the difference of the inputs feeds into a zero register |
| `CrcPowers.ShiftsIsProduct` | crates/oxendb/src/storage/checksum/mod.rs:22-50 | advancing the register by k bits multiplies it, as a polynomial modulo the CRC polynomial, by what k bits do to the unit |
| `Crc32c.DetectsBurst` | crates/oxendb/src/storage/checksum/mod.rs:109-113 | equal-length inputs that differ only inside four consecutive bytes never share a checksum, at any length and position |
| `Crc32c.Hasher.Feed` | crates/oxendb/src/storage/checksum/mod.rs:91-94 | the hasher's state is the register of everything fed so far |
| `Crc32c.Hasher.Finalize` | crates/oxendb/src/storage/checksum/mod.rs:97-99 | the result is the checksum of everything fed, however it was split |
| `Crc32c.Crc32cOf` | crates/oxendb/src/storage/checksum/mod.rs:109-113 | the one-shot call computes the checksum |
| `Crc32c.StandardCheckValue` | crates/oxendb/src/storage/checksum/mod.rs:118-122 | the standard check value of the nine digits |
| `Pages.Seal` | crates/oxendb/src/storage/page.rs:145-148 | sealing in place writes the checksum field and nothing else |
| `Pages.CreatePage` | crates/oxendb/src/storage/page.rs:115-120 | a new page is zero but for type and id |
| `Pages.SealedVerifies` | crates/oxendb/src/storage/page.rs:145-189 | a sealed page verifies as `id` exactly when its owner left type, reserved bytes and id intact |
| `Pages.VerifiedIsSealed` | crates/oxendb/src/storage/page.rs:154-170 | whatever verifies is a sealed page: sealing it again changes nothing |
| `Pages.VerifyExact` | crates/oxendb/src/storage/page.rs:154-189 | a page verifies as `id` with a given header if and only if it is sealed, well formed for `id`, and type and LSN are those in its bytes |
| `Pages.VerifyRefuses` | crates/oxendb/src/storage/page.rs:154-189 | which error every other page gets: damage before an unknown type, that before set reserved bytes, and a sound page of another id last, each exactly |
| `Pages.SealIdempotent` | crates/oxendb/src/storage/page.rs:145-148 | sealing twice is sealing once, for every page |
| `Pages.NewPageVerifies` | crates/oxendb/src/storage/page.rs:115-170 | a new page, sealed, verifies with its type, its id and LSN 0 |
| `Pages.ZeroedIsRejected` | crates/oxendb/src/storage/page.rs:286-290 | a page of zeros verifies as no page |
| `Pages.BurstRejected` | crates/oxendb/src/storage/page.rs:154-170 | a verified page changed inside any four consecutive bytes verifies as no page; unless the change straddles the end of the checksum field, it is a checksum mismatch |
| `Pages.BurstMismatch` | crates/oxendb/src/storage/page.rs:154-160 | a change inside the checksum field, or inside four bytes behind it, never keeps the checksum right, for every page whose checksum was right |
| `Pages.StraddlePassesChecksum` | crates/oxendb/src/storage/page.rs:154-170 | every verified page has a change of type byte and three checksum bytes that the checksum does not notice; only the type check refuses it |
| `Pages.FlipRejected` | crates/oxendb/src/storage/page.rs:264-277 | every single-bit flip of every verified page is a checksum mismatch, whatever page is expected |
| `FileHeader.RoundTrip` | crates/oxendb/src/storage/file_header.rs:48-94 | decoding an encoded header gives the page count back, and refuses zero, for every count |
| `FileHeader.DecodeExact` | crates/oxendb/src/storage/file_header.rs:61-94 | a page decodes as the header of `n` pages if and only if `n` is not zero, the checksum is right and bytes 4 to 27 are those the encoder writes for `n`; the rest of the page is free |
| `FileHeader.DecodeRefuses` | crates/oxendb/src/storage/file_header.rs:61-94 | which error every other page gets: foreign magic first, then a wrong checksum, then version, page size and zero count, each exactly |
| `FileHeader.OtherFormatsRejected` | crates/oxendb/src/storage/file_header.rs:140-168 | a header with any version, page size and count and the checksum that goes with them is refused for the first that is wrong, and accepted if none is |
| `FileHeader.EncodedAt` | crates/oxendb/src/storage/file_header.rs:48-58 | the bytes the encoder writes, literally, and zeros behind them |
| `FileHeader.EncodeInjective` | crates/oxendb/src/storage/file_header.rs:48-58 | headers of different page counts differ |
| `FileHeader.BurstRejected` | crates/oxendb/src/storage/file_header.rs:61-94 | a valid header changed inside any four consecutive bytes is refused |
| `FileHeader.EncodeInto` | crates/oxendb/src/storage/file_header.rs:48-58 | filling the fields one after another and then the checksum produces the header page |
| `WalRecord.EncodeOnto` | crates/oxendb/src/storage/wal/record.rs:89-107 | appending to any buffer and patching the checksum in place appends the record's encoding |
| `WalRecord.DecodeOfEncoded` | crates/oxendb/src/storage/wal/record.rs:89-149 | every record decodes back to itself, with its sequence number, whatever follows it |
| `WalRecord.EncodedOfDecode` | crates/oxendb/src/storage/wal/record.rs:110-149 | any bytes accepted re-encode to exactly those bytes |
| `WalRecord.CutIsIncomplete` | crates/oxendb/src/storage/wal/record.rs:110-122 | every proper prefix of an encoded record is Incomplete, never Invalid |
| `WalRecord.IncompleteExact` | crates/oxendb/src/storage/wal/record.rs:110-122 | bytes are Incomplete if and only if they are fewer than four, or start with one of the two lengths and are fewer than that record has |
| `WalRecord.DamageRejected` | crates/oxendb/src/storage/wal/record.rs:123-130 | a record changed inside four consecutive bytes is Invalid, unless they start in the first byte or straddle the end of the checksum field |
| `WalRecord.DamageExact` | crates/oxendb/src/storage/wal/record.rs:110-149 | a record changed inside any four consecutive bytes decodes exactly when they straddle the end of the checksum field and the result is the same record under another sequence number; never under its own |
| `WalRecord.StraddleExists` | crates/oxendb/src/storage/wal/record.rs:123-130 | there are such changes: the commit records of any transaction under numbers 5 and 55 |
| `WalRecord.ByteChangeRejected` | crates/oxendb/src/storage/wal/record.rs:123-130 | changing any one byte behind the length field makes the record Invalid |
| `WalRecord.FlipRejected` | crates/oxendb/src/storage/wal/record.rs:231-246 | every single-bit flip of every encoded record, length field included, is Invalid |
| `WalLog.HeaderRoundTrip` | crates/oxendb/src/storage/wal/log.rs:231-258 | the log header decodes to its first sequence number, whatever follows |
| `WalLog.HeaderOfDecode` | crates/oxendb/src/storage/wal/log.rs:242-258 | accepted header bytes are the encoding of what they decode to |
| `WalLog.HeaderBytes` | crates/oxendb/src/storage/wal/log.rs:231-239 | the 24 bytes of the log header, literally |
| `WalLog.HeaderRefuses` | crates/oxendb/src/storage/wal/log.rs:242-258 | which error every other start of a file gets: too short or foreign, then a wrong checksum, then another version, each exactly |
| `WalLog.ScanEncoded` | crates/oxendb/src/storage/wal/log.rs:99-126 | consecutively numbered records are all read, and reading goes on behind them |
| `WalLog.ScanFactors` | crates/oxendb/src/storage/wal/log.rs:99-126 | any buffer splits into the encoding of the records read and a rest that does not continue them |
| `WalLog.WholeRecordsLongest` | crates/oxendb/src/storage/wal/log.rs:317-347 | the records that end at or before a cut are the longest prefix whose encoding fits |
| `WalLog.ScanOfCutRecords` | crates/oxendb/src/storage/wal/log.rs:99-126 | scanning a log cut anywhere finds exactly those records, and ends clean exactly when the cut is between records |
| `WalLog.OpenOfCut` | crates/oxendb/src/storage/wal/log.rs:93-148 | opening a log cut at any byte at or behind the header keeps exactly the longest prefix of whole records and discards the rest |
| `WalLog.OpenFactors` | crates/oxendb/src/storage/wal/log.rs:93-148 | whatever opens is a header, the records returned, and a tail of the length reported as discarded |
| `WalLog.ReopenChangesNothing` | crates/oxendb/src/storage/wal/log.rs:128-135 | opening the truncated file again finds the same records and discards nothing |
| `WalLog.StaleRecordsRejected` | crates/oxendb/src/storage/wal/log.rs:197-199 | behind a header with a later sequence number no old record is read |
| `Wal.CutIsDamage` | crates/oxendb/src/storage/wal/log.rs:166-184 | a batch cut at any byte is whole records followed by bytes that are not the next record, with no assumption about checksums |
| `Wal.BurstIsDamage` | crates/oxendb/src/storage/wal/log.rs:166-184 | so is a batch in which any one record is changed inside any four consecutive bytes, whatever follows it |
| `Wal.ScanOfDamage` | crates/oxendb/src/storage/wal/log.rs:99-126 | of a batch damaged in that way only a prefix is ever read |
| `Wal.SurvivorOpens` | crates/oxendb/src/storage/wal/log.rs:93-148 | every file a crash can leave of a log opens, and yields the durable records plus at most a prefix of the unsynced ones |
| `Wal.ResetIsAllOrNothing` | crates/oxendb/src/storage/wal/log.rs:188-209 | whatever a crash keeps of a reset, the log opens to all the old records or to none |
| `Wal.RecordsAreStale` | crates/oxendb/src/storage/wal/log.rs:197-199 | under a header naming another first number a log with a durable record yields none of its records |
| `Wal.KernelOpens` | crates/oxendb/src/storage/wal/log.rs:93-148 | as long as the machine lives, opening the file finds the durable and all whole unsynced records, or during a reset those or none |
| `Wal.AfterCrashValid` | crates/oxendb/src/storage/wal/log.rs:93-148 | what a crash left is again a well-formed log with a leftover tail |
| `WalHandle.Handle.Create` | crates/oxendb/src/storage/wal/log.rs:69-85 | a new log is a header and nothing else, once all its calls have succeeded |
| `WalHandle.Handle.Append` | crates/oxendb/src/storage/wal/log.rs:152-159 | queues one record under the next number; refuses on a poisoned log; the file is untouched; also on a log just opened whose records are not all durable |
| `WalHandle.Handle.Flush` | crates/oxendb/src/storage/wal/log.rs:166-184 | on success the queued records are durable behind durable ones, and behind records not known to be durable they are in the file but no surer than those; with none queued nothing happens; on any failure the log is poisoned and what stood before plus at most a prefix of the queued records is readable; the bytes of the file, the durable length and the numbering in every case |
| `WalHandle.Handle.Reset` | crates/oxendb/src/storage/wal/log.rs:188-209 | empties the log keeping the numbering; refuses with records pending; a failure poisons and leaves all or nothing |
| `WalHandle.OpenFile` | crates/oxendb/src/storage/wal/log.rs:93-148 | the scan loop returns exactly what `Open` specifies, refuses what it refuses, cuts the file there and is ready to append; a failing truncation, or a failing fsync after it, is reported, and no handle given out |
| `WalHandle.KeptLog` | crates/oxendb/src/storage/wal/log.rs:128-135 | what is kept after cutting opens to the same records, discards nothing, and is one of the contents a crash may leave |
| `DataFile.OpenOfHeader` | crates/oxendb/src/storage/disk.rs:56-81 | a file holding a header and long enough for its count opens with that count |
| `DataFile.OpenExact` | crates/oxendb/src/storage/disk.rs:56-81 | a file opens with count `n` if and only if it starts with a header of `n` pages and is at least that long |
| `DataFile.OpenRefuses` | crates/oxendb/src/storage/disk.rs:56-81 | too small exactly below one page; too short exactly with a valid header that names more than there is |
| `DataFile.ReadBack` | crates/oxendb/src/storage/disk.rs:115-122 | a verified page standing in the file inside the page count reads back |
| `DataFile.ReadExact` | crates/oxendb/src/storage/disk.rs:115-122 | a read returns a page if and only if it lies inside the count, stands in the file and verifies |
| `DataFile.ReadRefuses` | crates/oxendb/src/storage/disk.rs:115-122 | which error every other read gets: outside the count, past the end of the file, or what the page there fails to verify with |
| `DataFile.WriteKeeps` | crates/oxendb/src/storage/disk.rs:125-136 | writing one page leaves every other page as it was |
| `DataFile.TornKeeps` | crates/oxendb/src/storage/disk.rs:105-142 | a page on which all unsynced versions agree survives every byte-wise mixture of them |
| `Disk.DiskManager.Create` | crates/oxendb/src/storage/disk.rs:39-53 | a new file is the header page of a database of one page, once all its calls have succeeded |
| `Disk.DiskManager.Attach` | crates/oxendb/src/storage/disk.rs:56-81 | a file that passes the checks is opened with the page count its header names |
| `Disk.DiskManager.SetPageCount` | crates/oxendb/src/storage/disk.rs:93-102 | grows the count, refuses to shrink it, writes nothing |
| `Disk.DiskManager.WriteAt` | crates/oxendb/src/storage/disk.rs:125-136 | one positional write: every earlier version stays possible and the new one joins them; no other page changes; a failure leaves a mixture in that page alone |
| `Disk.DiskManager.WriteFileHeader` | crates/oxendb/src/storage/disk.rs:105-112 | writes the header of the current count and touches no other page; a failure leaves a mixture |
| `Disk.DiskManager.ReadPage` | crates/oxendb/src/storage/disk.rs:115-122 | returns a page only if it lies inside the count, verifies and stands in the file |
| `Disk.DiskManager.WritePage` | crates/oxendb/src/storage/disk.rs:125-136 | refuses page 0, pages past the count and misdirected pages; else seals in place and writes; no other page changes; a failure leaves a mixture |
| `Disk.WriteGoes` | crates/oxendb/src/storage/disk.rs:125-136 | a write succeeds if and only if the page is a data page inside the count, names its own id, and the system call succeeds |
| `Disk.DiskManager.Sync` | crates/oxendb/src/storage/disk.rs:139-142 | success makes the current contents the only possible ones, unless an earlier fsync failed: then each earlier version stays possible with the pages written since in place; failure leaves all versions possible and nothing sure |
| `Fsync.SyncedSure` | crates/oxendb/src/storage/wal/log.rs:163-165 | after a failed fsync a later successful one makes durable what was written again since, and what all versions agree on anyway |
| `Recovery.Replay` | crates/oxendb/src/storage/recovery.rs:34-70 | writes the last committed image of every page and counts transactions and pages; writes nothing at all if any committed image is invalid; a failing write ends it at the lowest page whose write fails, all lower ones written; the fsync counts only if a page was restored; success and each failure exactly |
| `Recovery.WriteImages` | crates/oxendb/src/storage/recovery.rs:56-61 | the write loop succeeds if and only if every write does; it leaves exactly the images laid over the file, or all below the lowest failing page, with that page alone in parts |
| `Recovery.LatestImages` | crates/oxendb/src/storage/recovery.rs:46-54 | the loop over the records accepts exactly the logs whose committed images are all valid and keeps the last image of each page |
| `Recovery.ValidImageIs` | crates/oxendb/src/storage/recovery.rs:75-87 | an image of page 0 is accepted if and only if it is a file header, any other if and only if it is sealed and well formed for its page |
| `Recovery.RedoOfBatch` | crates/oxendb/src/storage/recovery.rs:35-54 | a batch with a commit record adds its images over the earlier ones; one without adds nothing |
| `Recovery.ReplayIsSequential` | crates/oxendb/src/storage/recovery.rs:34-62 | whole-log replay of contiguous batches with distinct ids equals applying the committed batches one after another |
| `Recovery.ReplayIdempotent` | crates/oxendb/src/storage/recovery.rs:31-33 | replaying twice is replaying once |
| `Recovery.ReplayForgetsLoggedPages` | crates/oxendb/src/storage/recovery.rs:56-61 | the result is the same over any two files that differ only on logged pages |
| `Store.ApplyIsValid` | crates/oxendb/src/db/txn.rs:131-162 | applying a valid transaction to a valid database gives a valid database |
| `Store.FileHoldsOpens` | crates/oxendb/src/storage/disk.rs:56-122 | a file that holds a valid database opens with its count and yields every page |
| `CommitSteps.CommitOfIsValid` | crates/oxendb/src/db/txn.rs:135-162 | what commit hands to the log is valid: every page verifies, growth comes with a header image, no new page is missing |
| `CommitSteps.CommitOfEffect` | crates/oxendb/src/db/txn.rs:145-162 | applying what commit logs to the committed state gives that state with each written page replaced by its sealed copy, the new page count, and the new header if the file grew |
| `EngineInvariant.InitialInv` | crates/oxendb/src/db/mod.rs:102-110 | a freshly created database satisfies the invariant |
| `OpenSteps.PowerLossKeeps` | crates/oxendb/src/db/mod.rs:112-131 | losing power in any state, with any tearing, keeps the invariant, unless it takes away the records of an unsynced commit that a restart is replaying over pages the log cannot put back |
| `OpenSteps.KillKeeps` | crates/oxendb/src/db/mod.rs:112-131 | so does the death of the process, in every state |
| `OpenSteps.OpenKeeps` | crates/oxendb/src/db/mod.rs:112-131 | every step of opening keeps the invariant: a truncation not yet durable, failing cuts, writes, fsyncs and resets, and interruptions included |
| `CacheSteps.CacheKeeps` | crates/oxendb/src/storage/buffer_pool.rs:315-332 | readers coming and going and dirty pages written back, or failing to be, at any moment keep the invariant |
| `CommitSteps.WriteKeepsInv` | crates/oxendb/src/db/txn.rs:96-162 | every step of a write transaction up to logging keeps the invariant |
| `CommitSteps.CommitKeeps` | crates/oxendb/src/db/txn.rs:164-206 | every step of logging and publishing keeps the invariant, each failure included |
| `CheckpointSteps.CheckpointKeeps` | crates/oxendb/src/db/mod.rs:189-209 | every step of a checkpoint under way keeps the invariant, each failure included, and also on a file with an earlier failed fsync |
| `CheckpointSteps.SyncFailedKeeps` | crates/oxendb/src/db/mod.rs:189-199 | a failed fsync of a checkpoint keeps it: the log still has everything |
| `CheckpointSteps.HealthyFlushKeeps` | crates/oxendb/src/db/mod.rs:177-181 | on a database that is not poisoned flushing always keeps every committed page |
| `CheckpointSteps.CheckpointLockKeeps` | crates/oxendb/src/db/mod.rs:177-181 | starting a checkpoint, even on a poisoned database, keeps the invariant if flushing keeps every committed page or the log refuses to be reset |
| `CrashSafety.RunKeeps` | crates/oxendb/src/db/txn.rs:131-206 | the invariant holds in every state of every run, with any crashes, kills, reopenings, failures and interleavings, but for the two excluded events |
| `CrashSafety.RedoInvariant` | crates/oxendb/src/db/mod.rs:201-209 | in every state of every such run a page's committed contents stand in every possible survivor of the data file or are its last image in the durable log; changed pages are of the second kind; during a log reset all are of the first; exempt are only the pages of an unsynced commit while a restart replays it, and once that is fsynced all its pages are of the first kind |
| `CrashSafety.CrashAtomicity` | crates/oxendb/src/db/txn.rs:126-178 | after any such run and any crash the database reopens to the acknowledged commits in order, what was settled stays settled, and the one commit in doubt took effect whole or not at all |
| `CrashSafety.RestartAnswers` | crates/oxendb/src/db/txn.rs:126-130 | the process dies in any state of any such run, in particular after a commit returned an error: reopening yields the committed database with the last commit if and only if all its records stand in the log file |
| `CrashSafety.StateRecovers` | crates/oxendb/src/db/txn.rs:126-130 | the same guarantee from any state satisfying the invariant |
| `CrashSafety.ReopenYields` | crates/oxendb/src/db/mod.rs:112-131 | from any state satisfying the invariant recovery leaves a file that opens with the right count and in which every page verifies |
| `CrashSafety.OpeningNeverStuck` | crates/oxendb/src/db/mod.rs:112-131 | in every state in which the database is not open, however often recovery was interrupted, opening has a step that succeeds |
| `CrashSafety.OpeningProgresses` | crates/oxendb/src/db/mod.rs:112-131 | every such step decreases the stages left, or within a stage the images still to be written |
| `CrashSafety.OpeningFinishes` | crates/oxendb/src/db/mod.rs:112-131 | so from every state satisfying the invariant finitely many such steps open the database |
| `Isolation.FetchShown` | crates/oxendb/src/storage/buffer_pool.rs:229-260 | outside a publish, unless a commit failed partway, a fetch returns the published contents, wherever the page currently is |
| `Isolation.FetchSeen` | crates/oxendb/src/storage/buffer_pool.rs:229-260 | after a commit failed partway it returns the published contents overlaid by what that commit installed |
| `Isolation.ReaderSeesSnapshot` | crates/oxendb/src/db/txn.rs:37-60 | an open read transaction gets the page count and every page of the state it was opened on, unless it was let in after a commit failed partway |
| `Isolation.ReaderExact` | crates/oxendb/src/db/txn.rs:37-60 | a reader let in after a commit failed partway sees its snapshot, count and pages, if and only if the commit did not grow the file and every image installed so far is what the page showed before |
| `Isolation.ReaderSeesCommit` | crates/oxendb/src/db/txn.rs:37-60 | it sees the state with the commit if and only if every image not yet installed is what its page shows anyway, or past the old end already stands in the cache or the file |
| `Isolation.SnapshotFixedThroughout` | crates/oxendb/src/db/txn.rs:31-47 | in every run no event but its own end changes a reader's snapshot |
| `Isolation.ViewFixedThroughout` | crates/oxendb/src/db/txn.rs:37-60 | in every safe run nothing is published while a reader is open |
| `Isolation.StableReads` | crates/oxendb/src/db/txn.rs:37-60 | between any two moments of a safe run while a reader is open it reads every page and the count alike, even one let in after a commit failed partway; otherwise they are its snapshot's |
| `Isolation.ShownIsCommitted` | crates/oxendb/src/db/txn.rs:191-206 | what readers are shown is the outcome of the commits in order, or of all but the one about to be published |
| `Isolation.WriterSeesOverlay` | crates/oxendb/src/db/txn.rs:96-106 | a write transaction sees its own pages over the last committed state |
| `Isolation.WriterUndisturbed` | crates/oxendb/src/db/txn.rs:66-73 | over any stretch of a run while a write transaction is open, whatever other threads do, every page it has not touched reads as the state it began on, and committed state, history and log stand still |
| `Isolation.WriterPagesPrivate` | crates/oxendb/src/db/txn.rs:66-73 | over any such stretch without an event of its own, its own pages and its count are unchanged |
| `Isolation.AllocatesInOrder` | crates/oxendb/src/db/txn.rs:119-124 | at every moment since it began, the page count it sees is the committed one plus the pages it allocated, and the next page allocated is that one, whatever else happened |
| `Isolation.RollbackLeavesNoTrace` | crates/oxendb/src/db/txn.rs:180-181 | from begin to rollback, with arbitrary events of other threads in between, committed state, history, log, page count and every page fetched end as they began |
| `Isolation.NextTransactionReuses` | crates/oxendb/src/db/txn.rs:119-124 | the next transaction after a rollback, however much later and with whatever checkpoints in between, begins on the same committed state and is given the same page ids |
| `Restarts.RestartExact` | crates/oxendb/src/storage/wal/log.rs:128-148 | a complete unsynced commit stands in the log: every power loss at every point of every restart, until the log reset is fsynced and beyond, leaves the old or the new database if and only if each page it changes is already logged durably, lies past the old end, or keeps its contents |
| `Restarts.RepairableIsSafe` | crates/oxendb/src/db/mod.rs:112-131 | the condition suffices at every point of every restart, failures and kills included, and for every tearing |
| `Restarts.RestartApplies` | crates/oxendb/src/db/txn.rs:128-130 | every restart that gets through without a power loss, however often it failed or was killed on the way, has applied the commit |
| `Restarts.UnrepairableIsUnsafe` | crates/oxendb/src/storage/recovery.rs:56-62 | without it a page, a tearing and a surviving log are named that leave neither |
| `Races.CheckpointRuns` | crates/oxendb/src/db/mod.rs:177-209 | a checkpoint that passed the poison check earlier can run to its end on a database poisoned since and empty the log, after which any of the named survivors may be found |
| `Races.CheckpointLoses` | crates/oxendb/src/db/mod.rs:177-209 | without that condition a run, a crash and a survivor are named that do not reopen as the committed database |
| `Races.CheckpointExact` | crates/oxendb/src/db/mod.rs:177-209 | for a checkpoint taking the lock in any idle state, poisoned or not: every crash at every point of every continuation reopens to what it should if and only if the log refuses resets, or every committed page is cached or surely in the file and the flushed file is long enough |
| `Races.HalfKept` | crates/oxendb/src/db/mod.rs:177-181 | after a commit that failed partway the condition is: every image not yet installed is what its page shows anyway or, past the old end, already cached or in the file, and the file reaches the new end |
| `Races.SuspectKept` | crates/oxendb/src/db/mod.rs:190-193 | after a failed fsync, with nothing cached, the condition is: all contents a crash may still bring up agree on every committed page and are long enough |
| `Traces.HalfPublished` | crates/oxendb/src/db/txn.rs:164-173 | a run in which a commit fails partway through publishing |
| `Traces.CheckpointRace` | crates/oxendb/src/db/mod.rs:177-181 | a run, continued by a checkpoint that had passed the poison check: the database no longer opens |
| `Traces.FsyncFailed` | crates/oxendb/src/db/mod.rs:190-193 | a run in which a commit is acknowledged, and the fsync of the checkpoint that wrote it back fails |
| `Traces.FsyncRace` | crates/oxendb/src/db/mod.rs:190-193 | continued by a second checkpoint that had passed the poison check and all of whose calls succeed: after a crash the acknowledged commit is gone and the database no longer opens |
| `Traces.ReaderRace` | crates/oxendb/src/db/txn.rs:37-47 | a run, continued by a reader that had passed the poison check: its page count is not its snapshot's |
| `Traces.RestartRace` | crates/oxendb/src/storage/wal/log.rs:128-148 | a run with a restart on an unsynced commit and a power loss during replay: the database no longer opens |
| `Clock.FindVictim` | crates/oxendb/src/storage/buffer_pool.rs:335-352 | the victim is the first unpinned frame with a clear bit in clock order, else the first unpinned one; none exactly when all are pinned, and then hand and bits are unchanged; otherwise the hand ends just behind the victim and exactly the unpinned frames it passed have lost their bit |
| `Clock.VictimUnique` | crates/oxendb/src/storage/buffer_pool.rs:335-352 | pins, bits and hand leave one frame to be the victim |
| `BufferPool.Shard.constructor` | crates/oxendb/src/storage/buffer_pool.rs:204-227 | an empty shard: all frames free, to be handed out from frame 0 up, nothing mapped, pinned or referenced, hand at 0 |
| `BufferPool.Shard.WriteBack` | crates/oxendb/src/storage/buffer_pool.rs:355-362 | succeeds if and only if the page is clean or its write goes; a dirty page reaches the file and becomes clean, or stays dirty with the disk's error; no page's contents change |
| `BufferPool.Shard.AcquireFrame` | crates/oxendb/src/storage/buffer_pool.rs:315-332 | exactly which frame, or which error: the last free frame, or else the frame CLOCK gives up if it is clean or written back, empty and unpinned; hand, bits and free list thereafter; at most one page is written back; out of frames exactly when none is free and all are pinned, changing nothing; no page's contents change |
| `BufferPool.Shard.Evict` | crates/oxendb/src/storage/buffer_pool.rs:325-331 | the victim is unmapped if and only if it is clean or written back; otherwise it stays mapped and dirty and the disk's error is returned |
| `BufferPool.Shard.FetchPage` | crates/oxendb/src/storage/buffer_pool.rs:229-260 | a cached page is pinned where it is; any other if and only if there is a free frame, or the victim of CLOCK is clean or written back, the read does not fail, and the page reads in the file as it then is, and in that frame; else the first of these errors; reference bits and hand thereafter; at most one write-back; contents of all pages kept on every path |
| `BufferPool.Shard.LoadPage` | crates/oxendb/src/storage/buffer_pool.rs:240-259 | the miss path of the same: frame, read, mapping and pin, the frame given back if the read fails |
| `BufferPool.Shard.InstallPage` | crates/oxendb/src/storage/buffer_pool.rs:262-285 | succeeds if and only if the page is cached or a frame can be had, exactly as for a fetch, and with the same error otherwise; the page then shows its new contents and no other page changes; nothing changes on failure; reference bits and hand thereafter |
| `BufferPool.Shard.Overwrite` | crates/oxendb/src/storage/buffer_pool.rs:264-277 | installing over a cached, possibly pinned copy; its reference bit is set, pins are as before |
| `BufferPool.Shard.GuardWrite` | crates/oxendb/src/storage/buffer_pool.rs:416-421 | writing through a guard changes that page only and marks its frame dirty |
| `BufferPool.Shard.FlushPage` | crates/oxendb/src/storage/buffer_pool.rs:287-303 | a page not cached needs nothing; a cached one becomes clean if and only if it was or its write goes; pins, bits, table and all contents are as before |
| `BufferPool.Shard.FlushCached` | crates/oxendb/src/storage/buffer_pool.rs:306-312 | succeeds if and only if the write of every dirty page of the shard goes; then no cached page differs from the file, which is the old one with the shard's dirty pages sealed into it; otherwise some are written, one more failed, and the error is one of theirs |
| `BufferPool.Shard.Unpin` | crates/oxendb/src/storage/buffer_pool.rs:364-371 | dropping a handle takes back its one pin, which was there |
| `Pool.Create` | crates/oxendb/src/storage/buffer_pool.rs:122-137 | refuses capacity 0 and nothing else; the cache is empty |
| `Pool.Cache.constructor` | crates/oxendb/src/storage/buffer_pool.rs:122-137 | as many shards as computed, sharing out the frames, all empty |
| `Pool.Cache.FetchPage` | crates/oxendb/src/storage/buffer_pool.rs:145-147 | across all shards: exactly when and where the page is pinned, and with which error not, as for its shard; no page's contents change, at most one dirty page is written back, exactly the returned handle is added; out of frames exactly if the page is not cached and its shard has no free or unpinned frame |
| `Pool.Cache.InstallPage` | crates/oxendb/src/storage/buffer_pool.rs:154-162 | refuses a page naming another id; otherwise succeeds if and only if it is cached or its shard can give a frame, else with that error; exactly that page changes, becoming dirty after at most one write-back; no handle is added |
| `Pool.Cache.FlushAll` | crates/oxendb/src/storage/buffer_pool.rs:170-178 | succeeds if and only if the write of every dirty page goes and the fsync does; then the file is the old one with all dirty pages sealed into it, no frame is dirty, the file holds the contents of every page, and unless an earlier fsync failed no other file can come up after a crash; otherwise some pages are written and one more failed, with its error, or only the fsync did |
| `Pool.GoByParts` | crates/oxendb/src/storage/buffer_pool.rs:170-178 | every dirty page of the cache can be written if and only if every one of each shard can |
| `Pool.OthersKeep` | crates/oxendb/src/storage/buffer_pool.rs:180-185 | work in one shard cannot disturb the clean frames or contents of another |
| `Pool.Cache.Parts` | crates/oxendb/src/storage/buffer_pool.rs:180-185 | what an operation does to one shard's dirty pages is what it does to those of the cache |
| `Sharding.ShardCountIs` | crates/oxendb/src/storage/buffer_pool.rs:188-193 | the shard count is a power of two from 1 to 64; with two or more each has at least 64 frames, and with fewer than 64 of them doubling would leave less |
| `Sharding.SharesAddUp` | crates/oxendb/src/storage/buffer_pool.rs:129-135 | every shard gets a frame, the shares sum to the capacity, no two differ by more than one and no later one is larger |
| `Sharding.ShardForInRange` | crates/oxendb/src/storage/buffer_pool.rs:180-185 | the shard is the high half of the id's multiplicative hash modulo the shard count, and exists |
| `Sharding.HashInjective` | crates/oxendb/src/storage/buffer_pool.rs:67-70 | for every k up to 64 two ids agree in the low k bits of the hash exactly when they agree in their own low k bits |
| `PoolSafety.EventKeeps` | crates/oxendb/src/storage/buffer_pool.rs:229-371 | every atomic step of every thread, each lock acquisition separate, keeps the pool invariant |
| `PoolSafety.NeverBlocked` | crates/oxendb/src/storage/buffer_pool.rs:27-31 | under that invariant the holder of the state finds the frame lock it wants free |
| `PoolSafety.LockOrder` | crates/oxendb/src/storage/buffer_pool.rs:27-31 | so in every interleaving |
| `PoolSafety.HolderAdvances` | crates/oxendb/src/storage/buffer_pool.rs:27-31 | in every interleaving the holder of the state always has a step, and every step it takes brings it closer to releasing it |
| `PoolSafety.Bookkeeping` | crates/oxendb/src/storage/buffer_pool.rs:93-104 | in every interleaving: table and frames inverse, free list exact, pins equal to live handles, a handle's frame still holds its page |
| `PoolContents.ActKeeps` | crates/oxendb/src/storage/buffer_pool.rs:229-371 | the same machine with the bytes of frames and file: every step of every thread, of write guards and of other shards on the same file keeps clean frames equal to the file and moves the contents of pages as it should |
| `PoolContents.ContentsStay` | crates/oxendb/src/storage/buffer_pool.rs:315-332 | over any stretch of any interleaving without an install of a page or a write guard on it, its contents stay, whatever is evicted, reloaded, flushed or fails |
| `PoolContents.LastWriteShows` | crates/oxendb/src/storage/buffer_pool.rs:262-285 | a page once installed or written through a guard shows exactly that until the next time |
| `PoolContents.CleanIsFile` | crates/oxendb/src/storage/buffer_pool.rs:354-362 | in every interleaving a clean frame is its page in the file, byte for byte |
| `PoolContents.HandleShows` | crates/oxendb/src/storage/buffer_pool.rs:394-401 | in every interleaving a handle's frame has the contents of the page it was taken for |
| `PoolContents.ReadsStable` | crates/oxendb/src/storage/buffer_pool.rs:409-421 | while a read guard is held, over any stretch of any interleaving, the page under it does not change in a single byte |
| `PoolClients.PublishFindsFrames` | crates/oxendb/src/db/txn.rs:191-206 | in every interleaving of readers, writers and checkpoints no other thread is in the pool while a commit publishes, and no install is refused for lack of frames |
| `PoolClients.FlushLeavesNothingDirty` | crates/oxendb/src/db/mod.rs:201-209 | in every interleaving no cached page is dirty once a checkpoint has flushed the shard, until the log lock is released, whatever readers fetched and evicted meanwhile |
| `PoolClients.UseKeeps` | crates/oxendb/src/db/txn.rs:55-60 | what the two locks guarantee is kept by every step |
| `PoolRefinement.DirtyOverFile` | crates/oxendb/src/storage/buffer_pool.rs:86-91 | what a shard shows is its dirty pages over the file; clean frames make no difference |
| `PoolRefinement.CacheShows` | crates/oxendb/src/storage/buffer_pool.rs:86-91 | so it is for the cache as a whole |
| `PoolRefinement.CacheRefines` | crates/oxendb/src/storage/buffer_pool.rs:315-332 | whatever a fetch or a refused install does to the cache's file and dirty pages is no event or one event of the engine's machine |
| `PoolRefinement.InstallRefines` | crates/oxendb/src/storage/buffer_pool.rs:262-285 | an install during a publish is at most one such event followed by the machine's install |
| `PoolRefinement.FlushRefines` | crates/oxendb/src/storage/buffer_pool.rs:170-178 | flushing the whole cache, in any order and with any failure, is the flush of a checkpoint of the machine: it ends with nothing left to write or poisons the database |
| `PoolRefinement.CallsRefine` | crates/oxendb/src/storage/buffer_pool.rs:145-162 | every sequence of fetches, refused and successful installs of the cache is a safe run of the machine through the same files and dirty pages, on which nothing else changes but the images still to be published |
| `Database.Database.Create` | crates/oxendb/src/db/mod.rs:102-110 | a fresh database, in the machine's initial state, once all its calls have succeeded |
| `Database.Database.Assemble` | crates/oxendb/src/db/mod.rs:133-150 | a handle on recovered files |
| `Creation.CreateDatabase` | crates/oxendb/src/db/mod.rs:102-110 | creating the two files, each call of which may fail: a database exactly if none does; the log is begun only once the data file is durable |
| `Creation.CreationExact` | crates/oxendb/src/db/mod.rs:79-118 | creation interrupted anywhere, by a failing call or a crash with any bytes missing: the next open brings up the empty database if and only if neither file is there, or the data file in full and the log not at all or in full; otherwise every open is refused |
| `Creation.EmptyFileBlocks` | crates/oxendb/src/storage/disk.rs:39-62 | an input for which it fails: creation interrupted with the data file made and still empty leaves a file that is refused |
| `Creation.HeaderWhole` | crates/oxendb/src/storage/disk.rs:56-81 | of the first header page with any of its bytes missing nothing but the whole is accepted, with no assumption about checksums |
| `Creation.LogWhole` | crates/oxendb/src/storage/wal/log.rs:242-258 | the same of the first log header |
| `Creation.CreatedStays` | crates/oxendb/src/storage/disk.rs:39-53 | once creation has returned, every crash reopens to the empty database |
| `Database.Database.EvictPage` | crates/oxendb/src/storage/buffer_pool.rs:325-331 | making room writes a dirty page to the file if the write succeeds, and else leaves it dirty; a step of the machine either way |
| `Database.Database.FetchPage` | crates/oxendb/src/storage/buffer_pool.rs:229-260 | returns what the machine's fetch shows, if and only if the page is cached, or there is a frame, room is made, the read does not fail and the page reads; the exact error otherwise, and what is cached thereafter |
| `Database.Database.InstallPage` | crates/oxendb/src/db/txn.rs:198-204 | publishes one page if and only if it is cached or room can be made; otherwise ends the commit half published |
| `Database.Database.FlushAll` | crates/oxendb/src/storage/buffer_pool.rs:170-178 | succeeds if and only if the write of every cached page and the fsync do; a failure ends the checkpoint with the database about to be poisoned |
| `Database.Database.WriteCheckpoint` | crates/oxendb/src/db/mod.rs:201-209 | pages, fsync, header, fsync, log, in this order, with the error of the first that fails, and success if and only if none does and the log is not poisoned; then every file a crash could bring up holds the committed state and the log is empty |
| `Database.Database.CheckpointLocked` | crates/oxendb/src/db/mod.rs:189-199 | the same result; any failure poisons the database, success does not; no commit is lost or gained |
| `Database.Database.Checkpoint` | crates/oxendb/src/db/mod.rs:177-181 | refuses a poisoned database; otherwise succeeds if and only if every call does: each cached page's write, both fsyncs, the header's write and the reset |
| `Database.Database.MaybeAutoCheckpoint` | crates/oxendb/src/db/mod.rs:213-218 | below the limit, or with none, nothing happens; at or above it a checkpoint is made, with the result above: the log ends empty and every file a crash could bring up holds the committed state, or the database is poisoned |
| `Opening.Recover` | crates/oxendb/src/db/mod.rs:119-121 | for any two files, whatever is in them: refuses a bad log header, a failing cut and an invalid committed image with the data file untouched; otherwise the file ends as replay computes it, or part of the way there after a failing write, and a handle is given out exactly on success |
| `Opening.OpenFiles` | crates/oxendb/src/db/mod.rs:112-131 | opening any two files: succeeds if and only if recovery in one go makes a usable database of them and no call fails, and then data file and page count are that database's and the log is empty with its numbering kept; every failure by its reason, and the data file it leaves |
| `Opening.RecoverRuns` | crates/oxendb/src/db/mod.rs:119-121 | whatever recovery did to the files of an earlier run, failures included, is a run of the machine |
| `Opening.OpenExisting` | crates/oxendb/src/db/mod.rs:112-131 | opens whatever any earlier run left, if and only if no call it makes fails: the committed state is that run's, with the commit in doubt if and only if all its records stand in the log file, the log is empty with its numbering kept, the page count is right, the checkpoint setting is the caller's; on failure the files are as some run leaves them; a bad log header touches nothing |
| `Transactions.BeginWrite` | crates/oxendb/src/db/txn.rs:76-89 | refuses a poisoned database, otherwise starts with no pages and the current count |
| `Transactions.WriteTxn.ReadPage` | crates/oxendb/src/db/txn.rs:98-106 | own copy or committed page; out of range exactly when it is not a data page; inside, succeeds if and only if it is private, cached, or there is a frame, room is made and the read does not fail |
| `Transactions.WriteTxn.PageMut` | crates/oxendb/src/db/txn.rs:109-116 | a private copy of the committed page, once; out of range exactly when it is not a data page; inside, succeeds if and only if it is private already, cached, or there is a frame, room is made and the read does not fail, and else with the pool's or the disk's error |
| `Transactions.WriteTxn.AllocatePage` | crates/oxendb/src/db/txn.rs:119-124 | a new page past every page this transaction or anyone else has |
| `Transactions.WriteTxn.Rollback` | crates/oxendb/src/db/txn.rs:180-181 | only the log lock is given back |
| `Transactions.WriteTxn.SealAll` | crates/oxendb/src/db/txn.rs:135-142 | seals and checks all pages in page order; names the lowest malformed page exactly when there is one |
| `Transactions.WriteTxn.BuildImages` | crates/oxendb/src/db/txn.rs:145-162 | the header image if the file grew, then the pages in order |
| `Transactions.WriteTxn.Log` | crates/oxendb/src/db/txn.rs:183-189 | durable, and successful, if and only if the flush is; on failure the transaction's fate is open and the log unusable |
| `Transactions.WriteTxn.AwaitReaders` | crates/oxendb/src/db/txn.rs:191-196 | waiting for the exclusive lock: open readers end, nothing committed changes |
| `Transactions.WriteTxn.Publish` | crates/oxendb/src/db/txn.rs:191-206 | waits for open readers; succeeds if and only if room can be made for every page in turn, as the page cache then stands; then the committed state is what readers see and the commit is acknowledged; otherwise some write-back failed and the commit is left half published |
| `Transactions.RoomIfNoneFails` | crates/oxendb/src/db/txn.rs:198-204 | if no write-back fails there is room for every page; so a publication that fails met a write-back that failed |
| `Transactions.DataOfCommit` | crates/oxendb/src/db/txn.rs:145-204 | the pages published are the pages written, in their order, whether or not a header image was logged with them |
| `Transactions.WriteTxn.CommitPages` | crates/oxendb/src/db/txn.rs:131-173 | the same results up to the automatic checkpoint, with the records durable in the log |
| `Transactions.WriteTxn.Commit` | crates/oxendb/src/db/txn.rs:131-178 | rejected if and only if a page is malformed, naming the lowest, with nothing logged; otherwise succeeds if and only if the flush does and room can be made for every page in turn, so always if no call fails; success: the committed state is the old one with the written pages replaced by their sealed copies and the new page count; other failure: poisoned, outcome open; readers may be open, and are waited for only once it is logged; then the automatic checkpoint, exactly when the log has reached its limit: checkpointed if every call succeeds, poisoned with the commit standing if one does not |
| `Transactions.BeginRead` | crates/oxendb/src/db/txn.rs:37-47 | refuses a poisoned database, otherwise snapshots what is shown |
| `Transactions.ReadTxn.ReadPage` | crates/oxendb/src/db/txn.rs:55-60 | the snapshot's page and page count; after a commit that failed partway, exactly what it installed shows through, and past the snapshot's end a verified page standing in cache or file; succeeds exactly if there is one, system calls permitting |
| `Transactions.CrashDuringUse` | crates/oxendb/src/db/txn.rs:126-130 | cut the power after any single effect of any sequence of calls, but for the excluded loss during a restart: the database reopens to the acknowledged commits and the one in doubt, whole or not at all |

## Left out

- Paths, directory fsync, file-existence checks, options and the report returned by opening: no part of the protocol.
- A missing log next to the data file of a database that has been used: somebody removed it; `Creation` covers the one missing because creation was interrupted.
- `crates/oxendb/src/storage/checksum/hw.rs`: CPU instructions; the portable path is what is modelled.
- The page LSN: stored and decoded, never used by commit or recovery.
- Wrap-around of 64-bit counters and 32-bit pin counts: excluded by preconditions or by unbounded numbers.
- Error message text, the reason given for a discarded tail, and the display and debug formats.
- Liveness beyond opening and the pool's lock holders, fairness, callers that wait for their own transactions, and lock poisoning by a panic.
- The byte-by-byte fallback of the page table's hasher: never reached with page ids.
- Checksum strength beyond bursts of four bytes: general collision freedom is false.
- Database.Database.InstallPage: the page cache is represented by its dirty pages, and which of them makes room is a parameter; `PoolRefinement` proves that every sequence of calls of `Pool.Cache` amounts to that; the two are not composed into one class. Running out of frames while publishing is no outcome there: `PoolClients.PublishFindsFrames` proves it does not happen.
- Disk.DiskManager.Create: calls that fail during creation are outcomes of `Creation.CreateDatabase`.
- WalHandle.Handle.Create: likewise.
- Database.Database.Create: likewise.
- PoolThreads: the CLOCK choice of a victim is not part of the thread model; any unpinned frame may be chosen.
- WalHandle.Handle.Flush: a flush on a log just opened whose reset had been interrupted before the process died is not covered, and on one with records not known to be durable success does not make them so; the database resets the log before anything is appended to it.
- Opening.OpenExisting: log contents that open are those some earlier run left; `Opening.OpenFiles` takes any two files, and returns the two handles without a run of the machine behind them.
