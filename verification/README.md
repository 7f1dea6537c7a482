# Verified model of BDR block device replication

BDR mirrors a block device over a network. A kernel module logs every write of the source device in
a ring buffer, a client forwards the log, and a server applies it to a replica. When the ring
overflows, a scan compares the two devices block by block while the source keeps changing, collects
the differing blocks and the writes logged meanwhile in a journal, and replays the journal to the
replica. BDR's documentation promises that the replica stays in a prefix consistent state at all
times, even during recovery (documentation.md:157-169). This project models the code that the promise
rests on and proves it over all runs, together with the properties of the parts it is made of.

`dafny verify dfyconfig.toml` checks everything.

## How the model is built

- `Images.dfy`: device images, writes, the effect of a log of writes. A copy made while the device
  changes, each byte at its own time, followed by the log of the changes, is the device.
- `Ring.dfy`, `RingFill.dfy`, `RingBuffer.dfy`: the ring buffer as a value and as a queue over all runs;
  puts that reserve their slot under the lock and fill it later; the buffer in memory with the kernel's
  operations on it, the capture of writes and the client's reading of a batch.
- `Codec.dfy`, `JournalDisk.dfy`, `Journal.dfy`: the journal as bytes on a device (header, two sections
  of slots, valid flag), what each access changes and leaves alone, and the journal as the server
  drives it.
- `ServerCore.dfy`, `Server.dfy`: the effect of each packet, and the server as an object that has it,
  down to the bytes of the journal.
- `Blocks.dfy`, `Capacity.dfy`: the division of a device into blocks; how much of the ring the journal
  can hold.
- `Protocol.dfy`, `Invariant.dfy`, `Preservation.dfy`, `PrefixConsistency.dfy`: the whole system as a
  state machine (source, ring, client threads, both directions of the connection, hash pass, journal,
  replica), its invariant, and the theorems about its runs.
- `Progress.dfy`: what the steps of a run say about the source, that there is no endless work, and that at rest
  the replica is the source.
- `Wire.dfy`: the payloads that the client builds, and the packets of the system model.
- `Runs.dfy`: runs of the system, step by step from its start: two that show what the theorems exclude, and a
  full replication with a write made during the copy.
- `ReplayOrder.dfy`, `Restart.dfy`: the order of the operations of a replay, and what a starting server does
  with the journal.
- `Recovery.dfy`: the replay of the journal with crashes at any point, torn and reordered writes to both
  devices, torn header writes, and repeated crashes during recovery.
- `LiveWrites.dfy`: crashes while writes are applied live, without a journal.
- `CrashConsistency.dfy`: crashes and the runs of the system together, prefix consistency during recovery.
- `Pause.dfy`: the pause controller over every interleaving.

Device images are byte sequences; a write past the end of a device stores the bytes that fit. Numbers
are unbounded except where the width matters: header fields are 64-bit, sizes and captured sectors
32-bit, and the size check of `NewJournal` wraps around as the code does.

## What the theorems about the system assume

The steps of `Protocol.dfy` interleave freely, with these assumptions, which the code does not enforce:

- The writes logged before a reset of the ring have reached the source device when the scan or replication that
  follows reads its first byte (kern/main.c:419-440 logs before it submits). At all other times logged writes
  may be under way; they reach the device in the order they were logged. `LogRepairsExactly` says what goes
  wrong otherwise.
- A put is one step (kern/ring-buffer.c:174-207 fills the slot after releasing the lock). `RingFill` shows that
  this is invisible if the fills of a batch end before the client reads its slots, and none is under way at a
  reset; `UnfilledBatchIsVisible` is a run in which one does not end in time.
- The server handles each packet to completion before the next (user/server/server.go:799-820 uses
  queues). The replay is one step here; `Recovery` opens it up.
- Scans are begun at the start, by the monitor when it finds the ring overflown, and by the listener at the
  end of a scan, and not from the reconnection path, so that the monitor is not in the middle of a batch.
- The monitor takes no step between a `Pause` and the next `Resume`. `Pause.NextPollBlocks` and
  `Pause.StaysBlocked` show that the pause controller keeps it so, unless a reader holds the pause state just as
  the monitor polls. The one reader beside the monitor is the listener, while it sends the buffer
  (user/client/client.go:562), so this assumes that the monitor has polled by then.
- Two blocks that are compared do not have the same hash without being equal. Nothing else is assumed
  of the hash.

Two things that the code can do break prefix consistency, and both are part of the model:

- `ProcessBuffer` resumes the monitor before it sends the completion packet (user/client/client.go:897-901).
  If the ring overflows in between, the monitor's request for the next scan goes first. The server then
  clears the journal, takes the completion packet for the end of the new scan, and drops that scan's blocks.
  `Runs.OvertakingIsNoPrefix` is such a run, from the start of the system to a replica that was never the
  source. `NoStaleReplay` shows that nothing else makes a completion packet stale, and `SkippedWrites` says
  exactly what the replica is until the next scan and when it is the source as of the last write it received;
  `SkippedWritesKeep` says when it is still the source at its old position, as it is until the first write.
- `HandleJournalWriting` replays a journal that has overflown (user/server/server.go:618-635).
  `Runs.OverflownReplayIsNoPrefix` is a run with such a replay. `OverflownReplayExactly` says when the result is
  the source as of the last write in the journal, and `OverflownReplayKeeps` when it is still the source at the
  old position. `NoJournalOverflow` gives a condition on the size of the journal under which it does not happen.

`StaysSynced` shows that nothing else does. The record `synced` of the server's state stands for being in
step: `ScanConverges` and `FullReplicationConverges` say when it begins, and `AlwaysAPrefix` what it means.

Where the code differs from what one might expect of it, the exact condition is proved: a journal on a
device smaller than its header (`LayoutIsGood`), a journal with a full section after a crash
(`ReopenRecovers`, `FullSectionTears`), a crash before the cleared slots of an otherwise unused journal have
reached the device, which `ResetTo` does not sync (`CrashAtomic`, `UnsyncedClears`), a crash in the middle of a
live write that changes more than one byte (`LiveCrashAtomic`), a sector number beyond 32 bits or a segment across pages
(`SegmentCaptured`), a ring of more than 1027 slots (`LargestBatchFits`). The documentation gives 4104
bytes per buffered write (documentation.md:129), while the server's journal slots take 4108
(user/networking/networking.go:13); the model follows the code.

## Model

| member | source | states |
|---|---|---|
| Images.ApplyByte | user/server/server.go:642-674 | after a log of writes every byte is what the last write covering it left, or what it was |
| Images.Absorb | user/server/server.go:1026-1045 | replaying a log gives the same image from any two images that differ only where the log writes, so a partial earlier replay is harmless |
| Images.CopyThenLog | user/client/client.go:798-926 | a copy whose bytes were read at different times since the ring was reset, followed by the writes logged since, is the source as of the last of them |
| Images.LogRepairsExactly | kern/main.c:419-440 | a log repairs exactly the copies that hold, wherever it does not write, the value of the moment the log began; a write logged before the reset and read too early is never repaired |
| Images.LeavesExactly | user/server/server.go:642-674 | a log leaves an image as it is exactly when every byte it writes last is the one already there |
| Ring.PutEffect | kern/ring-buffer.c:166-211 | a put appends to the pending writes and keeps the batch, or is refused exactly when it would reach the batch, and then stores nothing and sets the flag |
| Ring.PutStable | kern/ring-buffer.c:182-207 | no slot of the batch handed to userspace and no pending slot is changed by a put |
| Ring.ReadEffect | kern/ring-buffer.c:137-156 | a read turns exactly the pending writes into the batch; with the flag set it changes nothing and reports a nonzero length |
| Ring.DecodeBatch | user/client/client.go:228-231 | the client's index arithmetic finds the batch slot by slot |
| Ring.RunIsFifo | kern/ring-buffer.c:104-211 | over every run of puts, reads and resets, what was delivered followed by what is pending is the list of the puts of the run since its last reset, in order; all of it while the flag is clear; the window never wraps onto itself |
| Ring.ReadDeliversAll | kern/ring-buffer.c:137-156 | a read hands over everything put since the reset unless the flag is set, and a reset clears the flag |
| Ring.NoSilentLoss | user/client/client.go:657-676 | a client that sees length zero has received every put, so looking for new writes before looking for an overflow hides none |
| Ring.FrozenUntilReset | kern/ring-buffer.c:121-156 | once set, the overflow flag freezes the ring until a reset |
| RingFill.RunKeepsInv | kern/ring-buffer.c:174-207 | with slots filled after the lock is released, memory differs from the atomic ring at most in slots being filled, all inside the window |
| RingFill.FillsAreInvisible | kern/ring-buffer.c:190-207 | a batch whose fills have ended reads as if every put had been atomic, and no slot is reserved twice |
| RingFill.IdealIsAtomic | kern/ring-buffer.c:174-207 | the ring that memory is compared with is the one that the same operations with atomic puts give |
| RingFill.FillsEnd | kern/ring-buffer.c:190-207 | every fill ends the filling of its slot, and with none left memory is the atomic ring |
| RingFill.HalfFilled | kern/ring-buffer.c:192-207 | until then the slot may hold anything, and the record of what is to be filled stays |
| RingFill.UnfilledBatchIsVisible | kern/ring-buffer.c:190-207 | a run in which the client reads a slot of its batch before it is filled and finds what was there before |
| RingBuffer.RingBuffer.Init | kern/ring-buffer.c:29-50 | refuses exactly the ring without slots and the one without memory, each with its own error; otherwise an empty valid ring |
| RingBuffer.RingBuffer.Update | kern/ring-buffer.c:104-119 | counts the write and sets the flag exactly when the next position is that of the batch |
| RingBuffer.RingBuffer.Put | kern/ring-buffer.c:166-211 | the buffer in memory does what the ring as a value does, for the bytes taken from the page |
| RingBuffer.RingBuffer.Read | kern/ring-buffer.c:137-156 | the same for the read routine, with the information from before the read |
| RingBuffer.RingBuffer.Reset | kern/ring-buffer.c:121-129 | the same for the reset |
| RingBuffer.RingBuffer.ProcessBufferInfo | user/client/client.go:558-617 | the payloads sent for a batch stand for exactly the writes of the batch, in order, up to the first at which the main loop is paused |
| RingBuffer.PutWriteToBuffer | kern/main.c:372-389 | the batch is kept, and behind the pending writes are queued the puts of the segment that fit, in order, one more setting the flag; a segment in one page is queued as its own bytes at 512 times its sector, or not at all when there is no room |
| RingBuffer.CapturedAt | kern/main.c:372-389 | put k of a longer segment is for the k-th sector from its own, the first with the rest of the page, the others from its start |
| RingBuffer.SegmentCaptured | kern/main.c:372-389 | a segment is captured by one put with its own sector and all its bytes exactly when it lies in one page and its sector fits 32 bits |
| RingBuffer.PathsAgree | user/server/server.go:526-545 | the live path and the path through a journal slot write exactly the slot's first `size` bytes at 512 times its sector |
| Blocks.HashTasks | user/server/server.go:243-297 | the hashing loop with short reads yields the blocks of the device |
| Blocks.ReplicationTasks | user/client/client.go:708-725 | the replication loop yields the same blocks |
| Blocks.EveryByteInAChunk | user/server/server.go:243-297 | the blocks cover every byte |
| Blocks.ChunksInOrder | user/server/server.go:243-297 | no byte is in two blocks |
| Blocks.BlocksCopyImage | user/server/server.go:719-738 | writing all blocks of an image in any order, repeated or not, copies the image |
| Codec.NumberRoundTrip | user/journal/journal.go:155-168 | big-endian numbers of any width read back |
| Codec.DigitAt | user/journal/journal.go:155-168 | each byte of a number is its digit to the base 256, most significant first |
| Codec.HeaderRoundTrip | user/journal/journal.go:151-204 | every header survives being written and read back |
| Codec.HeaderBytes | user/journal/journal.go:151-168 | the position of each of the eight fields of the header and the digits in it |
| Codec.TornHeader | user/journal/journal.go:83-101 | setting and clearing the flag change one byte, so a header write cut short leaves the old or the new header |
| Codec.EntryRoundTrip | user/journal/journal.go:263-314 | an entry that fits reads back with its offset, size and data cut or padded to the size; one larger than the slot panics |
| Codec.EntryBytes | user/journal/journal.go:263-275 | the positions of offset, size and data in a slot, and zeros behind them |
| Codec.EmptySlot | user/journal/journal.go:372-386 | clearing writes zeros, which read back as the empty entry |
| JournalDisk.LayoutIsGood | user/journal/journal.go:334-359 | an accepted layout has header and sections disjoint and inside the device exactly when the device can hold a header, and then neither section has room for another slot |
| JournalDisk.HeaderIs | user/journal/journal.go:334-359 | the sizes that are rejected, with the wrapping subtraction, and every field of the header for the others |
| JournalDisk.WriteSlotEffect | user/journal/journal.go:525-595 | a slot written reads back and no other slot of its section changes |
| JournalDisk.WriteSlotFrame | user/journal/journal.go:525-577 | a slot write changes nothing outside its section |
| JournalDisk.OtherSection | user/journal/journal.go:525-595 | what happens inside one section leaves every slot of the other as it was |
| JournalDisk.ClearedEffect | user/journal/journal.go:378-419 | clearing a prefix empties exactly its slots |
| JournalDisk.ClearedFrame | user/journal/journal.go:378-419 | and changes nothing outside the section |
| JournalDisk.LogReplays | user/server/server.go:642-674 | the writes that the slots of a log stand for are its entries |
| JournalDisk.AppendToLog | user/server/server.go:976-1000 | an append extends the log in the section by the entry |
| JournalDisk.HeaderFrame | user/journal/journal.go:91-101 | writing the flag keeps both logs |
| JournalDisk.ScanIsFirst | user/journal/journal.go:597-625 | on any device contents, a scan that succeeds passes only slots that read as non-empty and stops at one that reads as empty |
| JournalDisk.ScanFindsEnd | user/journal/journal.go:597-625 | the scan for a free slot stops at the first entry of size zero, else at the end of the log, and fails in a full section without one |
| JournalDisk.ReopenRecovers | user/journal/journal.go:215-261 | reopening recovers the header and in each section the entries before the first of size zero, and fails exactly when a section is full of others |
| JournalDisk.OpensOnlyWithMagic | user/journal/journal.go:215-261 | any device opens exactly with the magic number in its first eight bytes and a free slot in each section, as its own header with the ends that the scans find |
| Journal.Journal.NewJournal | user/journal/journal.go:322-370 | fails exactly for a zero size or a section larger than the device behind the header; otherwise every field of the header, positions at the section ends, and the invariant on an uncleared device |
| Journal.Journal.WriteHeader | user/journal/journal.go:151-181 | the header in memory is the header on disk, and everything written so far is durable |
| Journal.Journal.Validate | user/journal/journal.go:97-101 | sets only the flag, in memory and on disk, and keeps the logs |
| Journal.Journal.Invalidate | user/journal/journal.go:91-95 | clears only the flag and keeps the logs |
| Journal.Journal.ClearSectionTo | user/journal/journal.go:378-419 | clears the first slots, or refuses a count beyond the section; nothing becomes durable |
| Journal.Journal.Reset | user/journal/journal.go:422-443 | clearing only up to the write positions leaves both logs empty, whatever the device held; only the header is durable |
| Journal.Journal.AppendWrite | user/server/server.go:989-1000 | appends to the log of writes and makes the journal durable, refuses exactly when the section is full, and panics exactly on an entry larger than a slot |
| Journal.Journal.AppendBlock | user/server/server.go:976-987 | the same for correct blocks |
| Journal.FindFirstAvailable | user/journal/journal.go:597-625 | the scanning loop computes the first free slot, or which failure ends it |
| ServerCore.RunDeliver | user/server/server.go:822-844 | delivering the packets of a connection one by one or as a whole is the same |
| Server.Server.CopySlots | user/server/server.go:642-674 | applies the slots of a section in order, up to the first that cannot be read, with a sync after each write and none between blocks |
| Server.Server.WriteJournalToReplica | user/server/server.go:637-684 | leaves the replica as the replay of the appended entries, durable, and the flag clear, after operations in exactly the order of `ReplayTrace`; the replica changes only while the device carries the flag; a journal never reset is replayed as it lies, and an unreadable slot ends the server with the flag set |
| Server.Server.WriteLive | user/server/server.go:526-545 | a live write puts its bytes at its offset, changes no other, and is synced |
| Server.Server.HandleStartHashing | user/server/server.go:846-863 | a scan starts with empty logs |
| Server.Server.HandleBufferWrite | user/server/server.go:864-871 | a write goes to the journal during a scan, with overflow when full, and to the replica otherwise; only an oversized one during a scan ends the server |
| Server.Server.HandleCorrectBlock | user/server/server.go:872-879 | a block goes to the journal during a scan, with overflow when full; only an oversized one ends the server |
| Server.Server.HandleHashingCompleted | user/server/server.go:883-891 | the journal is replayed and live writing resumes, also when no scan has been made |
| Server.Server.HandleReplication | user/server/server.go:719-744 | a block of a full replication puts its bytes at its offset and changes no other, and what was written is synced at the end |
| Server.Server.Handle | user/server/server.go:845-908 | on the bytes of the journal, every packet has the effect that the system model gives it, unless a payload is too large for its slot or a completion precedes the first scan; and every payload goes byte by byte where it says, to the replica or into the journal |
| Wire.BlockPayload | user/client/client.go:783-797 | the payload of a block read on the client is the packet that the system model sends, with the bytes read |
| Wire.WritePayload | user/client/client.go:566-617 | the payload of a ring slot is the packet that the system model sends |
| ReplayOrder.FlagThroughout | user/server/server.go:637-684 | in a replay the journal device carries the flag from the first operation to the last but one |
| ReplayOrder.ReplayIsRun | user/server/server.go:637-684 | the operations of a replay in that order are a run of the crash machine without crashes |
| Restart.OpenJournal | user/journal/journal.go:215-261 | opening computes what the model of opening says |
| Restart.CheckJournal | user/server/server.go:1053-1075 | a journal that does not open or is not valid is left alone with the replica; a valid one is copied, blocks first, and invalidated |
| Restart.RestartCopies | user/server/server.go:1025-1051 | for the journal of a scan that is the replay of its entries |
| Preservation.StepKeeps | user/client/client.go:539-681 | every step of source, client, connection and server keeps the system invariant |
| Preservation.SourceWriteKeeps | kern/main.c:394-440 | the same for a write made to the source at any moment |
| Preservation.BeginScanKeeps | user/client/client.go:539-555 | the same for the start of a scan, also while the completion packet of the last one is owed |
| Preservation.CompareKeeps | user/client/client.go:868-884 | the same for the comparison of a block read while the source changes |
| Preservation.ReadBufferKeeps | user/client/client.go:892-926 | the same for the end of a scan, with or without a ring overflow |
| Preservation.SendWriteKeeps | user/client/client.go:558-644 | the same for a write forwarded from the ring while puts go on |
| Preservation.DeliverKeeps | user/server/server.go:845-908 | the same for the delivery of a packet |
| Preservation.SendCompletedKeeps | user/client/client.go:892-903 | the same for the completion packet, in time or overtaken by the next scan |
| Preservation.JournalConverges | user/server/server.go:637-684 | the journal of a completed scan replays to the source as of its last write |
| PrefixConsistency.ScanConverges | user/server/server.go:883-891 | whatever the replica held, a completed scan whose journal did not overflow and whose completion packet was not overtaken makes it the source as of the last journaled write, and in step |
| PrefixConsistency.StaysSynced | user/server/server.go:618-635 | a replica in step stays in step, and only moves forward, unless an overflown journal is replayed or an overtaken completion packet arrives |
| PrefixConsistency.AlwaysAPrefix | documentation.md:157-169 | from the first completed scan or full replication on, in every state of every run in which neither happens, the replica is the source after a prefix of its writes |
| PrefixConsistency.NeverStepsBack | documentation.md:157-169 | and never an earlier prefix than before |
| PrefixConsistency.CaughtUp | user/client/client.go:646-681 | when everything is forwarded and delivered the replica equals the source, after scans and after a full replication |
| PrefixConsistency.FullReplicationConverges | user/client/client.go:683-781 | blocks read at any times and sent in any order, then the first batch, make the replica the source as of that batch, and in step |
| PrefixConsistency.BatchCoversCopy | user/client/client.go:657-680 | a batch read after the copy reaches past every write made during it |
| PrefixConsistency.NoStaleReplay | user/client/client.go:892-903 | a completion packet is overtaken only if the monitor begins a scan while the listener still owes it |
| PrefixConsistency.PrefixIfScansWait | documentation.md:157-169 | prefix consistency for every run in which no scan is begun while a completion packet is owed and no overflown journal is replayed |
| PrefixConsistency.StaleReplayLeaves | user/server/server.go:883-891 | an overtaken completion packet finds the journal cleared and leaves the replica as it is |
| PrefixConsistency.SkippedWrites | user/server/server.go:864-891 | until the next scan the replica is then the old one with the writes since the reset; it is the source after them exactly when it agreed with the source at the reset wherever they do not go |
| PrefixConsistency.SkippedWritesKeep | user/server/server.go:864-891 | a replica that was in step is still the source at its old position exactly when those writes repeat what it holds, and so until the first arrives |
| PrefixConsistency.OverflownReplayExactly | user/server/server.go:618-635 | the replay of an overflown journal gives the source as of its last write exactly when its blocks had mended the replica wherever its writes do not go |
| PrefixConsistency.OverflownReplayKeeps | user/server/server.go:618-635 | a replica in step is still the source at its old position exactly when the overflown journal repeats what it holds, as an empty one does |
| PrefixConsistency.OverflowCause | user/server/server.go:976-1000 | the journal overflows only with fewer block slots than blocks, or fewer write slots than writes made since the scan began |
| PrefixConsistency.OverflowIsAnnounced | user/server/server.go:590-612 | the client is told of an overflow and from then on is stopped or can be, unless a completion packet is being sent |
| PrefixConsistency.NoJournalOverflow | user/server/server.go:579-616 | with a slot for every block, and for every write made during a scan, it never overflows in any run |
| PrefixConsistency.DrainedBatch | user/client/client.go:905-926 | what is sent before the monitor is resumed is at most one write less than the ring has slots |
| Runs.OvertakingIsNoPrefix | user/client/client.go:892-903 | a run from the start in which the replica is in step, the journal never overflows, a completion packet is overtaken, and the replica ends as an image that the source never was |
| Runs.OverflownReplayIsNoPrefix | user/server/server.go:618-635 | a run from the start in which the replica is in step and the replay of an overflown journal makes it an image that the source never was |
| Runs.ReplicationRun | user/client/client.go:683-781 | a run from the start through a full replication with a write made during the copy: the copy is an image that the source never was, and the batch makes it the source |
| Progress.SourceIsRecorded | kern/main.c:400-440 | in every state of every run the history is the list of the writes made to the source so far, and the device holds those that have reached it |
| Progress.SourceNeverWaits | kern/main.c:400-440 | a write to the source is possible at any moment |
| Progress.StartsFromAnything | user/client/client.go:1031-1050 | runs start with any contents of the replica and any ring |
| Progress.AnyOrder | user/client/client.go:798-890 | hashing, reading, comparing, landing and delivery go on in any order |
| Progress.StepWorks | user/client/client.go:646-926 | every step but a source write and a poll of an empty ring leaves less to do, in a fixed order of kinds of work |
| Progress.NoEndlessWork | user/client/client.go:646-681 | in every endless run, from every moment on, a source write or a poll of an empty ring follows |
| Progress.RestIsSettled | documentation.md:157-169 | when nothing else is left to do, everything has been forwarded, delivered and written, a replica in step is the source, and after a full replication it is in step |
| Progress.ComesToRest | user/client/client.go:646-681 | every run can be continued, without a source write, to such a state |
| Recovery.ReplayFromAnyTear | user/server/server.go:1025-1051 | copying the whole journal over any torn replica completes it |
| Recovery.HeaderWriteback | user/journal/journal.go:170-175 | a byte of a header write that reaches the device leaves the old header or the new one |
| Recovery.RunKeepsInv | user/server/server.go:637-684 | over every run with crashes the replica is untouched, repairable by the journal on disk, or complete |
| Recovery.CrashAtomic | user/server/server.go:1053-1075 | after any crashes the replica is that of an undisturbed replay if the flag ever reached the disk, and the old one if not, when the journal's slots were durable as the replay began |
| Recovery.RestartReplays | user/server/server.go:1053-1075 | a restart that finds the flag replays from the beginning |
| Recovery.CrashTears | user/server/server.go:642-655 | a crash during the copy of the blocks can leave every mixture of the old replica and the blocks copied so far, and loses the rest |
| Recovery.UnsyncedClears | user/journal/journal.go:378-419 | when nothing was appended since an unsynced clear, a crash while the flag is written can replay the journal of an earlier scan, whatever it held |
| Recovery.FullSectionTears | user/journal/journal.go:609-624 | with a full section, a crash after any number of entries leaves the replica with those and no others, and every restart skips the valid journal |
| CrashConsistency.ServerStarts | user/server/server.go:637-640 | the journal of a server at the end of a scan is one that the crash theorems speak of, with durable slots once an entry was appended |
| CrashConsistency.ServerReplayIsRun | user/server/server.go:637-684 | the devices that the server's replay goes through are those of a run of the crash machine without crashes, in the same order |
| CrashConsistency.RecoveryReads | user/server/server.go:1025-1051 | every entry that recovery reads from the slots of the server's journal is the block or write that the server journaled there |
| CrashConsistency.RecoversAPrefix | documentation.md:157-169 | a replica in step whose scan is replayed with any crashes and restarts comes out as the source after the old prefix or after the last journaled write |
| CrashConsistency.LiveCrashTears | user/server/server.go:526-545 | a crash while a live write reaches a replica in step can leave exactly the mixtures of the source before and after the next write of its history |
| CrashConsistency.ScanMends | user/server/server.go:883-891 | whatever a crash left, after the next completed scan the replica is the source after a prefix of all its writes, before the crash and since |
| LiveWrites.CrashLeaves | user/server/server.go:526-545 | in every run of live writes with a crash at any point, the replica holds the synced writes and at most some bytes of the next |
| LiveWrites.CrashOutcomes | user/server/server.go:526-545 | a crash during a write can leave exactly the mixtures of the replica without and with it |
| LiveWrites.LiveCrashAtomic | user/server/server.go:526-545 | every such crash leaves the old or the new prefix exactly when the write changes one byte at most |
| Pause.RunKeepsInv | user/pause/pause.go:27-96 | any state present is the latest command, over every interleaving |
| Pause.SendsNeverBlock | user/pause/pause.go:36-67 | channel and readers together hold at most one state, so no send blocks |
| Pause.SendsWhatWasAsked | user/pause/pause.go:36-52 | what is sent is what the latest call asked for, a pause by `Pause` and a resume by `Resume` |
| Pause.OnlySendsCommand | user/pause/pause.go:36-52 | nothing but a send changes the latest command |
| Pause.NobodyIsStuck | user/pause/pause.go:27-96 | whoever is in the middle of a call can go on, the waiter can poll or leave, and with no call in progress any can be made |
| Pause.CallsEnd | user/pause/pause.go:36-67 | every step of a call brings it closer to its end |
| Pause.TerminationReaches | user/pause/pause.go:70-96 | a call for termination lets the waiter go, wherever it is |
| Pause.PollBlocksWhenPaused | user/pause/pause.go:84-96 | a poll blocks exactly when it finds a state and the latest command is a pause |
| Pause.PauseStays | user/pause/pause.go:36-67 | after a pause the state stays in the channel or in the hands of a reader until a command drains it or the waiter receives it |
| Pause.NextPollBlocks | user/pause/pause.go:83-96 | so the next poll blocks, exactly if no reader holds the state at that moment |
| Pause.StaysBlocked | user/pause/pause.go:70-81 | and the waiter stays blocked until a resume is sent or it terminates |
| Pause.ReleasedOnlyByResume | user/pause/pause.go:70-81 | a blocked waiter leaves only to terminate or because the latest command is a resume |
| Pause.ReceiptDecides | user/pause/pause.go:70-81 | a state that reaches the blocked waiter releases it exactly if the latest command is a resume |
| Pause.ResumeIsNotLost | user/pause/pause.go:45-81 | a resume stays available to a blocked waiter until it is received or superseded |
| Pause.PausedAnswerIsLatest | user/pause/pause.go:53-67 | a reader that found a state answers for the latest command |
| Pause.EmptyAnswerIsNo | user/pause/pause.go:63-66 | a reader that finds no state answers that nothing is paused |
| Capacity.SlotsLost | user/server/server.go:686-690 | the journal that the server creates for a ring of m slots has m - ceil(m / 1027) slots for writes |
| Capacity.LargestBatchFits | user/journal/journal.go:347-356 | it takes every batch that does not overflow the ring exactly when m <= 1027, and never with a slot to spare |

## Left out

- Full scan mode (`--full-scan`): the server drops buffered writes sent before its completion packet, so convergence does not hold there.
- Reconnection, retries, timeouts, termination and shutdown: one lasting connection is modelled; the theorems start from a replica with any contents.
- A scan restarted while an old hash pass is still running, and the client's restart of a scan after a read error.
- The server's packet queues: packets are handled in order and to completion.
- Errors of disk reads and writes, gob encoding, mmap and ioctl, worker pools: workers are an arbitrary order of steps.
- Server.Server.Handle: payloads shorter than the size they announce are not modelled, because the client never sends them.
- Server.Server.HandleBufferWrite: the same.
- Server.Server.HandleCorrectBlock: the same.
- Journal.Journal.AppendWrite: an entry that is both shorter than its size and larger than its slot, which the code would store unreadably, is not modelled, because no payload is shorter than its size.
- Journal.Journal.AppendBlock: the same.
- The bytes of the shared ring buffer: slots are records, not little-endian bytes.
- `ResetTo` with positions other than the journal's own, and the variants `Reset` and `Init` of the journal, which the server does not call.
- Slot positions of journal headers that no journal wrote, for which the code's 64-bit arithmetic could wrap.
- The waiter passing between drain and send of a second `Pause`: nothing is claimed about that window.
- The overflow bitmap, the minor number allocator, device setup, configuration, statistics and printing: no hard property.
