# A verified model of replicated SplinterDB

The server keeps a SplinterDB store replicated through NuRaft. Four parts of it are modelled here,
each in the form the source gives it, and properties of whole runs are proved of them.

- **Ring logger** (`RingThreads`, `RingOrder`, `RingLogger`, `RingCalls`, `RingOverlap`, `Formatting`,
  `Rotation`, `LogFiles`, `Recovery`). Producers claim slots of a ring, one flusher at a time drains it
  into a file, files rotate by size, a compressor thread archives rotated files and deletes old ones, and
  a restart reads the revisions back from file names. `RingThreads` is a step relation for any number of
  threads: its atomic actions are the compare-and-swaps and stores, one byte of a copy and one byte of
  output; the relaxed loads are hints, so no action depends on one. `RingOrder` says which overlapping
  runs keep order. `RingLogger` is the class itself; `RingCalls` shows that every run of the threads in
  which calls do not overlap and hints are true comes to what the class does, and `RingOverlap` has runs
  in which calls overlap and messages are lost or change places. `Rotation` interleaves any number of
  loggers with the compressor's single shell commands, and `LogFiles` joins it to a ring.
- **Raft log store in use** (`RaftLog`, `LogStore`, `Durability`). `InMemLogStore` is the class over an
  ordered map with a dummy at key 0 and a next slot computed from the map's size. Its methods are
  stated against a plain (start, entries) log, `WriteAt` and `ApplyPack`, which can break contiguity, also
  against the map they leave for every input. `Durability` is the emulated disk over whole runs.
- **Replicated commands** (`Wire`, `Operation`, `StateMachine`, `Cluster`, `Joining`). Commands are encoded,
  logged, packed, shipped, unpacked, decoded and applied; `Joining` does it on the classes. Raft is the
  environment: a step is allowed only if Log Matching and State Machine Safety allow it (sections 5.3 and 5.4.3 of Ongaro and
  Ousterhout, "In Search of an Understandable Consensus Algorithm").
- **Client** (`Client`). Retried mutations, leader discovery with doubling delays, round-robin reads.

`Wire` holds the byte buffer with a cursor, which stands for NuRaft's buffer. A log entry is encoded as
term, type and payload; NuRaft's own format is not part of this model. SplinterDB is a finite map and
the merge of an update is an arbitrary function.

## What the proofs found

Where the code does less than its comments or names suggest, the code is modelled as it is, a lemma
gives the input, and another says exactly when the code does what is expected.

- A message put while other calls run can be given up, by two puts on one slot (`MessageCanBeLost`) or by
  one put and a flush of its slot (`MessageCanBeLostToAFlush`): `write` returns -1 and the caller ignores
  it. Every message arrives, once, exactly when every compare-and-swap met a clean slot
  (`NothingLostIff`); with one put at a time, exactly when no put came to a slot whose earlier message
  was not yet written out whole (`OneByOneLosesIff`).
- Two messages of one producer can be written out in the wrong order: if they are published behind and
  ahead of a flush under way (`MessagesCanBeReordered`), or if a flush starts from the cursor while a put
  has claimed the slot before it, which holds the oldest message (`OldestCanBeWrittenLast`). With one put
  at a time, each waiting until its slot is not dirty, and messages that differ, the files hold the first
  of the published messages, in order, exactly when no flusher took a message while another waited in a
  slot between the oldest and its own (`OrderIsKeptIff`, and between flushes `FilesInOrderIff`; both
  directions are about what goes to the files). That is enough without messages differing
  (`OrderlyRunIsFifo`). Every run in which calls do not overlap keeps order (`UndisturbedIsFifo`).
- A log line can be cut although the buffer would have held it, because the first fragment's length is
  taken off twice: a line is whole exactly when twice the first fragment and the other two together stay
  below the buffer's size (`CompleteIff`, `CutThoughItWouldFit`).
- While revision 0 is among the files, restart recovery depends on the base file name, and a dot in it is
  not enough: `app.7` comes back as revision 7 (`DottedNameCanFail`). The logger's first files are
  recovered exactly for names whose extension reads as zero and that are not taken for archives
  (`RecoversIffReadsAsZero`). Once retention has dropped revision 0, any base name will do.
- It also depends on the other names in the directory, which match when they contain the base name: the
  logger of `app.log` takes `my_app.log.9` for its own (`OtherLoggersFileIsTakenOver`). For a base that
  reads as zero, or once revision 0 is gone, recovery works exactly when every other name does not contain
  the base, is passed over for want of a dot, or is read as a revision within the logger's own
  (`RestartDependsOnOthers`). For any base and directory it works exactly when that holds of every name
  and, while revision 0 is there, some name is read as 0 or none is read (`RestartRecoversIff`).
- The emulated disk can report a rewritten entry durable before the rewrite's own deadline: exactly when
  the entry it replaced was the last one durable already, or had a deadline still pending that has come
  (`DurableEarlyIff`, `DurableEarlyExample`).
- An overwrite can hold back entries below it: entries appended in one microsecond share one deadline,
  that of the last, and overwriting one of them drops it (`DeadlineLostExample`). `DurableAtIff` gives the
  durable index at any time of any run.
- Unpacking zero entries into an empty store sets its start back to 1 (`SpliceNothingExample`). Unpacking
  nothing leaves the log alone exactly when it is not empty or starts at 1 (`SpliceNothingIff`), and the
  next slot goes back exactly when an emptied log gets entries that end before its start
  (`SpliceGoesBackIff`).
- Batched reads with a negative hint never advance (`NegativeHintNeverAdvances`).
- Decoding accepts unknown tags and ignores trailing bytes; a payload is reproduced by re-encoding
  exactly when nothing was left over (`CanonicalIffNothingLeft`). Commit then throws on the tag.
- A client allowed no retries, and one answered 999, reports its command as accepted (`Mutate`).
- The doubling delay becomes a signed 64-bit duration: the 58th sleep would be negative and is over at
  once, so the total is 100 (2^k - 1) ms exactly for k <= 57 (`SleptIff`).
- The update call logs a PUT; with real updates a repeated attempt could be seen
  (`RepeatedUpdateIsVisible`), with what the server does log it cannot (`RepeatedCallsAreInvisible`).

## Model

| member | source | states |
|---|---|---|
| Operation.PutSlice | src/server/owned_slice.cpp:26-29 | appends the 64-bit little-endian length and then the bytes to what is written |
| Operation.GetSlice | src/server/owned_slice.cpp:31-35 | takes one length-prefixed slice off the front of what is left, or fails if it is short |
| Operation.Serialize | src/server/splinterdb_operation.cpp:11-27 | the buffer holds the command's encoding and is filled to the last byte of the size computed first |
| Operation.Deserialize | src/server/splinterdb_operation.cpp:36-52 | yields the command at the front of the payload, any tag, whatever follows; fails exactly when a slice is cut short |
| Operation.EncodedBytes | src/server/splinterdb_operation.cpp:11-27 | every byte of an encoding, by position: the tag, the key's length lowest byte first, the key, then the same of a value |
| Operation.DecodeEncode | src/server/splinterdb_operation.cpp:11-52 | every PUT, UPDATE and DELETE with any key and value decodes to itself, leaving exactly what follows it |
| Operation.EncodeDecode | src/server/splinterdb_operation.cpp:11-52 | whatever decodes, known tag or not, is the encoding of the result followed by what was left over |
| Operation.CanonicalIffNothingLeft | src/server/splinterdb_operation.cpp:36-52 | re-encoding reproduces a payload if and only if decoding left nothing over |
| Operation.PrefixFree | src/server/splinterdb_operation.cpp:11-27 | no encoding is a proper prefix of another |
| Operation.TruncatedNeverDecodes | src/server/splinterdb_operation.cpp:36-52 | a payload cut anywhere short of its end never decodes |
| RaftLog.AppendAt | src/server/in_memory_log_store.cpp:78-92 | after an append every index holds what it held, and the old next slot the entry |
| RaftLog.WriteAtAt | src/server/in_memory_log_store.cpp:94-103 | after an overwrite lower indices hold what they held, the index the entry, and there are no higher ones |
| RaftLog.CompactAt | src/server/in_memory_log_store.cpp:260-276 | after compaction to `last` just the indices above it are left, with what they held, from max(start, last + 1) to max(next, last + 1) |
| RaftLog.SpliceAt | src/server/in_memory_log_store.cpp:231-258 | after entries are laid over a log, indices in their range hold them, all other indices hold what they held, and there are no others |
| RaftLog.SpliceNothingIff | src/server/in_memory_log_store.cpp:249-257 | laying nothing over a log leaves it alone if and only if it is not empty or starts at 1 |
| RaftLog.SpliceGoesBackIff | src/server/in_memory_log_store.cpp:231-258 | the next slot goes back if and only if the log is empty and the new entries, or index 1, end before its start; over a log with entries it goes to the further end |
| RaftLog.SpliceNothingExample | src/server/in_memory_log_store.cpp:255 | an emptied log that starts at 5 is set back to 1 |
| RaftLog.DecodeEncodePack | src/server/in_memory_log_store.cpp:202-247 | unpacking a pack gives the packed entries, all of them, for entry sizes and counts below 2^31 |
| RaftLog.PackExample | src/server/in_memory_log_store.cpp:202-229 | the bytes of a pack of one entry, in the order of count, size and entry |
| RaftLog.DecodeBodyReads | src/server/in_memory_log_store.cpp:235-247 | whatever the bytes, the loop reads encoded entries one after another from their front, as many as it is told to or until what is left does not start with one |
| RaftLog.NegativeFields | src/server/in_memory_log_store.cpp:233-239 | a pack with a negative count has no entries, and an entry with a negative size ends the loop |
| RaftLog.BatchUnique | src/server/in_memory_log_store.cpp:146-174 | the description of a batch (shortest run reaching a positive hint, or the whole range, never empty short of the end) determines it |
| RaftLog.BatchRunReadsAll | src/server/in_memory_log_store.cpp:123-174 | batched reads that each start where the last ended and reach the end concatenate to the whole range |
| RaftLog.SomeBatchRun | src/server/in_memory_log_store.cpp:146-174 | with a hint that is not negative, repeated batched reads do reach the end |
| RaftLog.NegativeHintNeverAdvances | src/server/in_memory_log_store.cpp:151-153 | with a negative hint no number of batched reads reaches the end |
| LogStore.RangeIsContiguous | src/server/in_memory_log_store.cpp:59-63 | a map whose keys are the dummy and a log's range has the size from which the next slot is computed right |
| LogStore.AppendContiguous | src/server/in_memory_log_store.cpp:78-92 | storing at the slot computed from the size keeps the keys contiguous and appends to the log |
| LogStore.WriteAtContiguousIff | src/server/in_memory_log_store.cpp:94-103 | a truncating overwrite keeps the keys contiguous exactly from the start to the next slot (or at the dummy), and there truncates and appends |
| LogStore.WriteAtMapAt | src/server/in_memory_log_store.cpp:94-103 | an overwrite at any index, in range or not, leaves the keys below it and the entry |
| LogStore.PendingAt | src/server/in_memory_log_store.cpp:105-118 | an overwrite leaves its own deadline and those of indices no higher |
| LogStore.SpliceContiguousIff | src/server/in_memory_log_store.cpp:231-258 | an unpacking keeps the keys contiguous if and only if the new entries touch the old ones or one of the two is empty, and then lays them over the log |
| LogStore.CompactContiguous | src/server/in_memory_log_store.cpp:260-276 | compaction keeps the keys contiguous from max(start, last + 1), even past the end |
| LogStore.InMemLogStore.constructor | src/server/in_memory_log_store.cpp:26-36 | an empty log from index 1, with the dummy at 0 |
| LogStore.InMemLogStore.NextSlot | src/server/in_memory_log_store.cpp:59-63 | the slot computed from the size is the one after the last entry |
| LogStore.InMemLogStore.LastEntry | src/server/in_memory_log_store.cpp:67-76 | the entry before the next slot, or the dummy when the log is empty |
| LogStore.InMemLogStore.EntryAt | src/server/in_memory_log_store.cpp:176-187 | the log's entry at the index, or the dummy out of range |
| LogStore.InMemLogStore.TermAt | src/server/in_memory_log_store.cpp:189-200 | the term of the log's entry at the index, or the dummy's out of range |
| LogStore.InMemLogStore.Append | src/server/in_memory_log_store.cpp:78-92 | the log grows by the entry, its index is the old next slot, and a deadline is set if a delay is |
| LogStore.InMemLogStore.WriteAt | src/server/in_memory_log_store.cpp:94-121 | for every index the map loses what is at or above it and gains the entry; in range the log is truncated and appended to; later pending writes are dropped |
| LogStore.InMemLogStore.TruncateFrom | src/server/in_memory_log_store.cpp:97-102 | the erasing loop leaves exactly the keys below the index |
| LogStore.InMemLogStore.DropBeyond | src/server/in_memory_log_store.cpp:110-118 | the erasing loop leaves exactly the pending writes at or below the index |
| LogStore.InMemLogStore.LogEntries | src/server/in_memory_log_store.cpp:123-144 | the log's entries of the range, in order |
| LogStore.InMemLogStore.LogEntriesExt | src/server/in_memory_log_store.cpp:146-174 | the one batch that the hint describes |
| LogStore.InMemLogStore.Pack | src/server/in_memory_log_store.cpp:202-229 | the buffer, allocated once, is filled to its last byte with the count and the sized entries of the range |
| LogStore.InMemLogStore.WritePack | src/server/in_memory_log_store.cpp:218-228 | copying the parts into the buffer fills exactly the size computed from them |
| LogStore.InMemLogStore.UnpackInto | src/server/in_memory_log_store.cpp:235-247 | the loop lays over the map exactly the entries decoded before it ends or a malformed one is met |
| LogStore.InMemLogStore.ApplyPack | src/server/in_memory_log_store.cpp:231-258 | for any bytes, the map and start left; for entries that touch the log, the log with them laid over it |
| LogStore.InMemLogStore.Compact | src/server/in_memory_log_store.cpp:260-276 | the log without everything up to the index, which may lie past the end: just the dummy and the keys above it are left as they were, and the start is above it |
| LogStore.InMemLogStore.Flush | src/server/in_memory_log_store.cpp:278-281 | the durable index becomes the last index |
| LogStore.InMemLogStore.LastDurableIndex | src/server/in_memory_log_store.cpp:295-302 | the last index without a delay, the emulated one with a delay |
| LogStore.InMemLogStore.DiskTick | src/server/in_memory_log_store.cpp:313-340 | the latest deadline that has come decides the durable index, all that have come and no others are removed, Raft is notified if there was any |
| Durability.StepKeepsInv | src/server/in_memory_log_store.cpp:78-121 | appends, overwrites at or above the durable index and ticks keep pending indices ordered by deadline, the last one pending or durable, and never lower the durable index |
| Durability.RunIsDurable | src/server/in_memory_log_store.cpp:295-342 | over every run the durable index never goes back nor passes the last index, and a tick after every deadline makes them equal |
| Durability.DurableAtIff | src/server/in_memory_log_store.cpp:94-118 | at any time of any run an entry is reported durable if and only if it was at the start, or a write at it or above is due that no later write undoes, by going to a lower index or by having the same deadline |
| Durability.KeptByOverwriteIff | src/server/in_memory_log_store.cpp:94-118 | before an overwrite is due, an entry below it is durable if and only if it was, or a deadline has come of an index between the two |
| Durability.DeadlineLostExample | src/server/in_memory_log_store.cpp:94-118 | a run in which overwriting the second of three entries of one microsecond holds back the first |
| Durability.OverwriteIff | src/server/in_memory_log_store.cpp:94-121 | an overwrite keeps that invariant if and only if it is not below the durable index |
| Durability.DurableEarlyIff | src/server/in_memory_log_store.cpp:105-118 | a rewritten entry is reported durable before its deadline if and only if the entry it replaced was the last one durable already, or had a deadline still pending that has come |
| Durability.DurableEarlyExample | src/server/in_memory_log_store.cpp:105-118 | a run where that happens one time unit after the rewrite, with a delay of ten |
| Durability.Happen | src/server/in_memory_log_store.cpp:78-121 | a call on a store with a delay takes its pending writes, durable index and last index where the run's step does |
| Durability.Emulate | src/server/in_memory_log_store.cpp:285-342 | a store whose delay is set first goes through any such run of calls as the emulation does; at any time it reports the highest index that a write still standing and due has made durable, and after all deadlines its last index |
| StateMachine.Machine.constructor | src/server/splinterdb_state_machine.cpp:18-29 | an empty store, nothing committed |
| StateMachine.Machine.Commit | src/server/splinterdb_state_machine.cpp:35-72 | the decoded command is applied and the index recorded; if the payload does not decode or its tag is unknown, neither changes |
| StateMachine.ApplyOn | src/server/splinterdb_state_machine.cpp:49-64 | a put leaves its value, a delete nothing, an update the merge with what was there, and no other key changes |
| StateMachine.CommitIff | src/server/splinterdb_state_machine.cpp:35-72 | a commit goes through if and only if the payload is the encoding of a known command, with anything after it, and applies that command |
| StateMachine.FoldAppliesCommands | src/server/splinterdb_state_machine.cpp:35-77 | committing the entries a leader wrote for commands applies those commands in order, configurations skipped |
| StateMachine.LastWriterDecides | src/server/splinterdb_state_machine.cpp:50-64 | in any log of PUT and DELETE, what a key holds is decided by the last command on it alone |
| StateMachine.LastWriterWins | src/server/splinterdb_state_machine.cpp:50-64 | two logs with the same last command on every key end in the same map |
| StateMachine.EarlierAttemptIsInvisible | src/client/client.cpp:115-138 | taking out a command that a later one hits the same key as leaves the map unchanged |
| StateMachine.RetriesAreInvisible | src/client/client.cpp:115-187 | taking out all but the last attempt of a retried command leaves the map unchanged, whatever lies between |
| StateMachine.RepeatedCallsAreInvisible | src/server/server.cpp:144-171 | repeating a client's call, update or not, leaves the map as if only its last attempt had been logged |
| StateMachine.KeepLastKeepsOne | src/client/client.cpp:115-187 | that takes out exactly the earlier attempts: one is left if there was any, other commands as often as before |
| StateMachine.RepeatedUpdateIsVisible | src/server/server.cpp:164-171 | with updates logged as updates a repeated attempt would change the map |
| Cluster.Shipped | src/server/in_memory_log_store.cpp:202-258 | what arrives of a shipped pack, decoded from its bytes, are the sender's entries of that range |
| Cluster.CallKeepsSound | src/server/in_memory_log_store.cpp:78-121 | every call keeps the map the fold of the committed entries and the log in agreement with them |
| Cluster.OverwriteIff | src/server/in_memory_log_store.cpp:94-103 | an overwrite keeps that if and only if it is above the commit index, or at it with the committed entry |
| Cluster.StepKeepsInv | src/server/in_memory_log_store.cpp:231-276 | every step of any replica, packs from another included, keeps all replicas sound and their histories compatible |
| Cluster.ReplicasAgree | src/server/splinterdb_state_machine.cpp:35-77 | after every run from fresh replicas, a replica holds what one that has committed more held at that index; at equal indices the maps are equal |
| Cluster.StoreIsCommandsApplied | src/server/splinterdb_state_machine.cpp:35-77 | after every run a replica's map is the committed commands applied in order |
| Cluster.ReceiveIsPrefix | src/server/in_memory_log_store.cpp:231-258 | adjacent packs from index 1, however cut, build exactly the peer's log up to where they end |
| Cluster.JoinerCatchesUp | src/server/in_memory_log_store.cpp:202-258 | a fresh replica sent its peer's log in any chunks and committing 1 to n holds what the peer holds after 1 to n: the commands applied in order |
| Joining.ReceivePacks | src/server/in_memory_log_store.cpp:202-258 | packs made by one store and applied to a fresh one leave it with the peer's log up to where they end |
| Joining.CommitUpTo | src/server/splinterdb_state_machine.cpp:35-77 | committing a store's entries 1 to n, commands and configurations by type, leaves the fold of them and commit index n, or fails exactly where the fold does |
| Joining.Join | src/server/in_memory_log_store.cpp:202-258 | on the classes, whatever the packs and the log: the joiner's map is the fold of the peer's entries 1 to n, and for a log of commands the commands applied in order |
| RingThreads.StepKeepsInv | src/server/logger.cpp:694-715 | every atomic action keeps slot ownership, copies in progress, untorn files, conservation of messages and file sizes |
| RingThreads.EveryRunIsSafe | src/server/logger.cpp:1020-1037 | in every interleaving of any number of threads all of these hold |
| RingThreads.AtRest | src/server/logger.cpp:1148-1182 | with no flush under way files are whole accepted messages one after another and the open one is within the limit; with a clean ring they are all accepted messages, each once |
| RingThreads.DroppedGrows | src/server/logger.cpp:694-697 | a run gives no message up if and only if every put's compare-and-swap met a clean slot |
| RingThreads.NothingLostIff | src/server/logger.cpp:1020-1037 | a run that leaves no put under way accepts every message put, and with a clean ring writes each out once, if and only if every compare-and-swap met a clean slot |
| RingOrder.OrderIsKeptIff | src/server/logger.cpp:1020-1187 | over every run with one put at a time and messages that differ: what flushers have taken to the files is the first of what was published, in order, if and only if none took a message while an older one waited |
| RingOrder.FilesInOrderIff | src/server/logger.cpp:1148-1182 | with no flush under way the files are whole messages, and these are the first of the published ones, in order, if and only if that holds |
| RingOrder.OrderlyRunIsFifo | src/server/logger.cpp:1020-1187 | in every such run, messages different or not and however flushes overlap puts: messages taken and then those waiting are all published in order, and all put in order when none is lost |
| RingOrder.PutsAreTheOrder | src/server/logger.cpp:1020-1037 | with one put at a time and none giving up, messages are published in the order they were put |
| RingOrder.OneByOneLosesIff | src/server/logger.cpp:1028-1037 | with one put at a time a run loses a message if and only if a put comes to a slot whose earlier message is not written out whole |
| RingCalls.UndisturbedIsCalls | src/server/logger.cpp:1020-1187 | every run, from nothing under way to nothing under way, in which only one thread at a time is in a call and its hints are true ends in the ring, cursor and files that the sequential calls leave, and loses nothing |
| RingCalls.UndisturbedIsFifo | src/server/logger.cpp:1020-1187 | so in every such run of a logger just started the files and then the ring are all messages put, in order, whichever threads put them |
| RingCalls.CallsCanBeMade | src/server/logger.cpp:1020-1187 | any calls by any threads have such a run, in which just these calls are begun, by these threads |
| RingOverlap.MessageCanBeLost | src/server/logger.cpp:1020-1037 | the input to `NothingLostIff`: two puts that claimed one slot, one message given up |
| RingOverlap.MessageCanBeLostToAFlush | src/server/logger.cpp:1030-1037 | the input to `OneByOneLosesIff`: a run with one put at a time that comes to a slot being flushed, where the put's next action gives its message up |
| RingOverlap.MessagesCanBeReordered | src/server/logger.cpp:1148-1162 | an input to `OrderIsKeptIff`: a run with one put at a time that publishes [1] and then [2], behind and ahead of a flusher, and writes out [2] and then [1] |
| RingOverlap.OldestCanBeWrittenLast | src/server/logger.cpp:1184-1187 | an input to `OrderIsKeptIff`: a run that publishes [1] and then [2], with no flush under way, and writes out [2] and then [1], in a flush from the cursor behind a put's claim |
| RingLogger.SimpleLogger.constructor | src/server/logger.cpp:719-731 | a clean ring with its cursor at 0 and nothing waiting, on the file of the revision found |
| RingLogger.SimpleLogger.WriteElem | src/server/logger.cpp:694-704 | a clean slot takes the message cut to size; any other is left as it was and -1 returned |
| RingLogger.SimpleLogger.FlushElem | src/server/logger.cpp:706-715 | a dirty slot's message goes to the end of the file and the slot is clean; any other is left as it was |
| RingLogger.SimpleLogger.SweepRound | src/server/logger.cpp:1152-1161 | the two loops write out the dirty slots once round from the start, in that order, and leave all slots clean |
| RingLogger.SimpleLogger.Rotate | src/server/logger.cpp:1164-1179 | past a non-zero limit the file is closed and queued and the next revision begun empty; otherwise nothing changes |
| RingLogger.SimpleLogger.Flush | src/server/logger.cpp:1148-1182 | the sweep from the start followed by the rotation |
| RingLogger.SimpleLogger.Put | src/server/logger.cpp:955-1037 | below the log level nothing; otherwise the claimed slot takes the message, after a flush from it if it was dirty |
| RingLogger.SimpleLogger.FlushAll | src/server/logger.cpp:1184-1187 | a flush from the cursor |
| RingLogger.FlushAllKeeps | src/server/logger.cpp:1184-1187 | flushing moves every message from the ring to the files and changes nothing put |
| RingLogger.PutAppends | src/server/logger.cpp:1020-1037 | a put adds its message, cut to size, behind everything put, also when the ring is full and wraps |
| RingLogger.RunIsFifo | src/server/logger.cpp:1020-1187 | over every run of calls that do not overlap, files in revision order and then the ring from the cursor are all messages in order, and revisions are consecutive |
| RingLogger.RunHolds | src/server/logger.cpp:1020-1187 | over every such run from a ring in which the last messages wait behind the cursor, exactly the messages wait that came since the last flush or the last put that found the ring full |
| RingLogger.CallHolds | src/server/logger.cpp:1020-1037 | a put that finds room changes only the ring and the cursor, one that finds the ring full sends all that waits to the files first |
| RingLogger.RunIsSized | src/server/logger.cpp:1164-1179 | over every such run each rotated file has passed the limit by at most one ring of messages and the open one keeps to it, but for a file larger than the limit at the start; without a limit no file is rotated |
| Formatting.Snprintf | src/server/logger.cpp:945-953 | a fragment of any length is written within the buffer; where it does not fit, its bytes fill the room but for a terminator at the end |
| Formatting.Compose | src/server/logger.cpp:985-1018 | the line is its three fragments composed, and is no longer than a slot |
| Formatting.ComposedFits | src/server/logger.cpp:945-953 | for any number and lengths of fragments the line stays within the buffer |
| Formatting.CompleteIff | src/server/logger.cpp:945-1018 | a line is complete if and only if twice its first fragment and the other two together are shorter than the buffer |
| Formatting.CutThoughItWouldFit | src/server/logger.cpp:945-1018 | a line of 4000 bytes that comes out cut from a buffer of 4096 |
| Rotation.Manager.RotateFile | src/server/logger.cpp:1164-1179 | going on to a new file and queueing the old one is the rotation step, whatever the compressor is doing |
| Rotation.Manager.CompressOnce | src/server/logger.cpp:464-479 | the job at the front of the queue, if any, is taken and done |
| Rotation.Manager.DoCompression | src/server/logger.cpp:1122-1146 | the plain files lose the revision and the archives gain it, both lose just what retention drops, the least revision moves on, the job is counted off |
| Rotation.StepsAreCompression | src/server/logger.cpp:464-479 | the compressor's single steps for a job, undisturbed, come to what its code does |
| Rotation.StepKeepsInv | src/server/logger.cpp:1122-1182 | every rotation of any logger and every compressor step keeps every logger's files, counter and pending revisions in order |
| Rotation.EveryRunIsTidy | src/server/logger.cpp:450-481 | in every interleaving pending revisions are consecutive and done in order, the counter counts them, the files on disk are exactly the least to the open revision, and of those since the start the ones done are archives only and the ones to come plain only |
| Rotation.DoneIsArchived | src/server/logger.cpp:1122-1142 | in every interleaving a compressed revision still kept is an archive and its original is gone; with nothing pending the only plain file of the run is the open one; files of earlier runs are deleted or left as they were |
| Rotation.RetentionIsExact | src/server/logger.cpp:1132-1142 | in every interleaving, once revision n is compressed, exactly the newest of the files up to n are kept, as many as the limit or all there were |
| LogFiles.StepKeepsLinked | src/server/logger.cpp:1164-1179 | every action of a ring's threads, of the compressor or of another logger keeps the open revision at as many files as the ring has closed |
| LogFiles.FilesAreTheEnd | src/server/logger.cpp:1122-1182 | in every interleaving the revisions of this run on disk are those of its last files; these hold the end of all that was written out, and the files deleted hold the rest |
| Recovery.FindMinMaxRevNum | src/server/logger.cpp:792-848 | the least revision read from any name that contains the base, and the greatest, an archive counting one more; 0 and 0 if none is read |
| Recovery.ContainsIff | src/server/logger.cpp:812-814 | a name is looked at if and only if it is some front, the base, and some end |
| Recovery.StrangerChangesNothing | src/server/logger.cpp:810-817 | any other name, wherever it is listed, changes nothing in what is found |
| Recovery.OtherReplicaIsPassedOver | src/server/replica.cpp:60-66 | the logger of srv-1.log, beside srv-2.log.3 in one directory, comes back at 0 |
| Recovery.ArchiveAlone | src/server/logger.cpp:868-875 | where only an archive of a rotated file is left, the range ends one above it |
| Recovery.AtoiReads | src/server/logger.cpp:868 | blanks, a sign and digits, up to what is not a digit, are read as the number they print |
| Recovery.ReadingNegative | src/server/logger.cpp:868-875 | a negative number is read as what it wraps to in 64 bits |
| Recovery.ReadingOfGz | src/server/logger.cpp:857-866 | any seven characters that end in .gz are cut off, and what is before them is read to the end of its last part |
| Recovery.PassedOverIff | src/server/logger.cpp:850-866 | a name is passed over if and only if it has no dot, or none before seven such characters |
| Recovery.AtoiDecimal | src/server/logger.cpp:868-881 | reading a printed revision gives the revision |
| Recovery.ReadingRotated | src/server/logger.cpp:850-882 | the name of a rotated file is read as its revision, for any base name |
| Recovery.ReadingPacked | src/server/logger.cpp:850-882 | the name of an archive is read as an archive of its revision, for any base name but for revision 0, whose base must read as zero |
| Recovery.RestartRecoversIff | src/server/logger.cpp:792-875 | on what any run of rotations and compressions left, for any base name, among other files and in any order, a restart finds exactly the least and the open revision if and only if no name that contains the base is read as a revision outside them and, while revision 0 is there, some name is read as 0 or none is read |
| Recovery.RestartDependsOnOthers | src/server/logger.cpp:792-875 | once revision 0 is gone, or for a base that reads as zero, that is so if and only if it is so of the names that are not the logger's own |
| Recovery.OtherLoggersFileIsTakenOver | src/server/logger.cpp:810-817 | the logger of app.log, never rotated, takes my_app.log.9 for its own and comes back at revision 9 |
| Recovery.RecoversIffReadsAsZero | src/server/logger.cpp:850-882 | recovery of a logger's first files works if and only if the base name reads as zero |
| Recovery.DottedNameCanFail | src/server/logger.cpp:850-882 | a base name with a dot for which it does not |
| Client.Client.GetLeaderId | src/client/client.cpp:204-235 | the leader named, or failure; exactly the queries and sleeps that the answers make, at most N R and N (R + 1), and the sleeps' total is the sum of the doubling delays |
| Client.NamedIff | src/client/client.cpp:204-235 | a leader is found if and only if some server names it with its first answer that is no refusal, after every server before it refused all queries or raised |
| Client.NoneNamedIff | src/client/client.cpp:220-234 | none is found if and only if every server refuses all its queries or raises first |
| Client.SleepsFollowQueries | src/client/client.cpp:206-231 | every query but the one that names the leader is followed by a sleep, and one more by each server given up without raising |
| Client.SearchExample | src/client/client.cpp:204-235 | a search of two servers: four queries, three sleeps, 700 ms |
| Client.Client.TryHandleLeaderChange | src/client/client.cpp:95-109 | exactly after NOT_LEADER or REQUEST_CANCELLED the leader becomes the one found, or the search's failure is passed on |
| Client.Client.Mutate | src/client/client.cpp:93-187 | at most R attempts, the first to the leader known and each other one, after a refusal, to the leader found or the same again; fails exactly where the leader is not connected, the last call raised or no leader was found; else the result is the last answer, reported accepted exactly when it was accepted, met the weird case, or none was allowed |
| Client.SleptIff | src/client/client.cpp:205-228 | k sleeps take 100 (2^k - 1) ms if and only if k <= 57; the 58th duration is negative and no sleep, and later ones fall short |
| Client.RoundRobinReadPolicy.constructor | include/client/read_policy.h:18-23 | the queue holds the ids in order |
| Client.RoundRobinReadPolicy.NextServer | include/client/read_policy.h:25-30 | the front id is returned and moved to the back, so the k-th call returns the k-th read's server |
| Client.ReadGoesTo | include/client/read_policy.h:25-30 | after i reads the queue is a rotation of the ids, and read i goes to id i mod n |
| Client.FullTurn | include/client/read_policy.h:25-30 | any n reads in a row go to each of the n connected servers once |
| Client.ReadsAreFair | include/client/read_policy.h:25-30 | of any m reads in a row each connected server gets m/n rounded down or up, and no other server any |

## Left out

- Log indices, terms, revisions, timestamps and job counts do not overflow going up; entry sizes and counts are below 2^31, where the pack's signed fields hold them.
- Durability.DurableAtIff: of runs that start with nothing pending, as a store does.
- Recovery.RestartRecoversIff: revisions below 2^31; numbers in other names are read without the overflow `atoi` leaves undefined; the split of a path into directory and name is not modelled.
- Recovery.RecoversIffReadsAsZero: speaks of directories that hold the logger's own files only.
- RingOrder.OrderIsKeptIff: order is that of publishing, and puts that overlap each other, which have no order of their own, are not among its runs; a put does not come to its compare-and-swap while its slot is dirty, which its wait sees to; messages that are equal can change places unseen, so it takes them to differ.
- RingCalls.UndisturbedIsCalls: a hint is true when the load that gives it is made with the action it leads to.
- Client.SleptIff: durations are signed and have 64 bits, and a negative one ends at once, as in the C++ library of the platforms the server is built for.
- LogStore.InMemLogStore.Pack: the range must be present, because the original would insert a null entry for a missing index.
- LogStore.InMemLogStore.LogEntries: the range must be present, because the original asserts it.
- LogStore.InMemLogStore.DiskTick: one turn of the loop; waiting between turns is not modelled, and Raft's notification is the result.
- RingLogger.SimpleLogger.Put: the line arrives formatted (`Formatting` builds it); the console part is not modelled.
- RingLogger.SimpleLogger.constructor: the ring has at least one slot, because the original divides by their number.
- Client.Client.Mutate: the fixed pause after a leader change and the console messages are not modelled; the answers are a function of attempt and server.
- Rotation.Manager.DoCompression: its shell commands always succeed, and are additions to and removals from sets of revisions.
- Liveness: waiting loops of `put` and `stop` are not shown to end.
- Hardware memory order: every action is atomic and takes effect in one order; only the relaxed loads are left free.
- A logger without its manager, changing the retention limit or the log level while it runs, and stopping and destroying one.
- Raft itself: elections, replication and membership appear only as the conditions under which a call is made.
- NuRaft's own buffer and log entry formats, and the timestamp and checksum of an entry, which packs do not preserve.
- SplinterDB: its return codes, failures, cache commands and concurrency; snapshots, which throw in the original.
- The store's lock: its methods run one at a time.
- `src/server/splinterdb_log_store.cpp`, which is compiled out, and the RPC server, argument parsing and command line.
- The loss of a command in a crash: the log store keeps everything in memory.
