# CatBSD: a model of its Darwin compatibility layer

CatBSD rebuilds parts of Darwin's userland in C. This project models the five
components whose promises are hardest to see from the code, and proves those
promises with Dafny's verifier.

* **Blocks runtime** (`LatchingCount`, `BlockMemory`, `BlockCounting`,
  `BlockCopying`, `BlockCaptures`, `BlockReleasing`, `BlockProgram`,
  `BlockLiterals`, `BlockRuntime`).
  `BlockMemory` says what each entry point does to a memory of blocks and
  byrefs; `BlockRuntime` has the entry points in the form they have in C,
  updating objects in place, and proves that they do that. `BlockProgram` lets
  any correct program use them, and `BlockLiterals` follows what a literal
  captured into every copy of it. `LatchingCount` takes the count apart into
  single loads and compare-and-swaps of any number of threads.
* **XPC shim** (`XpcWire`, `XpcRoundTrip`, `XpcFormat`, `XpcDictionary`,
  `XpcDeadline`, `XpcStream`, `XpcPending`, `XpcCorrelation`, `XpcClaims`,
  `XpcCalls`). The wire format as functions on bytes, and in `XpcFormat` as what
  the bytes of a frame are; the dictionary, the pending queue and the socket
  loops as classes and loops proved against them; request and reply correlation
  as a state machine over the steps of any number of threads.
* **launchd supervisor** (`LaunchHistory`, `LaunchPromises`, `LaunchSystem`,
  `LaunchTracking`, `LaunchTick`, `LaunchTable`, `LaunchPlist`, `LaunchJobs`,
  `LaunchControl`, `LaunchInit`).
  Every operation of the registry appends the events it performed to a history. Each
  event has a guard; the history determines every field of every job and the
  set of unreaped children. What an operator may rely on is proved of all
  guarded histories in `LaunchPromises`; `LaunchJobs` proves that the registry
  produces only such histories, `LaunchPlist` makes jobs of property lists,
  `LaunchControl` adds the control protocol and
  `LaunchInit` the process from boot to shutdown.
* **Property list reader** (`PlistBase64`, `PlistText`, `PlistSpelling`,
  `PlistGrammar`, `PlistMarkup`, `PlistRoundTrip`, `PlistDocument`,
  `PlistLoose`, `PlistAccepted`, `PlistErrors`, `PlistCursor`, `PlistParser`). `PlistGrammar` is the parser as functions on
  the bytes left to read; `PlistParser` is the parser as it runs, one cursor
  moved in loops, proved equal to it. The repository has no printer, so
  `PlistMarkup` and `PlistRoundTrip` define one with every freedom the format
  leaves a writer. `PlistLoose` adds what the reader lets pass besides, so
  that `PlistAccepted` can say exactly what is accepted; `PlistErrors` says where
  a document that does not fit is given up.
* **Mach port shim** (`MachPort`). Ports with a message list and a wakeup event
  of their own, used by any number of senders, receivers and waiters.

`Common` and `Chains` hold shared vocabulary: options, bytes, sums over
sequences, and hand-written singly linked lists.

Environments are nondeterministic: the process table and clock change
arbitrarily between any two system calls of the supervisor, the socket accepts
and delivers bytes in arbitrary pieces, and threads interleave arbitrarily at
every lock section, load and compare-and-swap.

Check everything with `dafny verify dfyconfig.toml` (Dafny 4.11).

## Where the code and its documentation differ

The model follows the code.

* `launch_job.h:122-125` says the tick returns the number of jobs whose state
  changed. It returns the number of transitions. `TickCountsTransitions`: that is
  never less, and it is the same exactly when no job was reaped with a status its
  KeepAlive accepts so early that its throttle had passed when the second loop
  read the clock. `ForeseenCount` says what can be told before the tick, and
  `CanCountTwice` which registries have a tick that counts too many;
  `Registry.Tick` carries all of it but the last in its own contract.
* `xpc_shim.h:193-196` says that receive returns the next message not claimed by
  a pending reply wait. It returns the head of the queue or else the next frame,
  whatever that is. `ReceiveBreaksClaim` says exactly when this is a reply that a
  sync call is waiting for, `StolenFromSocket` and `StolenFromQueue` are runs in
  which it is, and `SerializedKeepsClaims` says what a caller can do about it.
  `ReceiveCanSteal`: from any state, a receive that is left alone does it exactly
  when such a reply is first in line.
* A read that times out or fails inside a frame drops the bytes it took, and the
  next read starts in the middle of that frame. So what is read is what was sent
  exactly as long as no read fails there (`FailedReadBoundary`,
  `InStepIffNothingLost`); `OutOfStep` is a run that hands out a message nobody
  sent.
* A write that fails inside a frame leaves the connection open, and the next
  message is sent behind the fragment. `AfterFailedWrite` says what a reader makes
  of that: only if nothing of the frame had gone out is the next message read from
  its own start.
* `launchctl_server.c:57-58` says that each handler sends exactly one reply. Each
  makes exactly one, but the status of a job whose label is close to 1 MiB is too
  long to be transmitted, and the client gets nothing (`StatusSize`,
  `UnansweredStatus`; `HandleRequest` and `Init` say that it is the only case).
* The public setters refuse empty keys, but the deserializer does not use that
  check: a string or data key that starts with NUL becomes an empty key, and the
  frame written for such a dictionary is refused by the reader
  (`FrameRoundTrip`, `RereadStable`, `RefusedReread`).
* A sync call does not look at the queue again after it has taken the read lock.
  `ReplyIsOverlooked` is a run in which its reply is queued and it waits all the
  same. Exactly when: a call that has still to look in the queue finds the reply
  there at its next step (`SyncTakesQueuedReply`), and one that has looked is not
  given it before somebody reads another frame (`NotBeforeTheNextFrame`). A call
  that is left alone always comes back with it (`SyncReturnsItsReply`).
* The property list reader lets more pass than a well-formed document:
  `</dict>` where a value starts opens a dictionary, `<integer/>`, `<real/>` and
  `<key/>` are read as opened and not as empty, any text is a number, and what
  follows the digits of a numeric reference is ignored. `LooseDocument` is
  exactly what is accepted (`AcceptsExactlyLooseDocuments`).

## Model

| member | source | states |
|---|---|---|
| LatchingCount.CountIsOwnersOrLatched | src/darwin-compat/blocks/runtime.c:116-158 | in every interleaving of loads and compare-and-swaps the count is the number of outstanding owners or latched, the flag bits above it never change, exactly one release sees zero, and it frees only after every owner has let go |
| LatchingCount.LatchedIsForever | src/darwin-compat/blocks/runtime.c:94-126 | a count that reached 0xffff stays there and its object is never disposed of |
| LatchingCount.StepKeepsInv | src/darwin-compat/blocks/runtime.c:145-158 | each single load, compare-and-swap, hand-over or dispose of any thread keeps the ownership invariant |
| BlockProgram.CountsAreExact | src/darwin-compat/blocks/runtime.c:285-326 | after any program a heap object's count is positive and is the number of its references (fields of live heap blocks, a promoted variable's frame, handles) or latched; an address with no object is referred to by nothing |
| BlockProgram.RunKeepsInv | src/darwin-compat/blocks/runtime.c:285-609 | the counting invariant holds in every state any sequence of declarations, literals, copies, releases, writes and scope exits reaches |
| BlockProgram.HeapPointsToHeap | src/darwin-compat/blocks/runtime.c:560-588 | no captured block or byref field of a heap block points into a stack frame or at a freed object |
| BlockProgram.NoLeaks | src/darwin-compat/blocks/runtime.c:459-496 | once all scopes are left and all handles released, nothing unlatched remains on the heap |
| BlockProgram.NoCycle | src/darwin-compat/blocks/runtime.c:560-588 | in every state a program reaches, no chain of captures comes back to its first object: captured blocks come from ever earlier literals and a `__block` variable holds nothing |
| BlockProgram.HoldersAgree | src/darwin-compat/blocks/runtime.c:368-411 | all holders of one `__block` variable forward to the same cell, which forwards to itself, and read the same value |
| BlockProgram.VariableIsOneCell | src/darwin-compat/blocks/runtime.c:368-411 | no operation changes a variable's value except a write to that variable, through whichever holder; promotion keeps it |
| BlockLiterals.CapturesAreKept | src/darwin-compat/blocks/runtime.c:285-326 | after any program every block of a literal, the original and each copy, holds field by field what the literal was evaluated with: the same foreign pointer, the same variable, a block of the same literal, or no block |
| BlockCopying.CopyBlockInv | src/darwin-compat/blocks/runtime.c:285-326 | a copy hands out one counted reference to a block that is not on the stack, keeps every object and every reading, and keeps the counts exact; what its fields are is stated by CopyCaptures |
| BlockCaptures.CopyCaptures | src/darwin-compat/blocks/runtime.c:285-326 | NULL gives NULL, a global or heap block itself, and a stack block a new block of the same literal that captured, field by field, what the original captured; so does every other block the copy made |
| BlockCaptures.FieldCaptured | src/darwin-compat/blocks/runtime.c:560-588 | one assign call stores the same foreign pointer, a cell of the same `__block` variable, or for a block a block of the same literal that captured the same in turn (NULL exactly for NULL) |
| BlockCaptures.FieldsCaptured | src/darwin-compat/blocks/runtime.c:534-560 | the copy helper does so for each field in turn, and what later fields copy spoils no earlier one |
| BlockCopying.ByrefAssignCopyInv | src/darwin-compat/blocks/runtime.c:368-411 | a captured `__block` variable is promoted on first use and counted afterwards; the heap cell starts with two references |
| BlockCopying.NoDangling | src/darwin-compat/blocks/runtime.c:560-588 | nothing in memory refers to an address without an object |
| BlockReleasing.ReleaseBlockInv | src/darwin-compat/blocks/runtime.c:459-496 | a release with its whole cascade keeps the counts exact and only takes away objects nobody refers to |
| BlockReleasing.DisposeFieldsInv | src/darwin-compat/blocks/runtime.c:593-609 | a dispose helper gives back exactly the references its block held |
| BlockReleasing.ReleaseThroughHolder | src/darwin-compat/blocks/runtime.c:414-439 | releasing a byref through any holder of the variable takes one reference off the shared cell, keeps the counts exact, and frees the cell exactly when that was its last reference |
| BlockRuntime.Runtime.LatchingIncrAt | src/darwin-compat/blocks/runtime.c:116-126 | the in-place increment of one object's count, latched at 0xffff |
| BlockRuntime.Runtime.LatchingDecrAt | src/darwin-compat/blocks/runtime.c:145-158 | the in-place decrement and the count it returns; full and empty counts stay |
| BlockRuntime.Runtime.BlockCopy | src/darwin-compat/blocks/runtime.c:453-455 | the copy in place leaves the memory the copying function gives, with one more counted reference |
| BlockRuntime.Runtime.CopyInternal | src/darwin-compat/blocks/runtime.c:285-326 | the same while outer copies are still unfinished |
| BlockRuntime.Runtime.CopyStack | src/darwin-compat/blocks/runtime.c:308-326 | bit-copy, count reset to one and copy helper on a stack block amount to publishing a finished heap block |
| BlockRuntime.Runtime.CopyHelper | src/darwin-compat/blocks/runtime.c:534-560 | fixing up the fields of the copy one by one in place gives the fields assigned one by one |
| BlockRuntime.Runtime.Assign | src/darwin-compat/blocks/runtime.c:560-588 | the three-way dispatch on the field kind, in place; what a `__block` variable contains is stored as it is and changes nothing |
| BlockRuntime.Runtime.ByrefAssign | src/darwin-compat/blocks/runtime.c:368-411 | promotion and counting in place, including the forwarding pointer left on the stack |
| BlockRuntime.Runtime.Release | src/darwin-compat/blocks/runtime.c:459-482 | the release in place, with the dying block still in memory while its captures go, gives the memory of the releasing function |
| BlockRuntime.Runtime.DisposeHelper | src/darwin-compat/blocks/runtime.c:593-609 | the loop over a dying block's fields releases each in turn |
| BlockRuntime.Runtime.Dispose | src/darwin-compat/blocks/runtime.c:593-609 | the dispatch of one dispose call on the field kind; for what a `__block` variable contains nothing is done |
| BlockCopying.ContentsNotRetained | src/darwin-compat/blocks/runtime.c:560-609 | the contents of a `__block` variable are neither copied, retained nor released |
| BlockRuntime.Runtime.ReleaseByref | src/darwin-compat/blocks/runtime.c:414-439 | the byref release in place |
| XpcRoundTrip.FrameRoundTrip | src/darwin-compat/shims/xpc_shim.c:694-901 | serialize writes 24 bytes and as many as payload_size_locked counted, and deserialize returns the same ordered keys, types, values, id and reply flag, whatever follows in the buffer; with an empty key the frame is refused, and only then |
| XpcRoundTrip.EditedRoundTrip | src/darwin-compat/shims/xpc_shim.c:268-379 | every dictionary built by the public setters and remove whose frame fits 1 MiB round-trips |
| XpcRoundTrip.EntryRoundTrip | src/darwin-compat/shims/xpc_shim.c:742-775 | an entry reads back as itself, doubles bit for bit, and leaves the rest of the payload |
| XpcRoundTrip.EntriesRoundTrip | src/darwin-compat/shims/xpc_shim.c:820-899 | reading entries continues the dictionary read so far, or stops at an empty key |
| XpcRoundTrip.RereadStable | src/darwin-compat/shims/xpc_shim.c:785-901 | an accepted buffer re-serializes to a frame no longer than 24 + payload, which reads back as the same message if and only if no key field of the buffer starts with NUL |
| XpcRoundTrip.RefusedReread | src/darwin-compat/shims/xpc_shim.c:820-899 | a 32-byte buffer with the key NUL is accepted, and the frame written for its message refused |
| XpcRoundTrip.AcceptedBuffer | src/darwin-compat/shims/xpc_shim.c:236-266 | of repeated keys in an accepted buffer each keeps its first position and its last value; reading stays inside the declared payload |
| XpcFormat.AcceptsExactlyFrames | src/darwin-compat/shims/xpc_shim.c:785-901 | a buffer is accepted as a message if and only if it starts with the bytes 43 58 50 31, holds 24 bytes and the payload it declares, and that payload is so many entries, each by its lengths and type code, whose keys and values are the message |
| XpcFormat.FramesHaveTheForm | src/darwin-compat/shims/xpc_shim.c:694-778 | what is written for a message with keys has that form byte by byte |
| XpcRoundTrip.LastEditWins | src/darwin-compat/shims/xpc_shim.c:268-379 | after any edits a key holds what the last edit of that key left, whatever else was edited; a key that was not edited holds what it held |
| XpcRoundTrip.RemovesOnly | src/darwin-compat/shims/xpc_shim.c:487-518 | removing a key takes out its entry and leaves all others as they are and in their order |
| XpcRoundTrip.FirstPositionLastValue | src/darwin-compat/shims/xpc_shim.c:236-266 | what any sequence of sets leaves: first positions, last values, distinct keys |
| XpcWire.EncodedSize | src/darwin-compat/shims/xpc_shim.c:668-692 | encoding writes exactly the counted bytes |
| XpcWire.GetPut | src/darwin-compat/shims/xpc_shim.c:56-89 | the little-endian readers invert the writers at every width |
| XpcDictionary.Dictionary.EntryFind | src/darwin-compat/shims/xpc_shim.c:220-228 | the list walk finds the one entry with the key, or none |
| XpcDictionary.Dictionary.Assign | src/darwin-compat/shims/xpc_shim.c:236-266 | an assigned key keeps its place in the linked list, or is linked at the tail |
| XpcDictionary.Dictionary.SetScalar | src/darwin-compat/shims/xpc_shim.c:268-328 | a scalar setter succeeds exactly on the edits that EditedRoundTrip and LastEditWins are about, and sets the entry; otherwise it changes nothing and says EINVAL |
| XpcDictionary.Dictionary.SetText | src/darwin-compat/shims/xpc_shim.c:362-379 | so do the string and the data setter, which also refuse what is longer than 1 MiB |
| XpcDictionary.Dictionary.SetBytes | src/darwin-compat/shims/xpc_shim.c:331-360 | string and data entries, refused above 1 MiB; no key check here |
| XpcDictionary.Dictionary.Remove | src/darwin-compat/shims/xpc_shim.c:487-518 | unlinking at the head, in the middle or at the tail removes exactly the entry of that key |
| XpcDictionary.Dictionary.PayloadSizeLocked | src/darwin-compat/shims/xpc_shim.c:668-692 | the loop over the list counts the encoded size |
| XpcDictionary.Dictionary.SerializeLocked | src/darwin-compat/shims/xpc_shim.c:694-778 | the buffer filled through a moving cursor is the frame of the contents, or EPROTO above 1 MiB |
| XpcDictionary.Dictionary.WriteEntries | src/darwin-compat/shims/xpc_shim.c:738-775 | the cursor loop writes the encoded entries and ends at the end of the buffer |
| XpcDictionary.Dictionary.Parse | src/darwin-compat/shims/xpc_shim.c:785-901 | the deserializer builds a list with the decoded message, or nothing; which buffers those are is stated by AcceptsExactlyFrames |
| XpcDictionary.Dictionary.ReadEntries | src/darwin-compat/shims/xpc_shim.c:820-899 | the read loop sets the decoded entries one after the other, or stops where the decoder stops |
| XpcDictionary.ReadEntry | src/darwin-compat/shims/xpc_shim.c:821-840 | key length, key and type are read at a moving offset, each only after a check against the end of the payload |
| XpcDictionary.ReadValue | src/darwin-compat/shims/xpc_shim.c:841-894 | so is the value of each type |
| XpcStream.StreamRoundTrip | src/darwin-compat/shims/xpc_shim.c:1320-1365 | any frames back to back, followed by a proper prefix of one more, are read as exactly those messages and then a cut |
| XpcStream.FrameFirst | src/darwin-compat/shims/xpc_shim.c:1320-1365 | a frame in front of any bytes is read whole and reading stops at its end |
| XpcStream.NextFrameIs | src/darwin-compat/shims/xpc_shim.c:1320-1365 | one read takes a message off the stream if and only if the bytes begin with a frame of the format of at most 1 MiB, and it ends there; the stream is cut exactly if a header, or the payload a good header declares, is incomplete |
| XpcStream.PrefixIsCut | src/darwin-compat/shims/xpc_shim.c:1320-1365 | every proper prefix of a frame is a cut stream, never a message |
| XpcStream.FailedReadBoundary | src/darwin-compat/shims/xpc_shim.c:1271-1365 | on a stream of frames a failed read leaves the next one on a frame boundary if and only if it took no byte |
| XpcStream.AfterFailedWrite | src/darwin-compat/shims/xpc_shim.c:1248-1269 | behind a fragment of a frame the next message is read from its own start if and only if the fragment is empty; otherwise the reader takes its first bytes for the rest of the broken frame, exactly as many as the fragment lacks of its header or of its frame, and ends there with another message or none |
| XpcStream.Embedded | src/darwin-compat/shims/xpc_shim.c:1271-1365 | 32 bytes into the frame of a message that carries another frame as data, a reader finds that other frame |
| XpcStream.WriteFull | src/darwin-compat/shims/xpc_shim.c:1248-1269 | arbitrary partial writes and interruptions put every byte on the wire once and in order, or report a failure after a prefix |
| XpcStream.ReadFull | src/darwin-compat/shims/xpc_shim.c:1271-1317 | arbitrary chunk sizes and interruptions give exactly the asked-for bytes, or an error after fewer, which are gone; it returns less than 1 ms after its deadline and times out less than 1 ms before it |
| XpcStream.FrameRead | src/darwin-compat/shims/xpc_shim.c:1320-1365 | one frame off the stream, ending on its boundary; or the error of each way it can fail, with how many bytes were dropped: on a bad frame all that was looked at, else a beginning that is no frame yet |
| XpcStream.SendLocked | src/darwin-compat/shims/xpc_shim.c:1425-1448 | the frame of the message under its id and reply flag, EPROTO if there is none, or a part of it when writing fails |
| XpcStream.ReadUntilClosed | src/darwin-compat/shims/xpc_shim.c:1320-1365 | a receiver loop over a closing stream gets exactly the whole messages in order and then ECLOSED |
| XpcStream.SendAll | src/darwin-compat/shims/xpc_shim.c:1425-1448 | the sending side puts the frames on the wire back to back |
| XpcDeadline.RemainingIsTwoSided | src/darwin-compat/shims/xpc_shim.c:121-139 | the truncating difference is within 1 ms of the true time left on either side, and a passed deadline is always reported |
| XpcDeadline.SetDeadline | src/darwin-compat/shims/xpc_shim.c:105-118 | the deadline is the set time plus the timeout, nanoseconds normalized; a negative timeout is none |
| XpcCorrelation.EveryInterleaving | src/darwin-compat/shims/xpc_shim.c:1450-1610 | in every interleaving, whatever reads fail: ids are distinct, each message read is in exactly one place, reads never overlap, what is handed out was read off the stream, and a sync call is only handed a reply that carries its id |
| XpcCorrelation.InStepIffNothingLost | src/darwin-compat/shims/xpc_shim.c:1271-1365 | what was read is what was sent so far and the next read begins on a frame boundary, if and only if no read failed after taking bytes; then all that is handed out was sent |
| XpcCorrelation.DeliveredOnce | src/darwin-compat/shims/xpc_shim.c:1498-1610 | no message read is handed to two callers |
| XpcCorrelation.SingleThreadOrder | src/darwin-compat/shims/xpc_shim.c:1498-1610 | on a fresh connection with one calling thread everything but the claimed replies is received in the order it was read, which is the order it was sent if nothing was lost |
| XpcCorrelation.StepKeepsInv | src/darwin-compat/shims/xpc_shim.c:1548-1610 | every locked section, lock acquisition and frame read keeps the placement invariant |
| XpcCalls.CallsAreApart | src/darwin-compat/shims/xpc_shim.c:1548-1609 | in every interleaving a sync call waits for an id the connection issued, which no other call waits for or was answered with |
| XpcCalls.SyncReturnsItsReply | src/darwin-compat/shims/xpc_shim.c:1548-1609 | a sync call that is made and left alone returns the first reply to its own request on the stream, and has queued whatever came before it in the order it came |
| XpcCalls.SyncTakesQueuedReply | src/darwin-compat/shims/xpc_shim.c:1582-1588 | a call that looks in the queue takes the first reply to it out, and leaves the rest in order |
| XpcCalls.NotBeforeTheNextFrame | src/darwin-compat/shims/xpc_shim.c:1582-1592 | a call that has looked in the queue is not given its reply before another frame is read, whatever any thread does and even if the reply is queued |
| XpcCalls.ReplyIsOverlooked | src/darwin-compat/shims/xpc_shim.c:1582-1592 | a run to a state in which the reply is queued and its call reads an empty socket |
| XpcClaims.ReceiveBreaksClaim | src/darwin-compat/shims/xpc_shim.c:1498-1546 | a step hands a receive call a reply some sync call waits for if and only if that reply is the head of the queue, or the next frame, at which the step looks; it never happens when no sync call is in progress |
| XpcClaims.ReceiveCanSteal | src/darwin-compat/shims/xpc_shim.c:1498-1546 | in every state, a receive that is made and left alone returns the head of the queue or else the next frame, and takes it from a waiting sync call if and only if it is the reply that call waits for |
| XpcClaims.SerializedKeepsClaims | src/darwin-compat/shims/xpc_shim.c:1498-1610 | in every run whose receive calls return only while no sync call is in progress, no reply goes to the wrong call |
| XpcClaims.OneThreadKeepsClaims | src/darwin-compat/shims/xpc_shim.c:1498-1610 | nor in any run of one thread |
| XpcClaims.StolenFromSocket | src/darwin-compat/shims/xpc_shim.c:1535 | a run in which a receive reads the reply that another thread's sync call waits for |
| XpcClaims.StolenFromQueue | src/darwin-compat/shims/xpc_shim.c:1514 | a run in which a receive pops it from the queue, where a second sync call put it |
| XpcClaims.OutOfStep | src/darwin-compat/shims/xpc_shim.c:1271-1317 | a run in which a timed-out read is followed by one that hands out a message nobody sent |
| XpcPending.PendingQueue.Push | src/darwin-compat/shims/xpc_shim.c:1368-1383 | the head/tail list appends |
| XpcPending.PendingQueue.Pop | src/darwin-compat/shims/xpc_shim.c:1386-1400 | the head is taken whoever it is for, as the receive call does even with a reply |
| XpcPending.PendingQueue.TakeReply | src/darwin-compat/shims/xpc_shim.c:1403-1423 | the first reply with the id is unlinked, at the head, in the middle or at the tail, and nothing else moves |
| LaunchHistory.LegalIsSound | src/darwin-compat/launchd/launch_job.c:753-980 | in every history of registry events: RUNNING exactly with a pid, labels and running pids pairwise distinct, a waiting job waits at least its throttle from its last start |
| LaunchPromises.RestartsAreThrottled | src/darwin-compat/launchd/launch_job.c:956-976 | every automatic restart comes at least the throttle after every earlier start of the job, whatever happened in between |
| LaunchPromises.WindowBound | src/darwin-compat/launchd/launch_job.c:956-976 | a window without an operator's start holds at most 1 + length / throttle starts |
| LaunchPromises.StopOutranks | src/darwin-compat/launchd/launch_job.c:833-896 | after an operator's stop no tick, start_all, reload or operation on other jobs changes anything about the job until it is started or unloaded |
| LaunchPromises.RestartHasItsExit | src/darwin-compat/launchd/launch_job.c:903-976 | the last thing that happened to a job before an automatic restart is a reaped exit its KeepAlive accepts, a different one for each restart |
| LaunchPromises.StartCountCounts | src/darwin-compat/launchd/launch_job.c:826-830 | start_count is the number of successful starts |
| LaunchPromises.LatestExitIsReported | src/darwin-compat/launchd/launch_job.c:945-952 | whatever happens to a job later, what is reported of it is its latest reaped exit: the code, or minus the number of the signal; nothing before the first |
| LaunchTick.TickCountsTransitions | src/darwin-compat/launchd/launch_job.c:916-980 | the transitions a tick counts are never fewer than the jobs whose state differs from before, and as many if and only if no job was reaped with a status its KeepAlive accepts and a throttle that had passed when the second loop began |
| LaunchTick.ForeseenCount | src/darwin-compat/launchd/launch_job.c:903-980 | told before the tick: the count is right if no running job has a KeepAlive, and too high if a child has exited with a status its KeepAlive accepts and there is no throttle |
| LaunchTick.CanCountTwice | src/darwin-compat/launchd/launch_job.c:956-976 | a registry has a tick that counts too many, at whatever time it begins, if and only if some running job's KeepAlive is not Never |
| LaunchTracking.OneToOne | src/darwin-compat/launchd/launch_job.c:753-980 | running jobs and unreaped children correspond one to one; no two jobs share a label |
| LaunchTracking.Happens | src/darwin-compat/launchd/launch_job.c:753-980 | an event whose guard holds on the job's fields keeps history, fields and children in step |
| LaunchTracking.NewSpecsAreNew | src/darwin-compat/launchd/launch_job.c:526-571 | a directory adds each label it defines and nobody has, once, and nothing else |
| LaunchTracking.PlistNames | src/darwin-compat/launchd/launch_job.c:545-552 | a file is looked at exactly if its name is something before .plist |
| LaunchJobs.Registry.Supervises | src/darwin-compat/launchd/launch_job.c:598-980 | read on the jobs and the process table: RUNNING iff pid > 0, running jobs and unreaped children one to one, labels distinct |
| LaunchJobs.Registry.Start | src/darwin-compat/launchd/launch_job.c:753-831 | ESTATE and no change on a running job; otherwise a recorded start with a fresh child, or FAILED with EINVAL or EIO; no other job changes |
| LaunchJobs.Registry.Stop | src/darwin-compat/launchd/launch_job.c:833-878 | the job ends STOPPED without a child; its child is sent SIGTERM, and SIGKILL only if it is still there when the grace period has passed since, otherwise its own status is reported; a job that was not running is only marked and nothing is signalled |
| LaunchJobs.Registry.Terminate | src/darwin-compat/launchd/launch_job.c:846-872 | SIGTERM first; SIGKILL only after the clock was read at or past the start plus the grace period, with the child still there; the exit reported is the child's own unless SIGKILL was sent, and then it is that; the child is reaped, and nobody else's process is signalled or reaped |
| LaunchJobs.Registry.Reap | src/darwin-compat/launchd/launch_job.c:928-963 | one turn of the reaping loop: WAITING or EXITED as KeepAlive decides on the reported status |
| LaunchJobs.Registry.ReapAll | src/darwin-compat/launchd/launch_job.c:928-963 | every child that had exited before the tick is reaped with its own status (unless waitpid was interrupted), each job at most once |
| LaunchJobs.Registry.RestartDue | src/darwin-compat/launchd/launch_job.c:965-977 | exactly the waiting jobs whose time had come when it read the clock are started or FAILED, the others are as they were, and the result counts them |
| LaunchJobs.Registry.Tick | src/darwin-compat/launchd/launch_job.c:916-980 | both loops: what was reaped, what was restarted, that nobody is signalled, that the result counts the state changes of each loop, and exactly when that is the number of jobs that changed |
| LaunchJobs.Registry.StartAll | src/darwin-compat/launchd/launch_job.c:880-896 | exactly the RunAtLoad jobs still LOADED are started, once each, the result counts the successes, others are untouched |
| LaunchJobs.Registry.StopAll | src/darwin-compat/launchd/launch_job.c:1017-1031 | exactly the running jobs are stopped, each with the given grace period; a waiting job is left waiting |
| LaunchJobs.Registry.LoadPlist | src/darwin-compat/launchd/launch_job.c:478-524 | a new label is appended in state LOADED; a taken label is EEXIST and changes nothing |
| LaunchJobs.Registry.LoadDir | src/darwin-compat/launchd/launch_job.c:526-571 | the jobs added are those the directory defines anew; loaded and failed add up to the .plist files; loaded jobs are untouched |
| LaunchJobs.Registry.Unload | src/darwin-compat/launchd/launch_job.c:598-619 | exactly the labelled job goes, stopped first if running, with a grace period of 2 seconds; ENOENT changes nothing |
| LaunchJobs.Registry.Find | src/darwin-compat/launchd/launch_job.c:573-585 | the first job with the label, or none |
| LaunchJobs.Registry.Free | src/darwin-compat/launchd/launch_job.c:448-462 | no child outlives the registry; each still running is given 2 seconds |
| LaunchSystem.System.WaitNoHang | src/darwin-compat/launchd/launch_job.c:941-945 | the environment assumed of waitpid(WNOHANG): a child of ours that exited is reported once with its status, or the call is interrupted |
| LaunchPlist.DescribedJob | src/darwin-compat/launchd/launch_job.c:188-424 | a dictionary makes a job if and only if it has a label, a command (strings in ProgramArguments, or without an array a Program) and a path for each socket, whatever the order of the keys, whatever other keys there are and however often a key comes again; otherwise EPARSE. The job has that name, runs at load as said, waits the seconds said or the default, and its KeepAlive accepts exactly the exits that are said to ask for a restart |
| LaunchPlist.DescriptionLoads | src/darwin-compat/launchd/launch_job.c:495-505 | so it is for any document that means such a dictionary, however it is written |
| LaunchPlist.LoadsExactlyDescribedJobs | src/darwin-compat/launchd/launch_job.c:478-524 | a file loads as a job if and only if it begins with a document, of the form the reader accepts, whose dictionary describes that job completely; every other file is EPARSE |
| LaunchPlist.KeepAliveReads | src/darwin-compat/launchd/launch_job.c:188-208 | whatever stands under KeepAlive, the policy made of it restarts a job after an exit exactly if it asks for that: true, a dictionary without SuccessfulExit, or one whose SuccessfulExit is of the kind of the exit |
| LaunchPlist.OneJob | src/darwin-compat/launchd/launch_job.c:354-424 | a description leaves nothing open: two jobs it describes are the same |
| LaunchControl.CodesMeanWhatTheySay | src/darwin-compat/launchd/launchctl_server.c:144-239 | after code 0 the label is there exactly once (load), gone after having been there exactly once (unload), RUNNING (start) or STOPPED (stop); every error code but INTERNAL means nothing changed |
| LaunchControl.Server.HandleRequest | src/darwin-compat/launchd/launchctl_server.c:262-299 | each request received is answered exactly once, with its id, and as the verb's answer says, and all it adds to the history is the operator's doing; the reply can be transmitted if and only if it is not the status of a job whose label leaves no room for it; without a request nothing is answered and nothing changes |
| LaunchControl.Server.Dispatch | src/darwin-compat/launchd/launchctl_server.c:246-292 | the table walk picks the handler of the verb, or BADVERB |
| LaunchControl.Server.HandleLoad | src/darwin-compat/launchd/launchctl_server.c:144-162 | BADARG, PLIST or a job appended as LOADED |
| LaunchControl.Server.HandleUnload | src/darwin-compat/launchd/launchctl_server.c:164-183 | BADARG, NOTFOUND or exactly that job gone |
| LaunchControl.Server.HandleStart | src/darwin-compat/launchd/launchctl_server.c:185-211 | BADARG, NOTFOUND, ALREADY, or RUNNING with code 0 and FAILED with INTERNAL; other jobs as they were |
| LaunchControl.Server.HandleStop | src/darwin-compat/launchd/launchctl_server.c:213-239 | BADARG, NOTFOUND, ALREADY or STOPPED; a running child is given 5 seconds; other jobs as they were |
| LaunchControl.Server.HandleStatus | src/darwin-compat/launchd/launchctl_server.c:110-142 | the job's state, pid (or -1), start count and last exit, or BADARG or NOTFOUND |
| LaunchControl.StatusReads | src/darwin-compat/launchd/launchctl_server.c:125-140 | a client finds in a status reply, by key, the label, the state, the pid or -1, the start count and the last exit |
| LaunchControl.StateSaid | src/darwin-compat/launchd/launchctl_proto.h:82-92 | each state is said by its own word |
| LaunchControl.Server.HandleList | src/darwin-compat/launchd/launchctl_server.c:61-108 | one reply with code 0 and the table of all jobs, built line by line in its buffer and cut to it |
| LaunchTable.JobIsListed | src/darwin-compat/launchd/launchctl_server.c:72-100 | every job's line stands in the text when the table fits its buffer |
| LaunchTable.LineReads | src/darwin-compat/launchd/launchctl_server.c:79-96 | in a job's line the label is at the margin, the pid or a dash at column 42 and the state at column 52, with blanks between, unless the label is longer than 40 characters |
| LaunchTable.PidReads | src/darwin-compat/launchd/launchctl_server.c:84-95 | the digits are those of the pid |
| LaunchControl.Peer.ReplyErr | src/darwin-compat/launchd/launchctl_server.c:35-53 | one reply with the request's id, the code and the text, small enough to be transmitted |
| LaunchControl.StatusSize | src/darwin-compat/launchd/launchctl_server.c:110-142 | a status reply can be transmitted if and only if label and state leave room for its other fields in 1 MiB |
| LaunchControl.UnansweredStatus | src/darwin-compat/launchd/launchctl_server.c:110-142 | a status request that is within 1 MiB and whose reply is not |
| LaunchInit.Init | src/catbsd-init/catbsd-init.c:361-413 | from boot to shutdown, whatever reloads, requests, exits and delays come: the history is legal and begins with the boot; each request polled is answered exactly once and in order, where the one reply made is transmitted unless it is a status too long for that; only our own children are signalled or reaped; and none is left at the end, each that was still running having been given the configured grace period |
| LaunchInit.Pass | src/catbsd-init/catbsd-init.c:388-406 | one pass of the loop: the history grows by one load per new label of the directory, then by what the polled client asked for, then by the tick's reaps and restarts, and the client is answered |
| LaunchInit.Boot | src/catbsd-init/catbsd-init.c:348-367 | the history of a boot is one load for each new label of the directory and then one start attempt for each of those jobs that is to run at load, and for no other |
| LaunchInit.Shutdown | src/catbsd-init/catbsd-init.c:258-269 | every running child is ended with the given grace period, and freeing the registry finds none left |
| PlistDocument.DocumentRoundTrip | src/darwin-compat/launchd/plist_lite.c:676-721 | the parser inverts the printer: with or without the wrapper, with any noise, attributes, letter case and spellings, whatever follows |
| PlistDocument.EveryTreeReadsBack | src/darwin-compat/launchd/plist_lite.c:676-721 | every tree of NUL-free strings and keys, 64-bit integers, booleans, data, arrays and dictionaries has a document that reads back as it |
| PlistAccepted.AcceptsExactlyLooseDocuments | src/darwin-compat/launchd/plist_lite.c:676-721 | a string is read as a tree, up to a given place, if and only if up to there it is a rendering of that tree in the form with all the leniencies; everything else is refused |
| PlistLoose.LooseDocumentReads | src/darwin-compat/launchd/plist_lite.c:481-721 | each rendering of that form is read as its tree, and reading stops at its end |
| PlistLoose.RefIs | src/darwin-compat/launchd/plist_lite.c:282-325 | a reference is resolved exactly if it is one of the five names, or # and up to 15 more characters, to the character of that name or of the number that strtoul reads there |
| PlistLoose.DecodesBase64 | src/darwin-compat/launchd/plist_lite.c:438-477 | data is refused exactly if a byte outside the alphabet, and not white space, comes before the first padding |
| PlistErrors.BrokenIsRefused | src/darwin-compat/launchd/plist_lite.c:341-674 | a document with a fault is refused, at any depth and with or without the wrapper, and the place recorded is that of the fault: a wrong or missing tag, undecodable data, a bad reference, a broken tag or noise without an end |
| PlistErrors.MisclosedIsRefused | src/darwin-compat/launchd/plist_lite.c:341-353 | in particular a string, integer, real or data element closed under another name is refused at any depth, at the end of that closing tag |
| PlistRoundTrip.RoundTrip | src/darwin-compat/launchd/plist_lite.c:481-674 | one value, nested to any depth, in front of anything |
| PlistRoundTrip.ItemsRead | src/darwin-compat/launchd/plist_lite.c:498-545 | the dictionary loop returns keys and values in order, duplicates included |
| PlistRoundTrip.ElemsRead | src/darwin-compat/launchd/plist_lite.c:547-586 | the array loop with its rewind returns the elements in order |
| PlistRoundTrip.StrtollReads | src/darwin-compat/launchd/plist_lite.c:606-632 | an integer's text is white space, sign and digits; its value saturates at 64 bits |
| PlistMarkup.NoisesAreSkipped | src/darwin-compat/launchd/plist_lite.c:111-166 | white space, comments, instructions and declarations before a tag do not matter |
| PlistMarkup.OpenReads | src/darwin-compat/launchd/plist_lite.c:175-223 | a tag is read with its lower-case name, whatever its attributes, and with whether it closes itself |
| PlistMarkup.CloseReads | src/darwin-compat/launchd/plist_lite.c:175-223 | so is a closing tag |
| PlistSpelling.TextRoundTrip | src/darwin-compat/launchd/plist_lite.c:272-338 | each character raw, as a named entity, or as a decimal or hexadecimal reference reads back |
| PlistSpelling.EntityMeans | src/darwin-compat/launchd/plist_lite.c:296-322 | what each entity reference stands for |
| PlistSpelling.DecimalReference | src/darwin-compat/launchd/plist_lite.c:302-318 | every scalar value but NUL can be written as a decimal reference |
| PlistText.Utf8IsRfc3629 | src/darwin-compat/launchd/plist_lite.c:249-266 | a reference to a scalar value gives its UTF-8 form by RFC 3629, section 3, and no NUL |
| PlistText.TakesNumeral | src/darwin-compat/launchd/plist_lite.c:302-318 | digits taken one by one give the positional value of the numeral |
| PlistBase64.DecodeInvertsEncode | src/darwin-compat/launchd/plist_lite.c:438-477 | the decoder inverts the encoding of section 4 of RFC 4648 with white space anywhere |
| PlistBase64.LoopIsBits | src/darwin-compat/launchd/plist_lite.c:451-472 | the wrap-around of the 32-bit accumulator never reaches the output |
| PlistBase64.Base64Decode | src/darwin-compat/launchd/plist_lite.c:438-477 | on every input the loop writes inside its in_len / 4 * 3 + 4 buffer and gives the decoded bytes or the refusal |
| PlistCursor.ParseStringInside | src/darwin-compat/launchd/plist_lite.c:676-721 | on every byte string the parser ends, with a value or an error, at a place inside the string |
| PlistCursor.ParseArrayInside | src/darwin-compat/launchd/plist_lite.c:547-586 | the same for the array loop despite its rewind |
| PlistParser.Parse | src/darwin-compat/launchd/plist_lite.c:676-721 | NULL exactly when a failure was recorded, with one plus the newlines before the place it happened; otherwise the tree. Which strings those are, and which places, is stated by AcceptsExactlyLooseDocuments and BrokenIsRefused |
| PlistParser.NewlinesCounted | src/darwin-compat/launchd/plist_lite.c:76-98 | the line is one more than the number of line feeds before the place |
| PlistParser.Parser.Fail | src/darwin-compat/launchd/plist_lite.c:76-98 | only the first failure is recorded, with its line |
| PlistParser.Parser.SkipPrologueAt | src/darwin-compat/launchd/plist_lite.c:111-157 | moves past one piece of noise, records an unterminated one, or stays |
| PlistParser.Parser.SkipAllNoise | src/darwin-compat/launchd/plist_lite.c:159-166 | stops at the first byte that is not noise, or fails where a piece does not end |
| PlistParser.Parser.ReadTagHere | src/darwin-compat/launchd/plist_lite.c:175-223 | reads the tag the grammar gives, or fails where it fails |
| PlistParser.Parser.ReadTextHere | src/darwin-compat/launchd/plist_lite.c:272-338 | collects the decoded text up to the next tag, or fails at the entity |
| PlistParser.Parser.ParseDictHere | src/darwin-compat/launchd/plist_lite.c:498-545 | the dictionary loop in place |
| PlistParser.Parser.ParseArrayHere | src/darwin-compat/launchd/plist_lite.c:547-586 | the array loop in place, with its saved cursor |
| PlistParser.Parser.ParseValueHere | src/darwin-compat/launchd/plist_lite.c:663-674 | one value in place; it always moves the cursor forward |
| MachPort.FifoNoLostWakeup | src/darwin-compat/shims/mach_port.c:261-386 | in every interleaving what was sent to a port is what was delivered, once and in order, then what is queued; a non-empty queue means the port is triggered or its sender is about to trigger it |
| MachPort.ReceiveCopiesASentMessage | src/darwin-compat/shims/mach_port.c:311-386 | whatever a receive copies out is a message sent to that port, whole or cut to the caller's buffer |
| MachPort.NobodySleepsOnMessages | src/darwin-compat/shims/mach_port.c:363-385 | once all senders have returned, no receiver or waiter can sleep on a port with a message |
| MachPort.BlockedReceiverSpins | src/darwin-compat/shims/mach_port.c:297-385 | a receiver that found its port empty is woken if and only if some sender has ever triggered the port, and then comes back to where it was: it spins |
| MachPort.ReportedPortIsReady | src/darwin-compat/shims/mach_port.c:343-504 | the port at the index wait_any handed out: until somebody else takes a message from it, a receive on that port returns a message at once |
| MachPort.ReportedWasReady | src/darwin-compat/shims/mach_port.c:452-466 | every index wait_any ever handed out, in any run, was within the caller's list and its port had a message at that step |
| MachPort.WaitAnyFindsFirst | src/darwin-compat/shims/mach_port.c:452-466 | wait_any, left alone while some port has a message, hands out the first such index |
| MachPort.AnswersItsCall | src/darwin-compat/shims/mach_port.c:311-504 | in every run what a call returns is for its own arguments, its port and buffer or its list of ports, whatever others did meanwhile and however often it was woken |
| MachPort.StepKeepsInv | src/darwin-compat/shims/mach_port.c:261-386 | each locked section, trigger and wakeup keeps the queue and wakeup invariant |
| MachPort.PortEntry.Enqueue | src/darwin-compat/shims/mach_port.c:284-293 | the message list appends at its tail |
| MachPort.PortEntry.Dequeue | src/darwin-compat/shims/mach_port.c:119-133 | the message list gives up its head |
| MachPort.PortEntry.InsertRight | src/darwin-compat/shims/mach_port.c:185-229 | one of the four rights is added to what the name holds; anything else is refused |
| MachPort.PortEntry.HasRight | src/darwin-compat/shims/mach_port.c:231-251 | true exactly when the name was granted something and every asked-for bit |
| MachPort.GrantedBits | src/darwin-compat/shims/mach_port.c:185-251 | a name holds a bit exactly when some grant to it contained the bit |

## Left out

- Garbage-collected mode, weak and Objective-C objects and `_Block_dump` in the Blocks runtime: configured off, or for debugging.
- Malloc reusing an address: addresses are serial numbers of creation, so that a captured pointer is always older than its block; the `isa` field and sizes are not modelled.
- Promotion of one `__block` variable by two threads at once: `LatchingCount` covers the count, while copying and releasing in `BlockProgram` are one operation at a time.
- Pointers that are not what the runtime takes them for are undefined behaviour in C; the functions in `BlockMemory` leave memory alone there, and every theorem assumes good pointers.
- Sockets, kqueue, fork and exec, flock and path resolution: replaced by small nondeterministic environments (byte stream with a clock, trigger flag, process table).
- XpcStream.ReadFull: system calls are interrupted only finitely often, and computing takes no time, so only waiting moves the clock.
- Allocation failure everywhere, overflow of huge ThrottleInterval values, and `next_id` wrapping at 2^64.
- Event handlers (`connection_resume`, `reader_thread`), which read without the read lock, and `mach_port_deallocate` racing with other calls on the port.
- The registry list of ports and the error codes for dead port names: ports are live and looked up by index.
- LaunchJobs.Registry.Stop: nobody else reaps the registry's children, so waitpid never says ECHILD for them, and the blocking wait after SIGKILL is not interrupted.
- LaunchJobs.Registry.Start: what the child does after fork, file descriptor redirection and the environment block are not modelled; creating the activation sockets either succeeds or gives EINVAL or EIO.
- LaunchJobs.Registry.LoadPlist: the outcome of parsing is an input; `LaunchPlist` says what it is for the bytes of a file. Arguments, paths and environment entries are checked there but not kept, and the argument count is therefore positive.
- The doubling capacity of the registry's job array, of dictionaries and of string buffers: they are sequences.
- `launch_registry_run` and `launch_registry_wait_state`, which only repeat the tick, and the accessors.
- LaunchControl.Peer.ReplyErr: error texts that come from the registry are left open; a reply whose write fails counts as made.
- XpcCorrelation.InStepIffNothingLost: of the peer's writes at most the last one fails; what one read finds otherwise is stated by AfterFailedWrite.
- Single-user mode, mounts, signal set-up, configuration and logging of `catbsd-init`: a shutdown request is the end of the list of turns.
- `strtod` and the value of `<real>`: its text is kept as it is, and XPC doubles are 64-bit patterns.
- Lookup in parsed dictionaries and arrays, reading a property list file from disk, and the wording of error messages.
- libdispatch, of which only headers are visible, the demonstration programs, and the remaining shims.
