# Receiver of a shared-memory file transfer, in Dafny

This project models `recv.cpp`, the receiving process of a file transfer
between two processes. The processes share a 1000-byte System V shared memory
segment and a System V message queue. The receiver runs these steps:

1. It derives an IPC key and creates and attaches the segment. It creates the
   queue (`init`).
2. It receives the file name (`recvFileName`).
3. It opens `<name>__recv` and loops (`mainLoop`). The sender announces each
   chunk with a data-ready message carrying its size. The receiver copies
   that many bytes from the segment into the file and acknowledges.
4. A size of 0 ends the transfer. The receiver then detaches and removes the
   segment and the queue (`cleanUp`).

A SIGINT handler performs the same three releases and exits with status 0.

The channel is abstracted as input the model is given:

- The handshake receives from a queue given as a sequence of tagged messages.
  A receive filtered by type takes the oldest message of that type.
- The transfer loop meets a trace of rounds, one per pass. A round carries
  three things:
  - the notice: its size and the segment's 1000 bytes at that moment, or a
    failed `msgrcv`;
  - how many bytes `fwrite` accepts;
  - whether the acknowledgement can be sent.
- The IPC calls of `init`, `cleanUp` and the handler are answered by a
  kernel oracle, a function from each kind of call to whether the kernel
  grants it. `Lifecycle.Possible` says when a call has something to act on:
  an attach or a segment removal needs the segment, a detach needs the
  attachment, and a queue removal needs the queue. `Lifecycle.Attempt`
  succeeds exactly when the oracle grants the call and it has something to
  act on. `Lifecycle.After` applies a successful call to the held resources;
  a failed one changes nothing.
- When the process exits, the kernel drops its attachment
  (`Lifecycle.AtExit`), while the segment and the queue outlive it.

A run of the loop has one of four endings:

- normal return;
- `exit(1)`;
- blocking forever in `msgrcv` when the trace runs out;
- undefined behaviour.

Undefined behaviour arises because a negative size falls into the `else`
branch. That branch closes the file, yet the loop goes on, and the next
notice calls `fwrite` or `fclose` on the closed `FILE*`.

Modules:

- `Ipc` (ipc.dfy): the segment size, bytes, message kinds and the filtered
  receive.
- `Handshake` (handshake.dfy): the file-name receive and the output file name.
- `Transfer` (transfer.dfy) holds the transfer loop in three forms:
  - the method `MainLoop`, which is the loop itself;
  - the recursive specification `Iterate`, which `MainLoop` is proved equal to;
  - the closed form `Settle`, which `ReceiveSettles` proves equal to `Iterate`.

  `Settle` describes a run as its leading clean chunks followed by one
  concluding round. A clean chunk is received, positive, fully written and
  acknowledged.
- `TransferProperties` (transfer_properties.dfy): the guarantees of the loop,
  derived from `Settle`.
- `Lifecycle` (lifecycle.dfy): the resources and the two call sequences.
  Provisioning stops at the first failure. Teardown attempts every step.
- `Receiver` (receiver.dfy): the process. The class `Process` holds:
  - the globals `shmid`, `msqid` and `sharedMemPtr`, each seen as whether it
    names a live resource;
  - a log of the IPC calls.

  Its methods are `init`, `cleanUp`, the SIGINT handler and `main`. Each is
  proved against a function of the old state.

## Model

| member | source | states |
|---|---|---|
| Ipc.FirstWithTag | recv.cpp:93 | the position found holds the first message of the requested type; no earlier message has that type |
| Ipc.Receive | recv.cpp:93 | a filtered receive finds nothing exactly when no message of the type is queued; otherwise it returns a message of that type and removes exactly one message |
| Ipc.ReceiveTakesHead | recv.cpp:93 | the received message is the head of its type's sub-queue, and the rest of that sub-queue is left in order |
| Ipc.ReceiveLeavesOtherTags | recv.cpp:93 | a receive for one type leaves the sub-queue of every other type unchanged |
| Handshake.CString | recv.cpp:100 | the name is the prefix of the field before its first NUL and contains no NUL |
| Handshake.RecvFileName | recv.cpp:88-101 | a failed receive is fatal; with no name queued the call blocks; otherwise the name is the C string of the oldest file-name message, which is removed from the queue |
| Handshake.HandshakeTakesOldestName | recv.cpp:93-100 | the handshake consumes the head of the file-name sub-queue only; the data and acknowledgement sub-queues are untouched |
| Handshake.OutputName | recv.cpp:114 | the output path is the received name followed by `__recv` |
| Handshake.OutputNameInjective | recv.cpp:114 | distinct file names never share an output file |
| Transfer.Pass | recv.cpp:127-162 | the loop body, the reference for one pass: it uses one round and only appends to the file and the effects; the loop goes on exactly after a clean chunk, or a negative size with the file open; it returns only on size 0 |
| Transfer.Iterate | recv.cpp:125-163 | the `while`, the reference `MainLoop` is proved against: it only appends, uses at most the rounds given (all of them when it blocks), exits only with 1, and otherwise adds to the file exactly what it adds to the total; `IterateSettles` gives its closed form |
| Transfer.MainLoopSpec | recv.cpp:113-165 | mainLoop as a function: `<name>__recv` is the first effect after a successful open; a failed open is exit(1) with nothing done; every exit is exit(1); otherwise the file holds `totalBytesReceived` bytes; `ReceiveSettles` gives its closed form |
| Transfer.Stored | recv.cpp:141 | fwrite stores at most the requested count, and stores fewer exactly when the file accepts fewer |
| Transfer.LeadingChunks | recv.cpp:125-163 | every round before the returned index is a clean chunk, and the round at the index, if any, is not |
| Transfer.Payload | recv.cpp:141-147 | the bytes of the chunks number exactly their total size |
| Transfer.AckedWrites | recv.cpp:141-156 | each chunk contributes exactly one write followed by one acknowledgement |
| Transfer.MainLoop | recv.cpp:108-166 | the loop's result equals the recursive specification `Iterate`; on every non-fatal ending the file holds exactly `totalBytesReceived` bytes |
| Transfer.IterateAfterClose | recv.cpp:125-162 | after a negative size has closed the file, the next round fails the receive, acts on the closed file, or blocks |
| Transfer.IterateDelivers | recv.cpp:136-156 | a clean chunk appends its bytes, adds its size and emits one write and one acknowledgement, then the loop continues |
| Transfer.DeliverAllFirst | recv.cpp:136-156 | delivering a run of chunks is delivering the first, then the rest |
| Transfer.SettleDelivers | recv.cpp:125-163 | the closed form of a run advances past a clean chunk the same way the loop does |
| Transfer.IterateConcludes | recv.cpp:130-162 | a round that is not a clean chunk concludes the run as `Conclude` describes |
| Transfer.IterateSettles | recv.cpp:125-163 | from any open state the loop equals its closed form: the leading chunks, then the concluding round |
| Transfer.ReceiveSettles | recv.cpp:108-166 | every run of mainLoop after a successful open is its leading chunks followed by its concluding round |
| TransferProperties.Opening | recv.cpp:114-122 | a run opens `<name>__recv`, delivers its leading chunks, then meets its concluding round |
| TransferProperties.CompletesExactlyOnTerminator | recv.cpp:125-165 | mainLoop returns exactly when the open succeeded and the first round that is not a clean chunk is a notice of size 0 |
| TransferProperties.FatalIsExitOne | recv.cpp:115-156 | every fatal ending of the transfer is exit(1) |
| TransferProperties.CompletedRun | recv.cpp:108-166 | a returning run's output is the leading chunks' bytes in arrival order, and the total is their summed size; its effects are open, then write and ack per chunk, then close with no ack for the terminator; it used one more round than it had chunks |
| TransferProperties.AcksFollowWrites | recv.cpp:138-156 | every acknowledgement directly follows a positive write, and every write other than the last effect is followed by an acknowledgement; a run ending on a write ended in exit(1) |
| TransferProperties.OneAckPerChunk | recv.cpp:138-156 | the number of acks never exceeds the positive notices received and is at most one fewer; they are equal when the run returns or blocks |
| TransferProperties.NegativeSizeKeepsLooping | recv.cpp:110-163 | a negative size closes the file without ending the loop; the next round fails the receive (exit 1), hits the closed file (undefined), or blocks; the run never returns |
| TransferProperties.UnacknowledgedChunkIsFatal | recv.cpp:141-156 | a positive chunk that is written short, or whose ack cannot be sent, ends the run in exit(1) with no ack for it; the total counts it only if it was fully written |
| TransferProperties.FailedReceiveIsFatal | recv.cpp:130-134 | a failed receive ends the run in exit(1), keeping the chunks already written |
| TransferProperties.AcksOfAckedWrites | recv.cpp:150-156 | delivered chunks carry one acknowledgement each |
| TransferProperties.PositivesOfChunks | recv.cpp:138 | every delivered chunk was announced with a positive size |
| TransferProperties.AlternatingAckedWrites | recv.cpp:141-156 | appending delivered chunks preserves the write/ack alternation |
| TransferProperties.TwoChunkTransfer | recv.cpp:108-166 | "report.txt" sent as two 500-byte chunks and a terminator arrives as "report.txt__recv" with both chunks, a total of 1000, and effects open, write, ack, write, ack, close |
| TransferProperties.EmptyFileTransfer | recv.cpp:110-165 | an immediate terminator leaves an empty output file, returns 0 and sends no ack |
| TransferProperties.NoticeAfterNegativeSize | recv.cpp:158-163 | a notice after a negative size reaches the closed file: undefined behaviour |
| Lifecycle.UntilFailureStopsAtFirstFailure | recv.cpp:48-79 | provisioning makes the calls of a prefix of its steps, in order; all but the last succeeded, and a sequence cut short ends on a failure |
| Lifecycle.BestEffort | recv.cpp:171-186 | teardown attempts every step, in order |
| Lifecycle.Provision | recv.cpp:45-82 | init, the reference `Receiver.Process.Init` is proved against: its calls follow the four steps in order, every one but the last succeeded, and it succeeds exactly when all four were made and the last succeeded; `ProvisionFromReleased` gives its closed form |
| Lifecycle.Teardown | recv.cpp:171-186 | cleanUp and the handler's releases, the reference `Receiver.Process.CleanUp` is proved against: all three releases are attempted in order and none acquires anything; `TeardownClosedForm` gives the exact result |
| Lifecycle.ProvisionFromReleased | recv.cpp:45-82 | from nothing, the segment exists only after the key, is attached only after it exists, and the queue exists only after the attach; init continues exactly when all four steps succeed |
| Lifecycle.ProvisionOutcome | recv.cpp:45-82 | a successful init holds all three resources, and init never releases anything |
| Lifecycle.FailedProvisionLeaksSegment | recv.cpp:66-79 | a failure after the segment was created exits with status 1 while the segment still exists; the exit drops the attachment, but the segment outlives the process |
| Lifecycle.TeardownClosedForm | recv.cpp:171-186 | teardown detaches, removes the segment and removes the queue, in that order; each resource is gone unless its own release failed, whatever the others returned |
| Lifecycle.TeardownReleasesAll | recv.cpp:171-186 | when the three releases succeed nothing is held |
| Lifecycle.TeardownIsBestEffort | recv.cpp:171-186 | a failed detach does not stop the queue removal |
| Lifecycle.TeardownOfReleased | recv.cpp:171-186 | a second teardown, once everything is released, fails every call and changes nothing |
| Receiver.Main | recv.cpp:188-208 | main in a run without SIGINT, the reference `Receiver.Process.Run` is proved against: the transfer starts exactly when init acquired everything and a name arrived; every exit other than 0 is exit(1); an exited process keeps no attachment; `ExitsZeroExactlyOnCompletedTransfer` and the lemmas below give its endings |
| Receiver.ExitsZeroExactlyOnCompletedTransfer | recv.cpp:188-208 | in a run without SIGINT, the process exits with status 0 exactly when init succeeds, a file name arrives and the transfer returns |
| Receiver.OnlyNormalReturnCleansUp | recv.cpp:188-208 | on every other ending only init's calls were made; the process holds what init acquired, less the attachment if it exited; a process that got past init leaves the segment and the queue behind |
| Receiver.NormalReturnCalls | recv.cpp:188-208 | a normal run made init's four successful calls, then cleanUp's three |
| Receiver.NormalReturnOutput | recv.cpp:197-202 | a normal run wrote the whole payload of its acknowledged chunks and returned their total |
| Receiver.NormalReturnReleases | recv.cpp:205 | a normal run whose releases succeed holds nothing |
| Receiver.Process.constructor | recv.cpp:17-18 | a fresh process holds nothing and has made no call |
| Receiver.Process.Syscall | recv.cpp:48-79 | one IPC call: its outcome and its effect on the held resources, appended to the log |
| Receiver.Process.Terminate | recv.cpp:39 | what a process keeps after exit: the attachment is gone, the rest of the state and the call log are unchanged |
| Receiver.Process.Init | recv.cpp:45-82 | init's new state and call log are those of the provisioning specification, and it exits with status 1 at the first failure |
| Receiver.Process.CleanUp | recv.cpp:171-186 | cleanUp's new state and call log are those of the teardown specification |
| Receiver.Process.SignalHandler | recv.cpp:23-40 | the handler makes cleanUp's three releases, then exits with status 0, the kernel dropping any attachment left |
| Receiver.Process.Run | recv.cpp:188-208 | main's ending, transfer, new state and call log are those of the specification `Main` |

## Left out

- The System V calls (`ftok`, `shmget`, `shmat`, `msgget`, `msgrcv`, `msgsnd`, `shmctl`, `msgctl`) are not executed. They are replaced by the round trace, the queue and the kernel oracle. The oracle answers each kind of call the same way throughout one run.
- The segment is not destroyed on its last detach. A removal marks it gone at once. Another process's attachment is not modelled.
- The sender process and the turn-taking between the two processes are not modelled. The handshake's queue and the loop's rounds are given independently. The model does not link the data-ready sub-queue the handshake leaves behind to the rounds.
- When a SIGINT arrives is not modelled. Only the handler's release sequence is (`Receiver.Process.SignalHandler`). A signal arriving before `init` completes or after `cleanUp` is not modelled. In particular, before `init` has set them the globals `shmid` and `msqid` are still 0. A handler run then would remove the segment and the queue with id 0, which may belong to another program. The model has no such ids.
- `fopen`, `fwrite` and `fclose` are not real file I/O. The file is a byte sequence, and a short write is given by the round.
- After a negative size, the model does not give meaning to `fwrite` or `fclose` on the closed `FILE*`. It records the ending as undefined behaviour.
- Logging through `printf`, `fprintf` and `perror` is not modelled.
- The message layouts and type numbers come from `msg.h`, which is not part of this model. Types are referred to by name.
- Transfer.MainLoop: `totalBytesReceived` is an `unsigned long`, and the model keeps it as an unbounded `nat`. A 64-bit wrap-around would need more than 2^64 bytes.
- Transfer.Fits: the receiver never checks that an announced size is at most 1000. The model takes it as a precondition of the loop. A larger size would make `fwrite` read past the segment.
- Handshake.CString: a file-name field with no NUL yields the whole field. The C code would read past the end of the field.
