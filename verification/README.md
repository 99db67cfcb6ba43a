# StarHub kernels in Dafny

StarHub connects a user interface to SSH servers, databases, containers and Android devices. The parts that are
easy to get wrong are small protocol and streaming kernels between the interface and the drivers. This project
models sixteen of them and proves what they promise, for all inputs and all runs. A kernel is one module in one file,
the SSH manager three, the RPC client, the Docker session, the echo filter and the projection two each, and
`dafny verify dfyconfig.toml` checks them all.

Two styles occur. Code that changes things step by step is a class or a method with loops, proved against a
function; a concurrent protocol is in addition a state machine whose steps are the critical sections of the code,
and its properties are proved over every sequence of steps. Each section is one function on the shared state, and both
the method of the class and the step of the machine are that function. Everything else is functions and lemmas.

| Module | Models |
|---|---|
| `SshAttempts` | connects, disconnects, drops and shells of the SSH manager, ordered by a generation counter per session id |
| `SshTables` | what the unguarded sections of those leave in the session and channel tables, read off a history of them |
| `SshEnds` | whose the write channels are, and how bastions, shells, failed connects, disconnects and drops end |
| `GoSidecarRpc` | the RPC client of the Go sidecar: pending table, restart of a dead process, failure, timeout |
| `GoSidecarWrites` | the order of writes to that process, broken writes, refused sends, arriving replies, failed starts |
| `Framing` | the two bounded line readers of that RPC connection |
| `DockerExec` | the output buffer, wake-up token and end-of-session state of a Docker exec session |
| `DockerWaits` | when a long poll on that session waits, what wakes it, and how the session ends |
| `CappedOutput` | the bounded output of a remote command |
| `HiddenEcho` | the filter that hides echoed marker lines from the terminal |
| `HiddenEchoSeams` | when a marker shows up in what that filter lets through |
| `Osc7` | the extraction of the working directory from terminal output |
| `Projection` | the event-sourced view of an AI harness session |
| `ProjectionHistory` | which events each field of that view comes from |
| `ContextWindow` | the budget window and the compaction range over a chat history |
| `PacketRing` | the frame format and ring buffer of a live screen |
| `HostHeader` | the rewriting of the Host header in the web proxy |
| `RedisTokens` | the splitting of a Redis command line and the quoting that survives it |
| `RedisTrie` | the namespace tree of a key list |
| `PngRepair` | the repair of screenshots that old adb versions damage |
| `IndexDdl` | the statements that apply a batch of index edits |
| `CsvGrid` | the in-place edits of an open CSV file, with `FirstOfEach` for duplicates |

`Bytes` and `Wrappers` hold what several modules share.

## Where the code does less than its comments say

Each of these is proved, for every run or input by its exact condition, and with a run or input that shows it.

- The comment on the guarded invalidation (manager.rs, lines 82-88) says that a stale disconnect has no effect on a
  new connection. The counter is guarded, the session table is not (ui_ssh.rs, lines 155-158): a disconnect that
  slept through a reconnect removes the new session (`StaleDisconnectTakesNewSession`). A disconnect takes a newer
  session exactly if one of a generation above its own was published and not removed before its unguarded section,
  which is never so while the counter stands where the disconnect read it (`DisconnectTakesNewerIff`).
- `drop_session` is two sections, and a connect that publishes between them survives the drop
  (`DropMissesConcurrentInstall`); a session is left exactly if one was published since the first section and not
  removed again, and it is then behind the counter (`DropLeavesSessionIff`). A drop has no guard either, so it voids a
  connect in flight exactly if that is current at its second section, even one begun after the drop
  (`DropVoidsIffCurrent`, `DropVoidsNewerConnect`).
- A superseded connect that opens its shell late overwrites the live write channel and then removes it
  (`LateShellTakesLiveChannel`). A running shell has the write channel exactly if nothing was inserted or removed for
  the id since its own insertion (`ShellHoldsChannelIff`); for the shell of the current attempt only an older attempt,
  a bastion or the unguarded removal at the end of a bastion (session.rs, lines 1305-1390) can have done so
  (`CurrentShellHoldsChannelIff`). The end of a bastion leaves its id without a write channel, whosever that was
  (`BastionEnds`), and so can take that of a live shell (`BastionTakesLiveChannel`).
- The generation counter is safe for exactly 2^64 - 1 moves; one more, and the first attempt and the last hold the
  same generation (`WrapReadmitsFirstAttempt`).
- The reader of a dead sidecar leaves the slots of its successor alone, as its comment says, but the pending table
  is shared and it fails the successor's calls (`OldReaderFailsNewCall`). A process fails a call sent to another
  exactly if the call is in the table when its reader or writer fails everything (`CrossFailureIff`,
  `LoopEndFailsTable`), and none that is registered after both have (`SpentFailsNoLaterCall`).
- A call can be sent to a process whose reader has ended but not cleaned up, or whose writer has failed everything but
  not closed its channel (`CallIsStranded`). A process whose reader has ended can only fail it, one that is spent not
  even that (`WhatResolves`); with all processes spent, it waits for its timeout or for another start
  (`StrandedTimesOut`, `MayTimeOut`).
- A start of the sidecar can wait for the lock it holds (`StartWaitsForItself`): exactly if the reader of the new
  process cleans up before the handshake clones the sender (`StuckIff`). From then on no process is started and no call
  is made (`StuckForever`).
- Both line readers are limited to 64 MiB, but the Go one counts the newline and the Rust one does not. They disagree on
  messages of exactly 64 MiB, which the client takes and the server refuses, and on no others (`LimitsDiffer`,
  `LimitsDoDiffer`).
- The echo filter drops each line with a marker as far as it is not shown yet, and a marker can form anew where the next
  line follows the shown beginning (`MarkerFormsAnew`). The output holds a marker exactly if one runs over such a seam
  (`MarkerInOutputIff`); none does when every chunk but the last ends at a newline (`WholeLinesStayClean`). A single
  marker can show up under some chunking exactly if its first 8 characters are not all the same (`CanFormIff`).
- A read of a Docker session that reports it as over may leave output behind (`OverMayLeaveOutput`): exactly if
  something was appended since the last drain (`OutputLeftIff`).
- The note that the budget window puts in front is not counted, so what is sent can exceed the budget although what is
  kept does not (`NoteExceedsBudget`): it fits exactly if the whole history does or what is kept leaves room for the
  note (`WindowFitsIff`).
- A configuration packet sent right before a key frame is not part of a replay (`ConfigIsNotReplayed`). Late subscribers
  catch up with exactly the decoders that a self-contained frame resets (`CatchesUpIff`). A decoder that also needs the
  configuration catches up if the subscriber holds the one in force where the replay starts, or the first replayed
  frame brings one (`LateWithConfig`), and not otherwise (`LateNeedsConfig`).
- Rewriting the Host header is idempotent exactly for hosts without a line break (`IdempotentIff`).
- The key of a directory in the Redis tree drops leading empty segments: it is the join of its path exactly if the
  first segment is not empty or the only one (`DirectoryKey`). Two directories have one key exactly if their paths
  differ in leading empty segments only (`DirectoriesShareKeyIff`, `TwoDirectoriesOneKey`), and any two nodes exactly if
  their paths agree, leading empty segments of directories aside (`NodesShareKeyIff`, `LeafAndDirectoryOneKey`).
- A failed batch of cell changes leaves the column names stale exactly when a change before the invalid one lay
  beyond the header (`StaleAfterError`, `BatchLeavesStale`). Inserting columns and deleting them at the same position
  gives back the stored grid exactly when it was not empty and every row reached the position (`InsertDeleteCols`); at a
  negative position the new columns stay (`NegativeColStays`), which shows exactly when any cell shows text
  (`NegativeColShownIff`).
- Key cells that differ can make one duplicate key when one holds a NUL (`NulConfusesRows`). Given cells share their
  key with others, as many, exactly if there are two or more and one of the given ones holds a NUL (`ConfusedIff`). Rows
  that differ only in missing trailing cells count as duplicates by design, since a missing cell reads as empty.

## Model

| member | source | states |
|---|---|---|
| SshAttempts.NextGen | sidecar-rust/crates/starhub-domain-ssh/src/manager.rs:61-72 | the 64-bit step of the counter never yields 0, the tag of a bastion pty, and is the plain successor short of the wrap |
| SshAttempts.SshManager.Begin | sidecar-rust/crates/starhub-domain-ssh/src/manager.rs:61-72 | starting an attempt moves the counter of that id only and returns the new generation |
| SshAttempts.SshManager.IsCurrentAttempt | sidecar-rust/crates/starhub-domain-ssh/src/manager.rs:99-101 | whether a generation is the current one |
| SshAttempts.SshManager.InvalidateAttemptIfCurrent | sidecar-rust/crates/starhub-domain-ssh/src/manager.rs:89-97 | the counter moves exactly when it stands at the guard, and otherwise nothing changes |
| SshAttempts.SshManager.RemoveChannelForAttempt | sidecar-rust/crates/starhub-domain-ssh/src/manager.rs:103-111 | the write channel goes exactly when it carries the given generation |
| SshAttempts.SshManager.Install | sidecar-rust/crates/starhub-domain-ssh/src/manager.rs:211-228 | a session is published exactly when its attempt is still current, under both locks |
| SshAttempts.InvHolds | sidecar-rust/crates/starhub-domain-ssh/src/manager.rs:61-130 | in every interleaving the counter, the log, all tasks in flight and all channel tags agree, short of the wrap |
| SshAttempts.SupersededNeverInstalls | sidecar-rust/crates/starhub-domain-ssh/src/manager.rs:145-228 | in every interleaving, between the start of an attempt and the publication of its session the counter never moved: a superseded, invalidated or dropped attempt never publishes |
| SshAttempts.InstalledIncrease | sidecar-rust/crates/starhub-domain-ssh/src/manager.rs:208-228 | the generations published for an id strictly increase |
| SshAttempts.CleanupTouchesOnlyItsOwn | sidecar-rust/crates/starhub-domain-ssh/src/manager.rs:89-116 | a guarded invalidation or channel removal changes only what belongs to its own generation, which is never 0 and never newer than the counter |
| SshAttempts.StaleDisconnectTakesNewSession | sidecar-rust/crates/starhub-sidecar/src/methods/ui_ssh.rs:146-174 | a run in which a disconnect of the first attempt removes the session of the second |
| SshAttempts.DropMissesConcurrentInstall | sidecar-rust/crates/starhub-domain-ssh/src/manager.rs:121-130 | a run in which a session published between the two sections of a drop survives it |
| SshAttempts.LateShellTakesLiveChannel | sidecar-rust/crates/starhub-domain-ssh/src/session.rs:547-550 | a run that leaves the live session without its write channel |
| SshAttempts.WrapReadmitsFirstAttempt | sidecar-rust/crates/starhub-domain-ssh/src/manager.rs:61-72 | the bound of the safety lemmas is exact: one move more and two attempts publish under one generation |
| SshTables.TablesFollowTrace | sidecar-rust/crates/starhub-domain-ssh/src/manager.rs:103-130 | in every run the session and channel tables hold what the history of publications, insertions and removals says |
| SshTables.DisconnectTakesNewerIff | sidecar-rust/crates/starhub-sidecar/src/methods/ui_ssh.rs:146-174 | over all runs the unguarded section of a disconnect takes a session newer than its attempt exactly if one of a higher generation was published and not removed since, and none was while the counter stands where the disconnect read it |
| SshTables.PublicationsRise | sidecar-rust/crates/starhub-domain-ssh/src/manager.rs:208-228 | the generations published for an id never fall in the history of the tables, nor pass the counter |
| SshTables.DropLeavesSessionIff | sidecar-rust/crates/starhub-domain-ssh/src/manager.rs:121-130 | over all runs a session is there after both sections of a drop exactly if one was published since the first and not removed again, and it is behind the counter |
| SshTables.DropVoidsIffCurrent | sidecar-rust/crates/starhub-domain-ssh/src/manager.rs:121-130 | a connect in flight could publish before the second section of a drop exactly if its attempt is current then, and never can after it |
| SshTables.CurrentMayPublish | sidecar-rust/crates/starhub-domain-ssh/src/manager.rs:145-228 | a connect in flight whose generation is current has a continuation in which it publishes |
| SshTables.PassedNeverPublishes | sidecar-rust/crates/starhub-domain-ssh/src/manager.rs:208-228 | an attempt that the counter has passed before it published publishes in no continuation |
| SshTables.DropVoidsNewerConnect | sidecar-rust/crates/starhub-domain-ssh/src/manager.rs:121-130 | a run in which a drop voids a connect that began after it |
| SshTables.ShellHoldsChannelIff | sidecar-rust/crates/starhub-domain-ssh/src/session.rs:547-616 | over all runs a running shell has the write channel of its id exactly if nothing was inserted for the id and no entry of it removed since its own insertion |
| SshTables.ShellHasInserted | sidecar-rust/crates/starhub-domain-ssh/src/session.rs:547-550 | every running shell has such an insertion in the history |
| SshTables.CurrentShellHoldsChannelIff | sidecar-rust/crates/starhub-domain-ssh/src/session.rs:1305-1390 | the running shell of the current attempt has lost the write channel exactly to a shell of an older attempt, a bastion, or the unguarded removal at the end of a bastion |
| SshTables.OpensOnce | sidecar-rust/crates/starhub-domain-ssh/src/session.rs:547-550 | over all runs each attempt inserts its write channel at most once |
| SshEnds.ChannelsHaveOwners | sidecar-rust/crates/starhub-domain-ssh/src/session.rs:547-616 | in every run each write channel is that of a running shell of its generation, or of a running bastion |
| SshEnds.ShellEnds | sidecar-rust/crates/starhub-domain-ssh/src/session.rs:609-616 | the end of a shell, or of a connect refused at publication, leaves no write channel of its own generation and touches nothing else |
| SshEnds.BastionEnds | sidecar-rust/crates/starhub-domain-ssh/src/session.rs:1305-1390 | the end of a bastion leaves its id without a write channel, whosever it was, and touches nothing else |
| SshEnds.BastionTakesLiveChannel | sidecar-rust/crates/starhub-domain-ssh/src/session.rs:1386-1390 | a run in which the end of a bastion takes the write channel of the live shell |
| SshEnds.ConnectSucceeds | sidecar-rust/crates/starhub-domain-ssh/src/manager.rs:145-228 | a connect that nothing comes between publishes its session, and its shell has the write channel |
| SshEnds.SupersededOpensNothing | sidecar-rust/crates/starhub-domain-ssh/src/manager.rs:145-228 | a connect superseded before its check opens no shell and publishes nothing in any continuation |
| SshEnds.FailedOpensNothing | sidecar-rust/crates/starhub-domain-ssh/src/manager.rs:145-228 | nor does one whose I/O failed |
| SshEnds.DisconnectVoids | sidecar-rust/crates/starhub-sidecar/src/methods/ui_ssh.rs:146-174 | whatever happens meanwhile, once a disconnect is over the counter has left the attempt it read behind |
| SshEnds.DisconnectUndoes | sidecar-rust/crates/starhub-sidecar/src/methods/ui_ssh.rs:146-174 | a disconnect that nothing comes between removes session, attempt and write channel of the current attempt and nothing else, whatever state it finds |
| SshEnds.DropMoves | sidecar-rust/crates/starhub-domain-ssh/src/manager.rs:121-130 | whatever happens meanwhile, once a drop is over the counter has moved |
| SshEnds.DropUndoes | sidecar-rust/crates/starhub-domain-ssh/src/manager.rs:121-130 | a drop that nothing comes between removes the session and voids the attempt, and leaves the write channel |
| GoSidecarRpc.GoSidecar.StoreChild | sidecar-rust/crates/starhub-domain-db/src/go_sidecar.rs:254-254 | storing a child drops, and so kills, the one before |
| GoSidecarRpc.GoSidecar.Remove | sidecar-rust/crates/starhub-domain-db/src/go_sidecar.rs:428-432 | taking one id out of the table tells whether it was there |
| GoSidecarRpc.GoSidecar.DrainAll | sidecar-rust/crates/starhub-domain-db/src/go_sidecar.rs:434-445 | failing all empties the table and hands out every id in it |
| GoSidecarRpc.GoSidecar.CleanUpAfterReader | sidecar-rust/crates/starhub-domain-db/src/go_sidecar.rs:413-425 | the end of a reader clears sender and child exactly when the sender is its own |
| GoSidecarRpc.OnlyOwnProcessTornDown | sidecar-rust/crates/starhub-domain-db/src/go_sidecar.rs:220-275 | over all runs a reader or a failed start clears the sender of and kills only its own process, and a start replaces only an older one |
| GoSidecarRpc.CallsHold | sidecar-rust/crates/starhub-domain-db/src/go_sidecar.rs:428-521 | in every run each call has one of the listed stories: it enters the table, leaves it once, for a reply or with its caller, and its reply is then in exactly one place |
| GoSidecarRpc.ResolvedAtMostOnce | sidecar-rust/crates/starhub-domain-db/src/go_sidecar.rs:428-445 | over all runs an id is taken out of the table at most once, whether a line answers it, a loop fails it or its caller takes it back |
| GoSidecarRpc.OutcomeIsTheRemoval | sidecar-rust/crates/starhub-domain-db/src/go_sidecar.rs:464-521 | a call returns the reply its id was taken out for, and not-running or a timeout exactly if it came to take its own id back, in time or too late |
| GoSidecarRpc.AnswersAreOwn | sidecar-rust/crates/starhub-domain-db/src/go_sidecar.rs:383-390 | an answer that a caller returns came on a line with its own id |
| GoSidecarRpc.ReturnedIsOutOfTable | sidecar-rust/crates/starhub-domain-db/src/go_sidecar.rs:499-515 | once a call has returned, for whatever reason, its id is out of the table for good |
| GoSidecarRpc.NoOrphanedCaller | sidecar-rust/crates/starhub-domain-db/src/go_sidecar.rs:428-445 | a waiting caller is in the table or its reply is on the way, so no one-shot channel is dropped empty |
| GoSidecarRpc.OldReaderFailsNewCall | sidecar-rust/crates/starhub-domain-db/src/go_sidecar.rs:370-373 | a run in which the reader of a dead process fails a call sent to its successor |
| GoSidecarRpc.CrossFailureIff | sidecar-rust/crates/starhub-domain-db/src/go_sidecar.rs:309-445 | over all runs the loops of a process fail a call sent to another process exactly by failing everything while the call is in the table |
| GoSidecarRpc.LoopEndFailsTable | sidecar-rust/crates/starhub-domain-db/src/go_sidecar.rs:309-445 | the end of a reader, and that of a writer after a broken write, fail exactly the calls in the table |
| GoSidecarRpc.SpentFailsNoLaterCall | sidecar-rust/crates/starhub-domain-db/src/go_sidecar.rs:309-445 | a call registered after both loops of a process have failed everything is never failed nor answered by that process |
| GoSidecarRpc.EndedReaderOnlyFails | sidecar-rust/crates/starhub-domain-db/src/go_sidecar.rs:309-445 | in every continuation a process whose reader has ended answers nothing, and fails calls only until its writer has failed all |
| GoSidecarRpc.WhatResolves | sidecar-rust/crates/starhub-domain-db/src/go_sidecar.rs:309-521 | a call that waits for its reply is ended by its own timeout or by a process that is not spent, and by one whose reader has ended only with a failure |
| GoSidecarRpc.StrandedTimesOut | sidecar-rust/crates/starhub-domain-db/src/go_sidecar.rs:309-521 | when every process is spent, and until another is started, only its timeout ends such a call |
| GoSidecarRpc.MayTimeOut | sidecar-rust/crates/starhub-domain-db/src/go_sidecar.rs:499-515 | a waiting call in the table can always time out |
| GoSidecarRpc.CallIsStranded | sidecar-rust/crates/starhub-domain-db/src/go_sidecar.rs:411-425 | a run in which a call sent between the sections at the end of a reader is left with no process that could resolve it |
| GoSidecarRpc.StuckIff | sidecar-rust/crates/starhub-domain-db/src/go_sidecar.rs:220-275 | the handshake of a start finds no sender, and so waits for the lock the start itself holds, exactly if the reader of the new process has already cleaned up |
| GoSidecarRpc.StuckForever | sidecar-rust/crates/starhub-domain-db/src/go_sidecar.rs:464-486 | from then on, in every continuation, no process is started and no call is made |
| GoSidecarRpc.StartWaitsForItself | sidecar-rust/crates/starhub-domain-db/src/go_sidecar.rs:220-275 | a run in which a start waits for itself |
| GoSidecarWrites.WrittenInOrder | sidecar-rust/crates/starhub-domain-db/src/go_sidecar.rs:309-347 | over all runs the calls handed to a process are, in order, those it has written or tried to write and those in its queue, which holds at most 100 |
| GoSidecarWrites.WriteFailsOwn | sidecar-rust/crates/starhub-domain-db/src/go_sidecar.rs:309-347 | a write that fails takes its own call out of the table, with a failure, and one that succeeds none |
| GoSidecarWrites.BrokenIsLast | sidecar-rust/crates/starhub-domain-db/src/go_sidecar.rs:336-345 | over all runs a process writes on exactly while no write of its has broken, and a broken one is its last |
| GoSidecarWrites.BrokenFailsTable | sidecar-rust/crates/starhub-domain-db/src/go_sidecar.rs:336-345 | in every run the next section of the loop behind a broken write fails exactly the calls in the table then |
| GoSidecarWrites.BrokenCloses | sidecar-rust/crates/starhub-domain-db/src/go_sidecar.rs:336-347 | and the one after that closes its channel |
| GoSidecarWrites.ClosedRefuses | sidecar-rust/crates/starhub-domain-db/src/go_sidecar.rs:499-502 | in every continuation a call not yet sent to a process whose channel is closed is never sent, and returns nothing but not-running |
| GoSidecarWrites.ClosedReturns | sidecar-rust/crates/starhub-domain-db/src/go_sidecar.rs:499-502 | it returns so after three sections of its own, and is out of the table |
| GoSidecarWrites.NotRunningIsBroken | sidecar-rust/crates/starhub-domain-db/src/go_sidecar.rs:499-502 | over all runs a send is refused only by a process that has met a broken write |
| GoSidecarWrites.CallIsRefused | sidecar-rust/crates/starhub-domain-db/src/go_sidecar.rs:336-347 | a run that ends in not-running |
| GoSidecarWrites.MailArrives | sidecar-rust/crates/starhub-domain-db/src/go_sidecar.rs:499-521 | a reply on its way reaches the caller that waits, even if its timer fires when the reply is there |
| GoSidecarWrites.LineAnswers | sidecar-rust/crates/starhub-domain-db/src/go_sidecar.rs:383-387 | a response line answers the waiting call in the table whose id it carries, whichever process that was sent to |
| GoSidecarWrites.UnknownLine | sidecar-rust/crates/starhub-domain-db/src/go_sidecar.rs:385-389 | a line whose id is not in the table changes nothing |
| GoSidecarWrites.CleanupKills | sidecar-rust/crates/starhub-domain-db/src/go_sidecar.rs:411-425 | the cleanup at the end of a reader kills its process and empties both slots exactly if the sender is its own, and otherwise changes no slot |
| GoSidecarWrites.FailedStartKills | sidecar-rust/crates/starhub-domain-db/src/go_sidecar.rs:266-275 | in every run a start that failed its handshake gives the lock back with its process killed and no sender stored |
| GoSidecarWrites.StartMovesOn | sidecar-rust/crates/starhub-domain-db/src/go_sidecar.rs:220-275 | a start that does not wait for itself gives the lock back after at most six sections, however they turn out |
| Framing.ReadLoop | sidecar-rust/crates/starhub-domain-db/src/go_sidecar.rs:356-410 | for every chunking the loop yields the messages of the client's reading of the whole stream, and its accumulator never exceeds 64 MiB |
| Framing.ReadRequestLine | sidecar/rpc/server.go:93-121 | for every buffer boundary one call consumes one line and reports it or that it was too long |
| Framing.RunIO | sidecar/rpc/server.go:63-91 | for every buffer boundary the loop produces the events of the server's reading of the stream |
| Framing.ClientReadsMessages | sidecar-rust/crates/starhub-domain-db/src/go_sidecar.rs:374-408 | of messages written with newlines the client handles exactly those before the first over 64 MiB and stops there |
| Framing.ServerReadsMessages | sidecar/rpc/server.go:63-121 | the server handles every message, answers each one too long with one error and goes on |
| Framing.EveryStreamSplits | sidecar-rust/crates/starhub-domain-db/src/go_sidecar.rs:329-333 | every byte stream is newline-framed messages and an unfinished rest |
| Framing.LimitsDiffer | sidecar/rpc/server.go:96-121 | the client takes and the server refuses a message exactly if its length is 64 MiB, and whatever the server takes the client takes too |
| Framing.TakenIff | sidecar/rpc/server.go:96-121 | the client takes a message exactly up to 64 MiB, the server exactly below, and what a refusal looks like |
| Framing.LimitsDoDiffer | sidecar/rpc/server.go:96-121 | there is a message the client takes and the server refuses |
| DockerExec.DockerExecSession.Append | sidecar/adapters/docker.go:783-795 | after an append the buffer is the last 4 MiB of what it held plus the data |
| DockerExec.DockerExecSession.Notify | sidecar/adapters/docker.go:796-801 | after a non-blocking send the token is there, whether or not one was there before |
| DockerExec.DockerExecSession.Drain | sidecar/adapters/docker.go:827-833 | a snapshot takes the whole buffer and leaves it empty |
| DockerExec.DockerExecSession.FinishState | sidecar/adapters/docker.go:803-813 | the end of the session is recorded once, and a second finish changes nothing |
| DockerExec.BufferIsTailOfWindow | sidecar/adapters/docker.go:783-842 | in every interleaving the stream splits into one window per drain, each drain took the last 4 MiB of its window, and the buffer holds that much of the open one |
| DockerExec.LosslessIffNoOverflow | sidecar/adapters/docker.go:783-842 | delivered bytes plus buffer are the stream exactly when no window exceeded 4 MiB |
| DockerExec.DrainedBytesReachOneReader | sidecar/adapters/docker.go:827-859 | what a drain took is in the hands of exactly one reader |
| DockerExec.NoLostWakeup | sidecar/adapters/docker.go:783-859 | in every interleaving, output means a token, a producer about to leave one, or a woken reader about to drain |
| DockerExec.VerdictFrozen | sidecar/adapters/docker.go:803-825 | once running is false, exit code and error never change again |
| DockerExec.ReportsFinalVerdict | sidecar/adapters/docker.go:844-859 | whoever reports the session as over reports its final exit code and error |
| DockerExec.OutputLeftIff | sidecar/adapters/docker.go:827-842 | in every run output is left, at a report of the end as at any time, exactly if something was appended since the last drain |
| DockerExec.OverMayLeaveOutput | sidecar/adapters/docker.go:827-842 | a run in which the only reader reports the end while output is left |
| DockerWaits.WaitsIff | sidecar/adapters/docker.go:844-859 | over all runs a reader waits behind its first drain exactly if that took nothing, it asked to wait and the session ran, and otherwise returns at once |
| DockerWaits.EmptyAnswerWaited | sidecar/adapters/docker.go:844-859 | over all runs a reader that asked to wait and came back empty-handed from a running session has waited, and was woken by a token or the timer |
| DockerWaits.TokenWakes | sidecar/adapters/docker.go:847-859 | a waiting reader can take the token, and then reports all the output there is |
| DockerWaits.NothingElseWakes | sidecar/adapters/docker.go:847-859 | without token and end only the timer wakes a waiting reader |
| DockerWaits.DoneWakes | sidecar/adapters/docker.go:847-859 | once the end is announced every waiting reader can report it, with the final verdict |
| DockerWaits.EndingAppendsNothing | sidecar/adapters/docker.go:748-781 | behind a read error nothing is appended in any continuation |
| DockerWaits.ProducerFinishes | sidecar/adapters/docker.go:748-781 | the end of the producer gives a running session its verdict and is then announced, and leaves one stopped before as it was |
| DockerWaits.ExitEndsSession | sidecar/adapters/docker.go:748-781 | over all runs no producer leaves a running session behind |
| DockerWaits.StopEnds | sidecar/adapters/docker.go:803-825 | a stop ends a running session without an exit code, and changes nothing in one that is over |
| CappedOutput.AppendCapped | sidecar-rust/crates/starhub-domain-ssh/src/session.rs:2318-2331 | the buffer keeps the beginning of everything up to the cap, and a cut is reported exactly when bytes were lost |
| CappedOutput.Collect | sidecar-rust/crates/starhub-domain-ssh/src/session.rs:1020-1038 | for every chunking the output is the beginning of the stream and truncation is reported exactly when the stream exceeds 4 MiB |
| HiddenEcho.HiddenEchoFilter.constructor | legacy-core/utils/sshPromptCapture.ts:108-111 | the filter's markers are the non-empty literals |
| HiddenEcho.HiddenEchoFilter.MarkerPrefixOverlap | legacy-core/utils/sshPromptCapture.ts:114-121 | the longest end of the buffer that is the beginning of a longer marker |
| HiddenEcho.HiddenEchoFilter.EmitLines | legacy-core/utils/sshPromptCapture.ts:125-131 | the loop over finished lines leaves no newline behind and emits what the filter function does |
| HiddenEcho.HiddenEchoFilter.Feed | legacy-core/utils/sshPromptCapture.ts:123-144 | one call emits and holds back what the filter function says |
| HiddenEcho.HoldIsSafe | legacy-core/utils/sshPromptCapture.ts:132-143 | of an unfinished line nothing is emitted that is or could become part of a marker; of a rest with a marker or its first 8 characters nothing at all, of any other exactly all but the longest end that begins a marker |
| HiddenEcho.EveryChunkingExplained | legacy-core/utils/sshPromptCapture.ts:103-145 | for every input and chunking the output is an in-order part of the input: each finished line without a marker whole, of a line with one at most a prefix before its first occurrence, of the unfinished line all but the longest end that begins a marker, or but a rest that holds one |
| HiddenEcho.PromptShows | legacy-core/utils/sshPromptCapture.ts:132-143 | a prompt without a newline, free of marker heads and not ending like a marker, shows at once |
| HiddenEcho.SuspiciousWaits | legacy-core/utils/sshPromptCapture.ts:132-143 | a chunk that leaves a marker or its first 8 characters in what is held back shows nothing |
| HiddenEchoSeams.MarkerInOutputIff | legacy-core/utils/sshPromptCapture.ts:123-144 | the output holds a marker free of newlines exactly if one runs over the end of a line that was shown in part and dropped |
| HiddenEchoSeams.MarkersInEveryChunking | legacy-core/utils/sshPromptCapture.ts:103-145 | for every input and chunking the lines that explain the output tell so which markers are in it |
| HiddenEchoSeams.WholeLinesStayClean | legacy-core/utils/sshPromptCapture.ts:103-145 | if every chunk but the last ends at a newline, no marker free of newlines is in the output |
| HiddenEchoSeams.UniformNeverForms | legacy-core/utils/sshPromptCapture.ts:132-143 | a single marker whose first 8 characters are all the same is in the output for no input and chunking |
| HiddenEchoSeams.SpliceForms | legacy-core/utils/sshPromptCapture.ts:123-144 | for any other single marker free of newlines there are chunks whose output is that marker on a line |
| HiddenEchoSeams.CanFormIff | legacy-core/utils/sshPromptCapture.ts:103-145 | a single marker can be in the output exactly if its first 8 characters are not all the same |
| HiddenEchoSeams.MarkerFormsAnew | legacy-core/utils/sshPromptCapture.ts:123-144 | three chunks whose output is the marker "ab" on a line |
| Osc7.MatchEndIsPattern | legacy-core/utils/terminalCwd.ts:36-36 | the scanner finds exactly the spans of the OSC 7 pattern |
| Osc7.HitSpells | legacy-core/utils/terminalCwd.ts:36-36 | what is found is the introducer, the body and a terminator, and its body is what stands between |
| Osc7.CwdIs | legacy-core/utils/terminalCwd.ts:41-44 | a report names a directory exactly if it is a file URL with any host and that path, or that absolute path itself |
| Osc7.LastCwdIsLast | legacy-core/utils/terminalCwd.ts:37-46 | the directory found is that of the last report that names one |
| Osc7.ExtractOsc7Cwd | legacy-core/utils/terminalCwd.ts:35-52 | one call yields the last directory reported in its tail and the rest to carry |
| Osc7.HitsDisjoint | legacy-core/utils/terminalCwd.ts:36-36 | reports never overlap |
| Osc7.DropIsHarmless | legacy-core/utils/terminalCwd.ts:27-28 | dropping all but the last 512 characters of a tail without reports changes neither what is found later nor what is carried |
| Osc7.CarrySuffices | legacy-core/utils/terminalCwd.ts:35-52 | carrying the rest is as good as carrying the whole text |
| Osc7.ChunkingDoesNotMatter | legacy-core/utils/terminalCwd.ts:28-52 | for every chunking the reports and the last directory are those of one pass over the stream |
| Projection.ApplyKeeps | legacy-core/services/aiHarnessProjection.ts:88-352 | every event keeps slot and tool maps in bijection with the blocks, at most one todo block, and order, kinds and ids of what was there; streaming only stops |
| Projection.ProjectionConsistent | legacy-core/services/aiHarnessProjection.ts:88-352 | so the aliases are consistent after every event sequence |
| Projection.ProjectionOnlyExtends | legacy-core/services/aiHarnessProjection.ts:88-352 | and every later view extends every earlier one |
| Projection.CallAndResultCommute | legacy-core/services/aiHarnessProjection.ts:256-303 | adjacent call and result events of one tool lead to the same full state in either order |
| Projection.MessageOverridesDeltas | legacy-core/services/aiHarnessProjection.ts:231-254 | a message settles the listed field of every slot whatever deltas came before, and keeps the other |
| ProjectionHistory.SlotHistory | legacy-core/services/aiHarnessProjection.ts:183-254 | over every event sequence a slot shows the text of the last message that lists it as text and all later text deltas in order, its reasoning likewise, and streams exactly if nothing has stopped it since it was opened |
| ProjectionHistory.TextIsListedAndDeltas | legacy-core/services/aiHarnessProjection.ts:194-254 | that text is the listed one followed by the deltas since |
| ProjectionHistory.ToolHistory | legacy-core/services/aiHarnessProjection.ts:256-303 | over every event sequence a tool shows the last non-empty name and arguments a call gave and the last result, and is done exactly if there was one |
| ProjectionHistory.TodoAndUsageHistory | legacy-core/services/aiHarnessProjection.ts:208-321 | the todo block shows the last list written, and the usage is the last one reported |
| ProjectionHistory.PlainAndCardsHistory | legacy-core/services/aiHarnessProjection.ts:136-181 | over every event sequence messages, notices and errors are those of the events, in order, and cards those of the children started, each finish having closed the first card of its child |
| Projection.DshSessionProjection.constructor | legacy-core/services/aiHarnessProjection.ts:88-98 | a new projection is empty |
| Projection.DshSessionProjection.AssistantSlot | legacy-core/services/aiHarnessProjection.ts:183-192 | the object of a slot is found or appended, and is the one in the list |
| Projection.DshSessionProjection.OnDelta | legacy-core/services/aiHarnessProjection.ts:194-206 | a delta changes one block, through the alias |
| Projection.DshSessionProjection.OnFinish | legacy-core/services/aiHarnessProjection.ts:218-227 | a finish stops the slots of its step and no others |
| Projection.DshSessionProjection.OnAssistantMessage | legacy-core/services/aiHarnessProjection.ts:231-254 | the state afterwards is that of the event function |
| Projection.DshSessionProjection.OnToolCallEvent | legacy-core/services/aiHarnessProjection.ts:256-277 | a call fills in the block of its id or appends one |
| Projection.DshSessionProjection.OnToolResultEvent | legacy-core/services/aiHarnessProjection.ts:279-303 | a result fills in the block of its id or appends one |
| Projection.DshSessionProjection.OnTodo | legacy-core/services/aiHarnessProjection.ts:305-321 | the one todo block is replaced in place or appended |
| Projection.DshSessionProjection.OnTurnEndEvent | legacy-core/services/aiHarnessProjection.ts:323-350 | the end of a turn stops every slot and appends at most one block |
| Projection.DshSessionProjection.OnUserMessage | legacy-core/services/aiHarnessProjection.ts:175-181 | a message of the user appends one block |
| Projection.DshSessionProjection.PushNotice | legacy-core/services/aiHarnessProjection.ts:136-139 | a notice stops every slot and appends one block |
| Projection.DshSessionProjection.ApplySubagent | legacy-core/services/aiHarnessProjection.ts:145-173 | a subagent notification appends a block or closes the first one of the child |
| Projection.DshSessionProjection.ApplyEvent | legacy-core/services/aiHarnessProjection.ts:105-134 | over shared heap objects, the state after an event is that of the event function, ids number the blocks, and the new state is consistent and extends the old |
| ContextWindow.UnitsJoined | legacy-core/utils/aiContext.ts:206-224 | grouping into units loses and reorders nothing |
| ContextWindow.UnitCut | legacy-core/utils/aiContext.ts:206-224 | cutting between units is cutting between messages |
| ContextWindow.OrphansStartUnits | legacy-core/utils/aiContext.ts:206-224 | a history has no orphan tool result, message by message, exactly when no unit starts with one |
| ContextWindow.UnitsAddUp | legacy-core/utils/aiCompactionGates.ts:31-42 | the sizes of the units add up to the estimate of the whole history |
| ContextWindow.MessageCounts | legacy-core/utils/aiCompactionGates.ts:31-36 | a message counts its content and, if it calls tools, the text of the list of calls |
| ContextWindow.EstimateChars | legacy-core/utils/aiCompactionGates.ts:38-42 | the loop computes the sum over all messages |
| ContextWindow.Group | legacy-core/utils/aiContext.ts:211-219 | the inner loop takes a call and all results right behind it |
| ContextWindow.GroupUnits | legacy-core/utils/aiContext.ts:206-224 | the grouping loop yields the units and their sizes |
| ContextWindow.MandatoryStart | legacy-core/utils/aiContext.ts:226-233 | the backward loop finds the current turn |
| ContextWindow.KeepUnits | legacy-core/utils/aiContext.ts:235-246 | the kept units are the longest run of last units within the budget, or the current turn if that alone exceeds it |
| ContextWindow.BuildBudgetedMessages | legacy-core/utils/aiContext.ts:203-258 | the whole function: the note if anything was left out, then the longest window, with what was left out |
| ContextWindow.WindowKeepsUnits | legacy-core/utils/aiContext.ts:248-257 | left out and kept make up the input, and the units sent are the note and exactly the kept units |
| ContextWindow.WindowSize | legacy-core/utils/aiContext.ts:248-257 | what is sent is as large as the kept units plus the note |
| ContextWindow.WindowFitsIff | legacy-core/utils/aiContext.ts:235-258 | what is sent fits the budget exactly if the whole history does or the kept units leave room for the note; while the current turn fits, the note is all the excess |
| ContextWindow.NoteExceedsBudget | legacy-core/utils/aiContext.ts:248-257 | a history of two messages whose kept unit fits while what is sent does not |
| ContextWindow.PickCompactionRange | legacy-core/utils/aiCompactionGates.ts:73-94 | the loops find the leading system messages and the end of the range |
| ContextWindow.RangeCutsBetweenUnits | legacy-core/utils/aiCompactionGates.ts:64-94 | for every history, well-formed or not, both ends are unit boundaries of the window's grouping; at least 6 messages lie inside, leading system messages and at least 12 recent ones outside |
| ContextWindow.RangeIsLongest | legacy-core/utils/aiCompactionGates.ts:79-90 | without orphans no later boundary would have left twelve messages |
| ContextWindow.CompactionKeepsUnits | legacy-core/utils/aiCompactionGates.ts:64-72 | replacing the range by a summary keeps every other unit, in order, and adds the summary as one |
| ContextWindow.WindowKeepsNoOrphans | legacy-core/utils/aiContext.ts:195-201 | the window of a history without orphans has none |
| ContextWindow.CompactionKeepsNoOrphans | legacy-core/utils/aiCompactionGates.ts:64-72 | nor has a compacted one |
| PacketRing.DecodeInvertsEncode | sidecar-rust/crates/starhub-live/src/frames.rs:34-56 | decoding gives back what was encoded exactly for payloads up to 4 MiB and refuses all others |
| PacketRing.EncodeInvertsDecode | sidecar-rust/crates/starhub-live/src/frames.rs:34-56 | whatever decodes is the encoding of what it decodes to |
| PacketRing.WireFormat | sidecar-rust/crates/starhub-live/src/frames.rs:34-41 | a frame is kind, flags, the length in four bytes from the highest to the lowest, and the payload |
| PacketRing.Ring.Push | sidecar-rust/crates/starhub-live/src/frames.rs:85-99 | after any pushes the ring is the longest suffix of the history within 8 MiB, and its byte count is exact |
| PacketRing.Ring.ReplayFrames | sidecar-rust/crates/starhub-live/src/frames.rs:115-129 | a replay is everything from the last self-contained frame on |
| PacketRing.LastIsLast | sidecar-rust/crates/starhub-live/src/frames.rs:118-122 | the backward search finds the last self-contained frame, or the start |
| PacketRing.HoldsWhatFits | sidecar-rust/crates/starhub-live/src/frames.rs:85-99 | the ring holds a self-contained frame exactly when all since the last one fits in it |
| PacketRing.LateEqualsEarly | sidecar-rust/crates/starhub-live/src/frames.rs:115-129 | then a late subscriber ends in the decoder state of an early one, whatever states both started in, if every self-contained frame the ring can hold resets the decoder |
| PacketRing.CatchesUpIff | sidecar-rust/crates/starhub-live/src/frames.rs:115-129 | and late subscribers catch up from all states over all histories only with such a decoder |
| PacketRing.ConfigIsNotReplayed | sidecar-rust/crates/starhub-live/src/frames.rs:23-26 | a replay leaves out a configuration packet sent right before the key frame |
| PacketRing.LateWithConfig | sidecar-rust/crates/starhub-live/src/android.rs:646-663 | a decoder that keeps the last configuration catches up if it holds the one in force where the replay starts, or the first replayed frame brings one |
| PacketRing.LateNeedsConfig | sidecar-rust/crates/starhub-live/src/android.rs:646-663 | and some such decoder catches up only then |
| HostHeader.FindIsFirst | sidecar-rust/crates/starhub-domain-ssh/src/session.rs:2064-2069 | the search reports the first occurrence of a non-empty needle, if any |
| HostHeader.RequestLineDecides | sidecar-rust/crates/starhub-domain-ssh/src/session.rs:2072-2085 | only the request line decides whether bytes look like a request |
| HostHeader.ScanForHost | sidecar-rust/crates/starhub-domain-ssh/src/session.rs:2108-2121 | the loop over lines finds the range of the first Host line |
| HostHeader.RewriteHostHeader | sidecar-rust/crates/starhub-domain-ssh/src/session.rs:2093-2139 | the method computes the rewriting |
| HostHeader.RewriteIsLineByLine | sidecar-rust/crates/starhub-domain-ssh/src/session.rs:2087-2139 | the first Host line becomes the given one or it is put first; the request line, all other lines, their order and all bytes from the blank line on stay |
| HostHeader.RewriteOfAnyBytes | sidecar-rust/crates/starhub-domain-ssh/src/session.rs:2087-2107 | all bytes either pass through, when they are no request or have no blank line, or are rewritten line by line |
| HostHeader.RewriteTwice | sidecar-rust/crates/starhub-domain-ssh/src/session.rs:2093-2139 | with a host free of line breaks rewriting twice is rewriting once |
| HostHeader.IdempotentIff | sidecar-rust/crates/starhub-domain-ssh/src/session.rs:2093-2139 | rewriting is idempotent on all bytes exactly for hosts without a line break |
| RedisTokens.ParseRedisCommand | sidecar/adapters/redis.go:789-833 | the loop computes the reading of the command one byte at a time |
| RedisTokens.ParseReadsWhatIsWritten | sidecar/adapters/redis.go:786-833 | arguments come back exactly, empty ones included, whichever stretches are quoted, with either quote, needless backslashes and any blanks around them |
| RedisTokens.OpenQuoteRunsOn | sidecar/adapters/redis.go:789-833 | a quote left open runs to the end of the command, where a lone backslash stands for itself |
| RedisTokens.ParseUndoesPrint | vendor/deepseek-harness/packages/starhub/client-nav/src/client/redis/redis-service.ts:225-233 | what the client quotes and joins with spaces parses back to the same list, for all byte strings |
| RedisTokens.ReprintIsStable | sidecar/adapters/redis.go:789-833 | printing a parsed command and parsing it again changes nothing |
| RedisTrie.SplitIsInjective | legacy-core/utils/redisKeys.ts:38-38 | different keys have different segments |
| RedisTrie.InsertAt | legacy-core/utils/redisKeys.ts:37-68 | inserting a key changes only the nodes on the way to it, and adds one to their counts exactly when it is new |
| RedisTrie.FinalizedAt | legacy-core/utils/redisKeys.ts:70-83 | counting and sorting leave every node at its path |
| RedisTrie.FinalizeCount | legacy-core/utils/redisKeys.ts:70-79 | the count of a finalized node is its number of terminal nodes |
| RedisTrie.TreeAgreesWithKeys | legacy-core/utils/redisKeys.ts:32-84 | there is a node at exactly the segment prefixes of the keys; it counts the distinct keys with that prefix; it is terminal exactly when the prefix is a key, and carries that key with the type and ttl of its last occurrence |
| RedisTrie.DirectoryKey | legacy-core/utils/redisKeys.ts:40-68 | a directory carries neither type nor ttl, and as its key the join of its path without leading empty segments, which is the join of its path exactly if the first segment is not empty or the only one |
| RedisTrie.DirectoriesShareKeyIff | legacy-core/utils/redisKeys.ts:40-68 | two directories carry one key exactly if their paths differ in leading empty segments only |
| RedisTrie.TwoDirectoriesOneKey | legacy-core/utils/redisKeys.ts:40-68 | two keys whose directories carry one key |
| RedisTrie.NodesShareKeyIff | legacy-core/utils/redisKeys.ts:40-68 | any two nodes carry one key exactly if their paths agree, leading empty segments of directories aside |
| RedisTrie.LeafAndDirectoryOneKey | legacy-core/utils/redisKeys.ts:40-68 | two keys of which one is the key of the other's directory too |
| RedisTrie.TreeIsWellNamed | legacy-core/utils/redisKeys.ts:42-83 | siblings of the finished tree have different names on every level |
| RedisTrie.RootsAddUp | legacy-core/utils/redisKeys.ts:70-83 | the counts of the roots add up to the number of distinct keys |
| RedisTrie.TreeIsOrdered | legacy-core/utils/redisKeys.ts:25-30 | every level is ordered by the comparison |
| RedisTrie.LevelsInOrder | legacy-core/utils/redisKeys.ts:25-30 | on every level directories come before leaves, fuller directories before emptier ones, and equals by name |
| RedisTrie.BuildRedisNamespaceTree | legacy-core/utils/redisKeys.ts:32-84 | the method computes the tree |
| PngRepair.RepairRuns | sidecar-rust/crates/starhub-domain-android/src/keys.rs:293-315 | the nested scan over runs of CR ends and drops exactly the CR right before each LF |
| PngRepair.EnsurePng | sidecar-rust/crates/starhub-domain-android/src/keys.rs:288-323 | signature, repair, signature again, or an error |
| PngRepair.RepairUndoesMangle | sidecar-rust/crates/starhub-domain-android/src/keys.rs:284-287 | repair undoes the damage on all bytes |
| PngRepair.MangleUndoesRepairIff | sidecar-rust/crates/starhub-domain-android/src/keys.rs:284-287 | damaging what was repaired gives the same bytes back exactly when every LF has a CR before it |
| PngRepair.EnsuredReturnsPng | sidecar-rust/crates/starhub-domain-android/src/keys.rs:284-323 | a PNG comes back whether undamaged or damaged once, and is refused when damaged twice |
| IndexDdl.GenerateBatchIndexDDL | legacy-core/utils/ddlGenerator.ts:282-300 | the two loops list all drops and then all creates |
| IndexDdl.EditKinds | legacy-core/utils/ddlGenerator.ts:284-298 | which statements each kind of edit asks for, and with which index |
| IndexDdl.BatchAppliesEdits | legacy-core/utils/ddlGenerator.ts:282-300 | the statements run without an error exactly when each index to go is there and goes once and each new name is then free and comes once, and they leave exactly the edited indexes |
| IndexDdl.EditedIsUnique | legacy-core/utils/ddlGenerator.ts:282-300 | the edits ask for one set of indexes |
| IndexDdl.UniqueNamesApply | legacy-core/utils/ddlGenerator.ts:282-300 | an edit list that shows each index once and leaves different names always applies |
| IndexDdl.SwappedNames | legacy-core/utils/ddlGenerator.ts:284-298 | two indexes may take each other's name |
| CsvGrid.MaxColumnCount | sidecar/adapters/sheet.go:39-48 | the loop finds the width of the widest row |
| CsvGrid.BuildDedupKey | sidecar/adapters/sheet.go:93-108 | the loops write the cells of the key, each ended by a NUL |
| CsvGrid.CsvAdapter.EnsureCell | sidecar/adapters/csv.go:430-443 | the grid grows to hold the cell, and the header with it |
| CsvGrid.CsvAdapter.WriteCells | sidecar/adapters/csv.go:190-205 | the changes before the first invalid one are written, and the columns follow only if there was none |
| CsvGrid.CsvAdapter.WriteHeaders | sidecar/adapters/csv.go:207-218 | the header is replaced and the columns follow, or nothing changes |
| CsvGrid.CsvAdapter.InsertRows | sidecar/adapters/csv.go:220-246 | blank rows of full width come in at the clamped place, and the columns follow |
| CsvGrid.CsvAdapter.DeleteRows | sidecar/adapters/csv.go:248-266 | rows go and the columns follow, or nothing changes |
| CsvGrid.CsvAdapter.InsertCols | sidecar/adapters/csv.go:268-287 | blank columns come in at the same place of every row, and the columns follow |
| CsvGrid.CsvAdapter.DeleteCols | sidecar/adapters/csv.go:289-311 | columns go from every row that has them, and the columns follow, or nothing changes |
| CsvGrid.CsvAdapter.RemoveDuplicates | sidecar/adapters/csv.go:369-393 | removed and kept rows add up, and the rows are those of the specification |
| CsvGrid.BatchIsShown | sidecar/adapters/csv.go:190-205 | after a batch every place of the grid shows its last change, or what it showed before |
| CsvGrid.InsertedRowsShown | sidecar/adapters/csv.go:220-246 | inserted rows are blank, those above stay, those below move down |
| CsvGrid.DeletedRowsShown | sidecar/adapters/csv.go:248-266 | deleted rows take nothing else along, and the header stays |
| CsvGrid.InsertedColsShown | sidecar/adapters/csv.go:268-287 | inserted columns are blank in every row, those right of them move right |
| CsvGrid.DeletedColsShown | sidecar/adapters/csv.go:289-311 | deleted columns take nothing else along |
| CsvGrid.StaleAfterError | sidecar/adapters/csv.go:195-203 | after a failed batch the columns are right exactly when no change before the invalid one lay beyond the header |
| CsvGrid.BatchLeavesStale | sidecar/adapters/csv.go:190-205 | a batch of two changes that fails and leaves the stored header wider than the columns shown |
| CsvGrid.InsertDeleteRows | sidecar/adapters/csv.go:220-266 | deleting the rows just inserted gives back the grid exactly for a non-empty grid and an in-range row |
| CsvGrid.InsertDeleteCols | sidecar/adapters/csv.go:268-311 | deleting the columns just inserted leaves every place showing what it did, and restores the stored grid exactly when every row reached the column |
| CsvGrid.NegativeColShownIff | sidecar/adapters/csv.go:268-311 | inserted and deleted at a negative position, the columns change what is shown exactly if any text was shown |
| CsvGrid.NegativeColStays | sidecar/adapters/csv.go:268-311 | one cell that moves right for good |
| CsvGrid.RemovingKeepsFirst | sidecar/adapters/csv.go:369-393 | of the data rows exactly the first of each key stay, in order, below the header |
| CsvGrid.RemovingTwice | sidecar/adapters/csv.go:369-393 | removing duplicates twice is removing them once, even when the widest row went |
| CsvGrid.KeyIsFaithful | sidecar/adapters/sheet.go:93-108 | cells without NUL share their key with no other cells, as many, whatever those hold |
| CsvGrid.ConfusedIff | sidecar/adapters/sheet.go:93-108 | cells share their key with other cells, as many, exactly if there are two or more and one holds a NUL |
| CsvGrid.DuplicatesIff | sidecar/adapters/sheet.go:93-108 | rows without NUL have one key exactly if they show the same text in the given columns, or without any in all up to the width |
| CsvGrid.NulConfusesRows | sidecar/adapters/sheet.go:93-108 | two different rows with a NUL in a cell and one key |

## Left out

- Network, process, file, adb, SFTP, database and Docker calls: their outcomes are inputs of the steps.
- JSON, regular expressions, Unicode trimming, case folding and localeCompare: messages are bytes, the blank test of
  the server is a parameter, the OSC 7 pattern is a predicate, and the locale order of names is any order that embeds
  into the reals, as every total order of strings does.
- UTF-16: JavaScript strings are sequences of characters here, so a length is a number of characters.
- Time: timeouts, timers and idle reaping are steps that may happen at any moment.
- The answer channels for MFA, host keys and bastions (`pending_kb` and the like) and the abort channels of the SSH
  manager, which no promise about attempts rests on.
- The handshake call of a start: its outcome is an input of the step that validates, so every outcome is covered; that
  it goes through the same table as other calls is not.
- Cancelled RPC callers: the model's callers run to their end.
- SshAttempts.InvHolds: says nothing once the counter of the id has moved 2^64 - 1 times, because it fails from then on.
- GoSidecarRpc.OnlyOwnProcessTornDown: in the model the sender and child slots are cleared in one section, because
  the code holds the sender's lock over both.
- Framing.RunIO: stops at the dispatch of a request; handlers, and the JSON of the response, are not modelled.
- HiddenEchoSeams.CanFormIff: of one marker, as the terminal uses the filter; with several, the condition is that of
  HiddenEchoSeams.MarkerInOutputIff. Markers that hold a newline are excluded: they can also run over whole lines.
- Prompt detection, command-echo cleaning and the other predicates of the prompt capture: single tests on one line.
- Projection: the text of ids is a position, and the number formatting of slot keys is not modelled.
- `truncateText`, conversation summaries and the persisted history of the AI context: no tool groups are involved.
- ContextWindow.CompactionKeepsUnits: the summary is any message that is neither a call nor a tool result; the
  service that writes it is not part of this model.
- RedisTrie.BuildRedisNamespaceTree: the trie is a value, so the in-place mutation of its nodes through the nested maps
  is not captured; the sort is a stable insertion, the result any stable sort gives.
- IndexDdl: the splitting of the column list and the quoting in the statement text are not modelled; a statement is
  its kind, name and index.
- CsvGrid: slices are values, so aliasing with rows handed out by `GetRows` is not captured. Sorting is left out, its
  comparison is not transitive on a column with numbers and texts; find and replace, reading and saving are left out.
- UI-tree parsing, XML unescaping and input quoting of the Android keys: one pass of replacements each.
- Bastion sentinel detection: its trim runs before the line scan, so it does depend on the chunking.
- The RPC handler tables, relational adapters, asset mapping and alert store: plumbing.
