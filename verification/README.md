# A verified model of Sedna's coordination layer

Sedna is an XML database made of cooperating processes: a governor, one storage manager
(SM) per database, transaction processes and clients. This Dafny project models the code
by which they coordinate, and proves what that code keeps in every run. Verify the whole
project with `dafny verify dfyconfig.toml`.

What is modelled, and the main results:

* **The shared-memory rendezvous (SSMMsg).** `SsmMsg` is an interleaving step system with
  any number of clients and threads and one stopper. Every run refines an atomic service
  (`SsmMsgService.RunRefines`): a call is refused only if the queue is full or the server
  closed, and each admitted call is answered exactly once, by the handler applied to its own
  request. No reachable state deadlocks, every call returns within a bounded number of steps
  whatever the stopper does, with at most as many clients as places in the queue every call
  is answered (`SsmMsgRefusal`), and the shutdown polls until the system is idle and then
  drains completely within a bounded number of steps (`SsmMsgShutdown`).
* **Transaction admission, exclusive mode, checkpoints.** `TrMgr` has the code of the
  manager and its specification; `Admission` puts any run of up to 50 sessions and the
  checkpoint thread around it. Ids are partitioned, permits conserved, the exclusive
  session is alone and woken once, parked sessions are woken once, readers are never held
  up, every transaction gets through, and so does a checkpoint once no updater holds a
  permit (`AdmissionLiveness`).
* **The client/server session.** `Sp` frames messages over a stream cut up in any way;
  `LongQuery` splits and reassembles queries; `Session` is the protocol of the C driver
  against the server's command loops, and `SednaDriver` the driver's code, proved equal to
  it call by call. Client and server agree on the transaction status in every run, every
  call tells its caller what the server did (`SessionReports`), and a client that reads its
  result item by item gets all of it, in order (`SessionResults`).
* **Hot backup.** `HotBackup` has the client, the governor and the storage managers as
  communicating automata, with any number of clients and databases; `HbGovernor` is the
  governor's code. Every run delivers exactly the right files with checkpoints off; the
  requests of a connection, whatever its client sends, form a word of one language
  (`HotBackupOrder`); a base backup and its increments hold every log file once, over
  whole runs (`HotBackupSeries`), and an increment after them is never refused
  (`HotBackupPoints`); a checkpoint asked for comes before the go-ahead, and a backup is
  through after a known number of requests (`HotBackupProgress`).
* **The governor's table** and the report it sends, from the table to the decoder that
  shows it (`GovTable`, `Rc`).
* **Data structures and algorithms**: `se_hash` as linked cells in the heap refining a
  finite map (`HashTable`, `SeHash`, `Bits`), `offs_list` refining a queue (`OffsList`),
  repair of a nearly sorted array in place (`NearlySorted`), layered pointers (`Xptr`), and
  the export script (`ExportScript`).

Four promises turn out not to hold of the code as it stands. Each is proved with its exact
condition:

* `SEnext` waits for ever when it has to discard an item that also ended the result: the
  server has closed the statement and sends nothing (`SessionRuns.CallAgree`, and
  `SessionRuns.HangReached` for a run that gets there). A client that reads each item until
  a read comes short is never caught by it (`SessionRuns.CarefulClientReturns`).
* `elim_disturb2` is right exactly if the element is not larger than the last of the others
  or not larger than whatever lies in the slot past the array, which it reads
  (`NearlySorted.ElimDisturb2`).
* When a backup client is lost, the governor acts on the status and the database of the
  connection it served last, which it keeps in static pointers. The loss does no damage if
  and only if the lost client was served last and was not told to wait, or had not begun and
  the one served last has no go-ahead (`HotBackupTheorems.LossTolerated`). Otherwise its own
  database keeps its checkpoints disabled, and another client's backup is abandoned midway
  (`HotBackupWitness.OtherAbandoned` is a run with two clients, `LeftDisabled` one with a
  single waiting client). Once the connection served last has been erased the outcome is
  undefined (`HotBackupTheorems.LostClient`, `HotBackupWitness.UndefinedAfterEnd`). And a
  client lost while its base backup is under way takes with it the point of a series already
  recorded, though no other loss does (`HotBackupPoints.LossForgets`).
* `SEgetData` with invalid arguments between two items makes the client take the result for
  finished exactly if the statement is still running (`SessionReports.InvalidReadEnds`);
  without such reads the end reported is the end (`SessionReports.EndIsEnd`).

Two assumptions are stated with the exact condition they stand for. The read-only flag of a
session is taken to be the same when an id is taken and when it is given back
(`AdmissionTheorems.FlagMustMatch`). And the rendezvous is modelled with distinct thread
indices: `serve_clients` reuses one parameter block for all its threads, which guarantees
that only for a single thread, the number in use (`SsmMsgLiveness.DistinctIndicesIffSingle`).
The comment over `get_rc` allows for a momentarily inconsistent table; no operation leaves
one (`GovTable.InfoTable.GetRc`).

Modelling conventions. Semaphores are counters, sockets are byte streams, and a system call
is one atomic step. What an unseen layer decides (the query executor, the storage layer, the
request handler) is a parameter or an oracle, so that the results hold for every choice.
Process identifiers, clocks and file contents are parameters. A comparison callback is a
rank into the integers. Objects the source updates in place are classes; a protocol between
processes is a state machine whose invariant is proved step by step and lifted to runs.

## Model

| member | source | states |
|---|---|---|
| SsmMsgInvariant.InitInv | kernel/common/SSMMsg.cpp:126-158 | the initial semaphore values establish the invariant |
| SsmMsgInvariant.ClientStepInv | kernel/common/SSMMsg.cpp:264-315 | every step of send_msg, in any state that satisfies the invariant, keeps it: population counts of both sides against every semaphore, one partner per slot, buffers as sent |
| SsmMsgInvariant.ServerStepInv | kernel/common/SSMMsg.cpp:324-366 | the same for every step of a server thread |
| SsmMsgInvariant.StopStepInv | kernel/common/SSMMsg.cpp:393-435 | the same for every step of stop_serve_clients |
| SsmMsgInvariant.RunInv | kernel/common/SSMMsg.cpp:264-435 | the invariant holds in every state of every interleaving |
| SsmMsgInvariant.IdleSystem | kernel/common/SSMMsg.cpp:393-412 | reading waiting == 0 and busy == 0 under the mutex means that no call is in progress and every thread is waiting for a client |
| SsmMsgService.StepRefines | kernel/common/SSMMsg.cpp:264-366 | every move is one step of an atomic service, or invisible to it: a request is admitted only with room in the queue of an open server, refused only without, and answered once admitted |
| SsmMsgService.RunRefines | kernel/common/SSMMsg.cpp:264-435 | every run, seen through the view, is a run of the atomic service |
| SsmMsgService.ExactlyOnce | kernel/common/SSMMsg.cpp:290-315 | in every state the number of handler calls equals the calls returned plus those that hold their reply, and the log is the handler's own history |
| SsmMsgService.AnswerIsOwn | kernel/common/SSMMsg.cpp:290-315 | what send_msg hands back is the handler applied to this very request, at one place in the order of handler calls |
| SsmMsgLiveness.SlotsExclusive | kernel/common/SSMMsg.cpp:286-300 | no two clients in flight hold the same slot, and the thread of a held slot is busy |
| SsmMsgLiveness.NoDeadlock | kernel/common/SSMMsg.cpp:264-366 | while a call is admitted and unfinished, some client or thread can move, after at most two steps of the stopper if it holds the mutex |
| SsmMsgLiveness.EveryCallReturns | kernel/common/SSMMsg.cpp:264-366 | in a schedule without new calls, stopper moves interleaved at will, clients and threads make a bounded number of moves, and when they cannot go on no call is in progress |
| SsmMsgRefusal.AdmittedIff | kernel/common/SSMMsg.cpp:275 | in every run the test under the mutex admits a call if and only if there is room and the server is open |
| SsmMsgRefusal.RefusedForCause | kernel/common/SSMMsg.cpp:275-314 | a call that comes back was answered, or was refused while it was in the mutex with the queue full or the server closed |
| SsmMsgRefusal.DeniedByReturn | kernel/common/SSMMsg.cpp:304-312 | an outcome becomes a refusal only by such a call |
| SsmMsgRefusal.NoneRefused | kernel/common/SSMMsg.cpp:275-312 | with at most as many clients as places in the queue, no call is ever refused before the server is stopped |
| SsmMsgRefusal.AllAnswered | kernel/common/SSMMsg.cpp:264-315 | then every call that comes back has its answer, and once nothing can move every call has come back |
| SsmMsgLiveness.QueueBounded | kernel/common/SSMMsg.cpp:273-283 | waiting stays between 0 and the queue limit, busy between 0 and the number of threads |
| SsmMsgLiveness.DrainTokens | kernel/common/SSMMsg.cpp:336-342 | after the idle reading every token on sem_clients is a shutdown token, each taken by a thread that will stop |
| SsmMsgLiveness.DrainProgress | kernel/common/SSMMsg.cpp:413-435 | the drain is never blocked before the last join |
| SsmMsgShutdown.StopCloses | kernel/common/SSMMsg.cpp:393-397 | in every run the server is open exactly until the stopper's third move, and polled from its fourth on |
| SsmMsgShutdown.PollIff | kernel/common/SSMMsg.cpp:399-407 | in every run the poll ends if and only if no call is admitted and every thread waits for a client |
| SsmMsgShutdown.RestPolled | kernel/common/SSMMsg.cpp:399-407 | when clients and threads have come to rest the next poll is the last |
| SsmMsgShutdown.ShutdownEnds | kernel/common/SSMMsg.cpp:406-435 | from then on threads and stopper make a bounded number of moves, whatever calls come and are refused, and can move until stop_serve_clients returns |
| SsmMsgLiveness.ShutdownComplete | kernel/common/SSMMsg.cpp:393-435 | when stop_serve_clients returns every thread has taken exactly one token and no call is in progress |
| SsmMsgLiveness.NoLateAdmission | kernel/common/SSMMsg.cpp:275-283 | after the idle reading no call is ever admitted again |
| SsmMsgLiveness.DistinctIndicesIffSingle | kernel/common/SSMMsg.cpp:368-391 | with one shared parameter block, thread indices are distinct under every timing if and only if there is at most one thread |
| TrMgr.TransactionManager.constructor | kernel/sm/trmgr.cpp:387-394 | all ids free, nobody waiting, no exclusive session |
| TrMgr.TransactionManager.GetTransactionId | kernel/sm/trmgr.cpp:420-445 | hands out the top free id or -1 and counts readers |
| TrMgr.TransactionManager.GiveTransactionId | kernel/sm/trmgr.cpp:447-469 | reports a double identifier exactly if the id is free already, and otherwise frees it |
| TrMgr.TransactionManager.XmTryToStartExclusive | kernel/sm/trmgr.cpp:516-533 | raises the exclusive session's semaphore exactly if one updater is left |
| TrMgr.TransactionManager.XmExitExclusiveMode | kernel/sm/trmgr.cpp:490-509 | raises the semaphore of everyone on the list once and ends the mode |
| TrMgr.TransactionManager.HandleAsk | kernel/sm/sm.cpp:82-109 | the answer and the new state for message 1: parked, refused or granted |
| TrMgr.TransactionManager.HandleGive | kernel/sm/sm.cpp:110-145 | the new state for message 2, with the wake-ups it owes |
| AdmissionInvariant.StepInv | kernel/tr/tr_common_funcs.cpp:48-128 | every step of a session or of the checkpoint thread keeps the invariant over ids, counts, exclusive mode, wait list, semaphores and permits |
| AdmissionInvariant.RunInv | kernel/tr/tr_common_funcs.cpp:358-421 | the invariant holds in every state of every run |
| AdmissionTheorems.IdsPartition | kernel/sm/trmgr.cpp:385-469 | free and held ids partition 0..49, the updater count is exact, no request fails and no identifier is given back twice |
| AdmissionTheorems.FlagMustMatch | kernel/sm/trmgr.cpp:447-469 | giving an id back keeps the updater count exact if and only if the read-only flag is the one it was taken with |
| AdmissionTheorems.FlagChangeLosesCount | kernel/sm/trmgr.cpp:447-469 | a run in which a session begins as an updater; giving its id back as a reader's leaves an updater counted that does not exist, and the next exclusive session is never woken |
| AdmissionTheorems.AskedOutcome | kernel/sm/sm.cpp:82-109 | in every run a request is parked if and only if it is an updater's and an exclusive session is set; an exclusive one otherwise gets its id and waits to be alone; everyone else gets an id at once with the flags it asked with |
| AdmissionTheorems.ReaderAdmitted | kernel/sm/sm.cpp:86-106 | a reader gets its id whatever exclusive session is set |
| AdmissionTheorems.FlagsKept | kernel/tr/tr_common_funcs.cpp:72-128 | from begin to end a session has the flags it began with; one that began as a reader is never parked, never waits to be alone and never holds a permit |
| AdmissionTheorems.ExclusiveAlone | kernel/sm/trmgr.cpp:475-533 | a woken exclusive session is the only updater until it ends |
| AdmissionTheorems.NoGrantWhileExclusive | kernel/sm/sm.cpp:82-109 | while an exclusive session is set nobody becomes an updater |
| AdmissionTheorems.ExclusiveWokenOnce | kernel/sm/trmgr.cpp:483-533 | from its grant to its release the exclusive session's semaphore is raised exactly once |
| AdmissionTheorems.ParkedWokenOnce | kernel/sm/trmgr.cpp:490-514 | a parked session is woken exactly once, when it leaves the list |
| AdmissionTheorems.NobodyLeftParked | kernel/sm/trmgr.cpp:490-514 | with no exclusive session set, every parked session has its wake-up pending |
| AdmissionTheorems.LoweredByOwner | kernel/tr/tr_common_funcs.cpp:72-128 | a semaphore is lowered only by its own session, which then waits no longer |
| AdmissionTheorems.CheckpointAlone | kernel/sm/trmgr.cpp:118-243 | permits are conserved in every state, and while the checkpoint body runs no updater holds one |
| AdmissionTheorems.NoDeadlock | kernel/tr/tr_common_funcs.cpp:48-128 | while some session is in a transaction, some session or the checkpoint can move |
| AdmissionLiveness.TransactionsEnd | kernel/tr/tr_common_funcs.cpp:48-128 | without new begins the sessions make a bounded number of moves, and while one is inside a transaction some session can move, if need be after at most three moves of the checkpoint |
| AdmissionLiveness.CheckpointEnters | kernel/sm/trmgr.cpp:118-243 | with no updater between taking and returning its permit the checkpoint thread is never blocked and enters its body after a known number of moves |
| Sp.ParseEncode | kernel/common/sp.c:17-78 | a sent message is received as it was and nothing beyond it is consumed |
| Sp.EncodeParse | kernel/common/sp.c:17-47 | only the encoding of a message is received with a proper length |
| Sp.ReceivedIff | kernel/common/sp.c:17-47 | a stream gives a message of proper length if and only if it begins with the encoding of one |
| Sp.RecvMsg | kernel/common/sp.c:17-47 | on every stream and every fragmentation: the message, the too-long verdict after the header, or the socket error |
| Sp.SendMsg | kernel/common/sp.c:52-78 | exactly the encoding goes out on success, and a prefix of it on failure |
| Sp.SendError | kernel/common/sp.c:86-111 | the error message built in place and sent has the code and the text, truncated with three dots exactly if it does not fit |
| Sp.ErrorRoundTrip | driver/c/libsedna.c:22-31 | the client is shown that code and that text, whose length field is right and whose copied part is a prefix of the original; an error without a text is shown with the text of the one before |
| LongQuery.SendQuery | driver/c/libsedna.c:1179-1233 | the bytes sent are the wire form of the query: one message, or portions and an end message; a prefix of it on failure |
| LongQuery.JoinedCut | driver/c/libsedna.c:1179-1203 | the portions put together are the query |
| LongQuery.GetLongQuery | kernel/tr/socket_client.cpp:169-214 | on every stream: the text put together from the messages, the too-large verdict, the lost connection, the message too long, or the portion that announces more than its message; every store inside the growing buffer |
| LongQuery.AssembleRun | kernel/tr/socket_client.cpp:183-207 | for every run of portions: their text, or the too-large verdict exactly if it exceeds the limit; consumed through the end message and no further |
| LongQuery.GetQueryString | kernel/tr/socket_client.cpp:169-228 | the same from any message, and the text of a query of one message |
| LongQuery.ReadQuery | kernel/tr/socket_client.cpp:169-228 | what the client sent is what the server gets, for every query and every fragmentation |
| SessionAgreement.CleanAgree | driver/c/libsedna.c:233-270 | clearing the rest of an item keeps the agreement, and fails exactly if the server broke the item off |
| SessionAgreement.BeginAgree | driver/c/libsedna.c:107-146 | a begin keeps the agreement whether it is granted, fails, or comes inside a transaction |
| SessionAgreement.CommitAgree | driver/c/libsedna.c:148-187 | a commit keeps the agreement, and is reported exactly if the server committed |
| SessionAgreement.RollbackAgree | driver/c/libsedna.c:189-229 | a rollback keeps the agreement |
| SessionAgreement.ExecuteAgree | kernel/tr/tr.cpp:247-305 | a statement keeps the agreement, whatever it produces and wherever it fails |
| SessionAgreement.NextAgree | kernel/tr/tr.cpp:307-331 | a next that reaches the server gets no answer exactly if the statement is over there |
| SessionAgreement.ReadWithin | driver/c/libsedna.c:1291-1405 | a read within the item returns its next n bytes and leaves the others unread |
| SessionAgreement.ReadPast | driver/c/libsedna.c:1291-1405 | a read past the item returns what is left, or the error if the server broke the item off |
| SessionRuns.CallAgree | driver/c/libsedna.c:985-1289 | every call keeps the agreement and acknowledges commits exactly; it does not return if and only if it is a next that discards an item which also ends the result |
| SessionRuns.InvalidRead | driver/c/libsedna.c:1309-1316 | invalid arguments to getData are an error exactly inside a result, and break the agreement if and only if an item is still arriving |
| SessionRuns.ConnectionLost | driver/c/libsedna.c:245-252 | the connection is given up exactly by a call that must discard an item the server broke off; no reply is ever unexpected |
| SessionRuns.StatusAgrees | kernel/tr/tr.cpp:210-445 | in every run, with nothing in flight, the client reports an active transaction exactly when the server is inside one, and exactly the commits made have been reported |
| SessionRuns.HangReached | kernel/tr/tr.cpp:307-331 | a run of four calls from a fresh session that ends in the hang |
| SessionRuns.CarefulClientReturns | driver/c/libsedna.c:1238-1289 | in every run, a next that directly follows a statement or a read that came short returns |
| SessionRuns.ItemArrives | driver/c/libsedna.c:323-351 | after the first message of an item all of it can be read |
| SessionRuns.ReadsDeliver | driver/c/libsedna.c:1291-1405 | reads of any positive sizes give the item piece by piece, nothing lost and nothing twice, and enough of them give all of it |
| SessionRuns.ShortReadEnds | driver/c/libsedna.c:1291-1405 | a read shorter than asked, an empty one included, comes only when the reads so far are the whole item |
| SessionReports.CodeIsTold | driver/c/libsedna.c:985-1289 | every call but a read tells its caller what the server decided: begun, committed, rolled back, updated, answered, a further item, the end, or refused |
| SessionReports.CallTransaction | kernel/tr/tr.cpp:210-445 | a begin succeeds if and only if the server enters a transaction in this call; one ends if and only if by a commit, a rollback or a statement that fails |
| SessionReports.CallStatement | kernel/tr/tr.cpp:247-331 | a statement goes on on the server exactly as long as its items do |
| SessionReports.RunReports | driver/c/libsedna.c:985-1289 | the same for every call of every run |
| SessionReports.ReplyTold | driver/c/libsedna.c:107-229 | whatever message comes, success is reported exactly on the one that says so and the connection is given up exactly on one that has no place there |
| SessionReports.FetchTold | driver/c/libsedna.c:1334-1405 | the same for a read that has to receive |
| SessionReports.NothingToRead | driver/c/libsedna.c:148-229 | after a commit, a granted rollback or begin, or an update, there is no item to read or to go on to |
| SessionReports.ItemDelivered | kernel/tr/tr.cpp:247-331 | after a statement or a next for which the server produced an item, what there is to read is that item |
| SessionReports.RunDelivers | driver/c/libsedna.c:1238-1405 | in every run the reads after such a call hand over a prefix of that item, and all of it once a read has come short |
| SessionReports.EndIsEnd | driver/c/libsedna.c:1238-1289 | in every run without invalid reads the end of a result is reported only when the server has no more items of it |
| SessionReports.InvalidReadEnds | driver/c/libsedna.c:1309-1316 | an invalid read makes the client take the result for finished if and only if the statement is still running |
| SessionResults.ResultDelivered | driver/c/libsedna.c:1152-1405 | a loop of next calls, each followed by reads until one comes short, hands over every item of the result, complete and in order, and then reports the end |
| SednaDriver.SednaConnection.CleanSocket | driver/c/libsedna.c:233-270 | the loop discards through the first message that ends an item |
| SednaDriver.SednaConnection.ResultQueryHandler | driver/c/libsedna.c:275-388 | one message taken in, the flags and the local buffer as the session model says |
| SednaDriver.SednaConnection.HandleExecuteResult | driver/c/libsedna.c:555-602 | the reply to a statement, and its first item |
| SednaDriver.SednaConnection.SEbegin | driver/c/libsedna.c:985-1009 | does to the world what the session model's begin does |
| SednaDriver.SednaConnection.SErollback | driver/c/libsedna.c:1010-1033 | the same for rollback |
| SednaDriver.SednaConnection.SEcommit | driver/c/libsedna.c:1035-1059 | the same for commit |
| SednaDriver.SednaConnection.SEexecute | driver/c/libsedna.c:1152-1233 | the same for a statement of one message |
| SednaDriver.SednaConnection.SEnext | driver/c/libsedna.c:1238-1289 | the same for next |
| SednaDriver.SednaConnection.UseLocal | driver/c/libsedna.c:1319-1332 | the branch that writes at the start of the caller's buffer is taken only with nothing there yet |
| SednaDriver.SednaConnection.SEgetData | driver/c/libsedna.c:1291-1405 | the caller's buffer and the count returned are the bytes the session model delivers |
| HbGovernor.Governor.NewClient | kernel/gov/hb_funcs.cpp:408-416 | a new connection at its start, without a database |
| HbGovernor.Governor.CheckDbName | kernel/gov/hb_funcs.cpp:76-93 | free exactly if no connection has the database and it is running |
| HbGovernor.Governor.RetrieveAllFileNames | kernel/gov/hb_funcs.cpp:96-133 | the configuration file and the chain of archived log files |
| HbGovernor.Governor.ProcessStartRequest | kernel/gov/hb_funcs.cpp:156-232 | wait, go-ahead or refusal, and the storage manager told accordingly |
| HbGovernor.Governor.ProcessErrorHbp | kernel/gov/hb_funcs.cpp:137-152 | acts on the record served last, whichever connection failed: its storage manager told exactly if its status is past the start, the failed connection erased |
| HbGovernor.Governor.ProcessMessage | kernel/gov/hb_funcs.cpp:349-407 | the new tables, the record served last and the response for every request in every status and for a receive that fails; undefined exactly if such a failure finds the last record erased or none yet |
| HotBackupInvariant.LogsInOrder | kernel/sm/llsm/llhb.cpp:67-80 | asked for one by one the archived log files come newest first, each once, down to the oldest not in an earlier backup |
| HotBackupTheorems.StepInv | hbp/hb_main.cpp:130-245 | every step of a client, a transaction or a checkpoint, and every harmless loss, keeps client, governor and storage manager in step |
| HotBackupOrder.RequestOrder | kernel/gov/hb_funcs.cpp:156-345 | in every history, with clients that send anything and storage managers that do anything, the word of requests accepted on a connection is in order as far as its status says, and a connection ended regularly had Start+ Archive NextFile+ End, or Start+ End to stop a series |
| HotBackupOrder.InOrderIsPrefix | kernel/gov/hb_funcs.cpp:156-345 | a word in order is the beginning of a whole one |
| HotBackupOrder.RunMirrored | hbp/hb_main.cpp:130-245 | every run of the whole system is such a history |
| HotBackupTheorems.ErrorsAreRefusals | kernel/gov/hb_funcs.cpp:156-232 | the client's requests fail if and only if one is a start request with a duplicate or stopped database, in recovery, or an increment without a primary copy |
| HotBackupTheorems.AllFilesCopied | hbp/hb_main.cpp:195-245 | at the end request the client has the data file (unless an increment), the configuration and the archived logs newest first |
| HotBackupTheorems.DownAt | kernel/sm/llsm/llhb.cpp:73-80 | the list of log files has one entry per number, in descending order |
| HotBackupSeries.NoGap | kernel/sm/llsm/llhb.cpp:19-64 | in every run, an increment finished next after another backup of its database follows a base or an increment, and takes exactly the log files after that one's last |
| HotBackupSeries.SeriesHolds | kernel/sm/llsm/llhb.cpp:19-80 | in every run, a base backup and the increments since hold together exactly the log files from the first of the base to the last recorded, each once |
| HotBackupPoints.PointRecorded | kernel/sm/llsm/llhb.cpp:43-57 | in every run without losses of clients that start a series over, the log header of a database without a backup in progress has the point of the last one finished |
| HotBackupPoints.IncrementIff | kernel/sm/llsm/llhb.cpp:36-41 | in such a run an increment on a database that is ready is refused if and only if the last backup left no series and there is no checkpoint to wait for |
| HotBackupPoints.LossForgets | kernel/sm/llsm/llhb.cpp:19-28 | a harmless loss keeps the points if and only if the lost client was not starting the series over, or there was none |
| HotBackupProgress.StartAnswered | kernel/sm/hb_utils.cpp:30-63 | a start request that is not refused is told to wait if and only if a checkpoint is under way or was asked for, which is then started; otherwise it has its go-ahead |
| HotBackupProgress.CheckpointFirst | kernel/sm/hb_utils.cpp:38-54 | in every run a client that asked for a checkpoint has its go-ahead only after one has finished |
| HotBackupProgress.ArchiveComplete | kernel/sm/llsm/llhb.cpp:19-28 | archiving closes the file with the newest records: afterwards the current one is empty and the one before it is the last archived |
| HotBackupProgress.AskCounts | hbp/hb_main.cpp:195-245 | each request past the archive request brings the backup one closer to its end, and the last one finishes it |
| HotBackupProgress.BackupEnds | hbp/hb_main.cpp:195-245 | in every run a backup past its archive request needs exactly the remaining number of requests, whatever happens in between |
| HotBackupTheorems.Outcomes | hbp/hb_main.cpp:130-245 | a client that is through has exactly its files: data unless an increment, configuration, and the logs from the last archived down to the first there is, or the first not in an earlier backup; a refused one has none |
| HotBackupTheorems.CheckpointsOff | kernel/sm/hb_utils.cpp:30-63 | from the go-ahead to the end no checkpoint runs and none can start |
| HotBackupTheorems.OneBackupPerDatabase | kernel/gov/hb_funcs.cpp:76-93 | no database has two backups in progress |
| HotBackupTheorems.LostClient | kernel/gov/hb_funcs.cpp:137-152 | losing a client is defined if and only if the connection served last is still there, and gives the client's own checkpoints back if and only if it is that connection and was not told to wait |
| HotBackupTheorems.LossHitsOther | kernel/gov/hb_funcs.cpp:137-152 | another backup past its go-ahead is taken out of backup mode by the loss if and only if it was served last |
| HotBackupTheorems.LossTolerated | kernel/gov/hb_funcs.cpp:137-152 | after every run, a loss keeps client, governor and storage managers in step if and only if it is harmless |
| HotBackupLoss.LossIff | kernel/gov/hb_funcs.cpp:349-358 | the same for every state that satisfies the invariant |
| HotBackupTheorems.DroppedClient | kernel/sm/hb_utils.cpp:18-27 | a connection dropped by its own record gives the checkpoints back if and only if it was not told to wait |
| HotBackupWitness.OtherAbandoned | kernel/gov/hb_funcs.cpp:28-30 | a run with two clients past their go-aheads, where the loss of the first abandons the second's backup and leaves its own database in backup mode |
| HotBackupWitness.LeftDisabled | kernel/gov/hb_funcs.cpp:137-152 | a run with one client, lost while it waits, that leaves checkpoints disabled with no backup |
| HotBackupWitness.UndefinedAfterEnd | kernel/gov/hb_funcs.cpp:399-404 | in every run, after a backup ends the loss of any other client before the next request is undefined |
| GovTable.FreeAndLive | kernel/gov/gov_table.cpp:23-28 | free ids and live sessions add up to the number of ids |
| GovTable.InfoTable.constructor | kernel/gov/gov_table.cpp:23-28 | all ids free, both tables empty |
| GovTable.InfoTable.SessionFinished | kernel/tr/tr_functions.cpp:146-154 | the cell a session process sets when it is through |
| GovTable.InfoTable.GetId | kernel/gov/gov_table.cpp:59-73 | takes the last free id, or -1 |
| GovTable.InfoTable.WaitEraseSession | kernel/gov/gov_table.cpp:118-140 | the session is gone, its id free once, its cell zero; an unknown id changes nothing |
| GovTable.InfoTable.StopSession | kernel/gov/gov_table.cpp:144-151 | the same for a session told to stop |
| GovTable.InfoTable.InsertSession | kernel/gov/gov_table.cpp:156-215 | the exact condition of each return code, -2 if and only if 50 sessions are live, -3 never; a new session gets an id nobody has |
| GovTable.InfoTable.InsertDatabase | kernel/gov/gov_table.cpp:218-254 | the exact condition of each return code; a duplicate registration loses the database's cell |
| GovTable.InfoTable.EraseDatabase | kernel/gov/gov_table.cpp:257-272 | the database is unregistered, its first cell down, the other cells untouched |
| GovTable.InfoTable.PutAllFreeSids | kernel/gov/gov_table.cpp:275-285 | exactly the sessions that are through are taken off and their cells zero, the other cells untouched |
| GovTable.InfoTable.StopSessions | kernel/gov/gov_table.cpp:309-324 | exactly the sessions of other databases remain, and exactly the cells of the others are zeroed |
| GovTable.InfoTable.StopAllSessions | kernel/gov/gov_table.cpp:327-339 | no session remains, and exactly their cells are zeroed |
| GovTable.InfoTable.StopDatabase | kernel/gov/gov_table.cpp:342-382 | the database is unregistered and its first cell down, the others untouched; the table stays consistent if and only if no session was left on the database |
| GovTable.InfoTable.StopDatabases | kernel/gov/gov_table.cpp:399-411 | no database remains, the first cell of each is down and the others untouched, and the table stays consistent |
| GovTable.InfoTable.CheckStopGov | kernel/gov/gov_table.cpp:414-423 | a stopping governor ends with both tables empty, the cells of what was there cleared; another changes nothing |
| GovTable.InfoTable.CheckStopDatabases | kernel/gov/gov_table.cpp:426-443 | exactly the marked databases go, with exactly their sessions and cells, and the table stays consistent; the result says whether there were any, and the failure that one was not registered |
| GovTable.InfoTable.GetRc | kernel/gov/gov_table.cpp:452-476 | never inconsistent; every registered database with its exact number of sessions |
| GovTable.CountsAddUp | kernel/gov/gov_table.cpp:452-476 | the counts of the report add up to the number of sessions |
| Rc.SendRuntimeConfig | kernel/gov/listener.cpp:572-621 | the whole report exactly if it fits one message, and otherwise the overflow mark alone; never past the buffer |
| Rc.ParseRc | kernel/gov/rc.cpp:51-106 | the decoder's verdict on every message, entry by entry, with reading past the buffer told apart |
| Rc.DecodeReport | kernel/gov/rc.cpp:64-86 | it gives back exactly the report the governor wrote, or that it was too large, and never reads past the buffer then |
| Rc.Shown | kernel/gov/listener.cpp:572-621 | what is shown is the governor's table: every registered database with its exact number of sessions, unless the report does not fit one message |
| Rc.EntriesMap | kernel/gov/listener.cpp:594-616 | listing the databases in any order loses nothing of the report |
| HashTable.InsertRefines | kernel/common/se_hash.h:222-245 | inserting a new key is map update |
| HashTable.RemoveRefines | kernel/common/se_hash.h:312-378 | find_remove is map removal |
| HashTable.ReplaceRefines | kernel/common/se_hash.h:385-416 | replacing a present key is map update |
| HashTable.AbsentKey | kernel/common/se_hash.h:312-416 | removing or replacing an absent key changes nothing |
| HashTable.OpsRefine | kernel/common/se_hash.h:222-416 | after every sequence of inserts of new keys, removals and replacements, lookups answer as the finite map does |
| HashTable.IterationRefines | kernel/common/se_hash.h:71-163 | the iteration order lists every pair of the map exactly once and nothing else |
| SeHash.Hash.constructor | kernel/common/se_hash.h:176-190 | an empty table |
| SeHash.Hash.Insert | kernel/common/se_hash.h:222-245 | the bucket gains the entry in its place of the chain, the other buckets are untouched, the count goes up by one |
| SeHash.Hash.Find | kernel/common/se_hash.h:247-276 | the value of the first entry with the key in its bucket |
| SeHash.Hash.FindRemove | kernel/common/se_hash.h:312-378 | the value found, and the bucket without that entry, chain and first cell relinked |
| SeHash.Hash.Replace | kernel/common/se_hash.h:385-416 | the value found, and the bucket with the new value in its place |
| SeHash.Hash.Clear | kernel/common/se_hash.h:192-213 | an empty table again |
| SeHash.Hash.Begin | kernel/common/se_hash.h:100-104 | an iterator at the first entry |
| SeHash.Hash.Next | kernel/common/se_hash.h:71-95 | an iterator one entry further in the iteration order |
| SeHash.Hash.Walk | kernel/common/se_hash.h:71-163 | from begin to end the iterator visits the iteration order, entry by entry |
| Bits.TemplateMask | kernel/common/se_hash.h:178-179 | the computed mask is a block of ones over a block of zeros |
| Bits.BucketIndexIs | kernel/common/se_hash.h:167-179 | the bucket index is (hashkey div 2^right) mod 2^middle |
| OffsList.OffsList.constructor | kernel/common/offs_list.h:81-86 | an empty queue |
| OffsList.OffsList.Size | kernel/common/offs_list.h:102-105 | the length of the queue |
| OffsList.OffsList.Find | kernel/common/offs_list.h:154-157 | the hash index answers membership in the queue |
| OffsList.OffsList.Push | kernel/common/offs_list.h:109-130 | the value enters at the front; links, index and counter still describe one queue |
| OffsList.OffsList.Pop | kernel/common/offs_list.h:132-153 | the oldest value leaves; empty queue reported |
| OffsList.OffsList.FindRemove | kernel/common/offs_list.h:159-192 | the value leaves from wherever it is, the order of the others kept |
| NearlySorted.CulpritFound | kernel/common/utils.cpp:55-75 | deleting the element the code picks leaves a sorted array whenever deleting some element does |
| NearlySorted.ElimDisturb | kernel/common/utils.cpp:55-103 | always a permutation; sorted whenever one element was out of place; a sorted array untouched |
| NearlySorted.FindSlot | kernel/common/utils.cpp:105-139 | the binary search ends, at the place where the element belongs, and past the array exactly if it does not fit |
| NearlySorted.ElimDisturb2 | kernel/common/utils.cpp:105-152 | a sorted permutation with nothing else touched if and only if the element fits |
| NearlySorted.RepairsAgree | kernel/common/utils.cpp:55-152 | both repairs leave the same ranks in the same places |
| ExportScript.StrBuf.AddData | export/se_exp_common.c:12-27 | the text up to its first zero is appended in the doubling buffer and terminated |
| ExportScript.QBuf.Add | export/se_exp_common.c:33-55 | the statement is appended and the list terminated |
| ExportScript.ReadQuery | export/se_exp_common.c:73-89 | each portion of the file up to its first zero, whatever the file's length against the portion size |
| ExportScript.ReadTextIff | export/se_exp_common.c:73-89 | the file comes in whole if and only if it has no zero byte |
| ExportScript.SplitQuery | export/se_exp_common.c:58-68 | the list gains the pieces of the text, cut in place |
| ExportScript.QBuf.WriteScript | export/se_exp_common.c:247-265 | the script is the list joined by the delimiter |
| ExportScript.JoinSplit | export/se_exp_common.c:58-68 | joining the pieces of any text gives the text |
| ExportScript.RoundTripIff | export/se_exp_common.c:58-68 | a list comes back from its script if and only if it is not empty and no statement contains the delimiter |
| ExportScript.WriteReadSplit | export/se_exp_common.c:247-265 | what a list becomes when it is written, read back and split |
| ExportScript.ScriptIff | export/se_exp_common.c:58-89 | it is the same list if and only if it is not empty and no statement contains the delimiter |
| Xptr.IncLinear | kernel/common/xptr.cpp:19-35 | inc_offset moves the linear address by exactly n if and only if the layer number does not overflow |
| Xptr.DecLinear | kernel/common/xptr.cpp:37-53 | dec_offset moves it back by exactly n under the same condition |
| Xptr.Undo | kernel/common/xptr.cpp:19-53 | each undoes the other |
| Xptr.Compose | kernel/common/xptr.cpp:19-53 | two moves are one |
| Xptr.LinearOrder | kernel/common/xptr.h:211-214 | the order of pointers is the order of their addresses |
| Xptr.CompareOrder | kernel/common/xptr.h:235-251 | xptr_compare is a total order modulo equality, with null last |
| Xptr.CompareLinear | kernel/common/xptr.h:235-251 | it agrees with the addresses on all pointers but null |
| Xptr.Pointer.IncOffset | kernel/common/xptr.cpp:19-35 | the fields after a forward move, offset below the layer size |
| Xptr.Pointer.DecOffset | kernel/common/xptr.cpp:37-53 | the fields after a backward move |
| Xptr.Pointer.Add | kernel/common/xptr.h:122-143 | a move by a signed distance |

## Left out

- Operating system calls (semaphore creation, shared memory, process creation and waiting, `select`): abstracted to counters, streams and atomic steps under sequential consistency.
- Timeouts on semaphores of the rendezvous: the waits are modelled as unbounded.
- Lock manager, buffer manager, versioning, the logical log's storage and the query executor: opaque steps or oracles.
- The wait of a committing transaction for the checkpoint it asked for: the step is taken as always enabled, since its end depends on the storage layer.
- Snapshot advancement in the checkpoint thread: its liveness depends on code that is not modelled.
- Forced stop, crash and socket-failure paths of the session, autocommit mode, bulk loading, debug messages, authentication and session options: they need separate, weaker statements.
- Long queries sent outside a transaction: the server answers every portion with its own error, so only statements of one message take part in the agreement.
- The server's command loops appear as one function from a command to the next position and the replies, not as nested loops.
- SednaDriver.SednaConnection.SEgetData: a null buffer is not modelled separately from a negative count, because both take the same branch.
- SednaDriver.SednaConnection.SEexecute: the text of the statement is not carried through the session model, because it is the subject of LongQuery.
- LongQuery.GetLongQuery: a portion that announces more than its message is an outcome of its own, because what the code copies then lies outside the message.
- Rc.ParseRc: reading past the message is an outcome of its own, because what lies there is not the decoder's.
- Hot backup: storage managers that stop during a backup, replies that cannot be sent, file-system errors of the client and file names too long for a message are not part of the runs.
- HotBackupTheorems.StepInv: a client is lost only where that does no damage, because the invariant does not survive the other losses, as HotBackupLoss.LossIff states; and an empty current log file is assumed to have a predecessor in the chain at the start, which holds once anything was logged.
- GovTable.InfoTable.InsertSession: process handles are not modelled, because opening and closing them changes nothing in the table.
- The table of child process ids of the governor: it is independent of the two tables modelled.
- SeHash.Hash.Find: keys are compared with decidable equality, so xptr keys of layer 0, which the source's == identifies, are excluded.
- OffsList.OffsList.constructor: the clear method is not modelled, because its loop never runs and only leaks the elements.
- Xptr: `addr2xptr`, page masks and logical integers are not modelled, because they would only add easy members.
- Argument tables, terminals, configuration parsing, path building, logging, unit conversions, `bit_set`, `internstr` and the bundled pcre library: easy members or input and output.
