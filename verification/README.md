# Rommel: a verified model of the daemon and its browser client

Rommel's daemon (Go) and its browser client (TypeScript) exchange JSON envelopes over one WebSocket. This
project models the parts of both whose behaviour depends on interleaving, counting or text, and proves what
they keep in every run:

- the write pump of a connection and its producers (`PumpMachine`, `PumpObject`, `Panics`, `Bursts`, `Delivery`), the
  read loop (`ReadLoop`), and the PTY byte stream from the reads of the output loop to the bytes the client decodes
  (`PtyOutput`, `PtyStream`, `Base64`, `Subsequences`);
- PTY sessions: cap, teardown, exit and disconnect (`PtySessions`), registry and environment (`PtyRegistry`);
- the path sandbox (`Paths`) and `fs.watch` with its reference counts (`WatchModel`, `WatchHandler`);
- the client's connection (`ClientMachine`, `ClientLaws`, `ClientObject`);
- the parser of `git status` (`Text`, `GitStatus`, `GitQuotes`, `GitLaws`) and the funnel (`Funnel`).

Concurrency is modelled by machines whose steps are the atomic actions of the source (one `select`, one critical
section, one callback); a law about reachable states holds for every interleaving. Objects the source updates in
place are classes whose methods are proved to take the steps of these machines. `dafny verify dfyconfig.toml`
checks everything.

## Where code and documentation disagree

The model follows the code. The statements named here say what it does instead of what is promised.

- `pump.go` and `pty/handler.go` say that lost output is reported by `pty.output_dropped`. The loop counts only
  publishes that were refused; evictions, which are the loss a flood causes, are never reported. What the client is
  told is the whole loss exactly if no refusal was left unreported at the end, every accepted report was written, and
  no output was evicted, drained or lost to a failed write (`PtyStream.ClientToldExactly`).
- `pump.go` says that frames given to `Send` must reach the client; `Publish` may evict them
  (`Bursts.AnswerCanBeEvicted`).
- A test expects a non-recursive watch to report the entries of a directory
  (sandbox-daemon/internal/ws/server_test.go:1173); the filter passes only the exact path
  (`WatchHandler.NonRecursiveMissesEntries`).
- `OnDisconnect` of the fs handler promises to stop watching paths without subscribers; it does so for plain
  subscriptions but not for subdirectories and repeated watches (`WatchModel.NothingLeftExactly` says exactly when).
- `daemon.ts` says that `rpc` rejects if the socket dies before a response arrives; an ordinary drop rejects only
  when the attempts are exhausted (`ClientLaws.LossRejectsExactly`), an authentication close without a refresh
  callback never does (`ClientLaws.StrandedForGood`), and a refresh leaves the calls of the closed socket in flight
  (`ClientLaws.RefreshKeepsCalls`).
- Recursive watches are meant to cover directories created later; one that is deleted and created again is not watched
  any more (`WatchModel.RecreatedNeverWatched`).
- git prints paths with blanks or unusual characters in quotes; the parser does not take them off
  (`GitLaws.LineComesBackExactly`).
- The git parser is meant to report how far a branch is ahead and behind; it always reports 0
  (`GitLaws.CountsAreAlwaysZero`).

## Model

| member | source | states |
|---|---|---|
| PumpMachine.Conservation | sandbox-daemon/internal/ws/pump.go:61-138 | in every panic-free interleaving of Send, the four selects of Publish, the loop, a write error and close, each submitted frame is in exactly one place and no other frame is anywhere; the buffer holds at most 256; at most one frame is lost to a failed write |
| PumpMachine.QueueIsLatestPart | sandbox-daemon/internal/ws/pump.go:61-130 | what was received from the channel followed by what waits in it is the log of what was put in, so the queue is the most recent part of it |
| PumpMachine.WrittenKeepsOrder | sandbox-daemon/internal/ws/pump.go:61-77 | the written frames are an order-keeping selection of the enqueued ones |
| PumpMachine.WrittenKeepsSubmissionOrder | sandbox-daemon/internal/ws/pump.go:61-130 | one producer's frames reach the socket in the order it submitted them |
| PumpMachine.EvictsAtMostOnce | sandbox-daemon/internal/ws/pump.go:108-115 | no call of Publish evicts two frames |
| PumpMachine.EvictsOldest | sandbox-daemon/internal/ws/pump.go:108-115 | an eviction takes the oldest frame still in the buffer, whoever it belongs to |
| PumpMachine.AnswerIsExact | sandbox-daemon/internal/ws/pump.go:81-89 | once a call has returned, its frame was put in exactly if it was not refused |
| PumpMachine.AnswerTells | sandbox-daemon/internal/ws/pump.go:94-130 | the answer of Publish, true where its select sends and false where it gives up, tells for ever after whether its frame was put in or handed to dropFn by its own call, never both |
| Panics.CanPanicExactly | sandbox-daemon/internal/ws/pump.go:82-138 | with no further Send a run can still panic exactly if the pump is open, or closing while some call is past the first select of Publish or in Send |
| Panics.SendCanAlwaysPanic | sandbox-daemon/internal/ws/pump.go:81-84 | a Send makes a panic possible in every state, a long closed pump included |
| PumpMachine.QuietCloseNeverPanics | sandbox-daemon/internal/ws/pump.go:94-138 | if nobody is in the middle of a call when close begins, no later Publish can panic and nothing more is put in |
| PumpMachine.UninterruptedPublish | sandbox-daemon/internal/ws/pump.go:94-130 | what the four selects of Publish come to when nobody interferes |
| PumpObject.WritePump.Publish | sandbox-daemon/internal/ws/pump.go:94-130 | an open pump accepts every frame, at the price of the oldest one of a full buffer; a closed pump hands the new frame to dropFn |
| PumpObject.WritePump.Send | sandbox-daemon/internal/ws/pump.go:81-89 | Send enqueues, blocks on a full buffer, and on a closed pump either hands its frame to dropFn or panics |
| PumpObject.WritePump.Loop | sandbox-daemon/internal/ws/pump.go:61-77 | writes the buffered frames oldest first, then waits on an open pump and ends on a closed one; the first failing write closes the pump, that frame is lost, the later ones go to dropFn in order |
| PumpObject.WritePump.Drain | sandbox-daemon/internal/ws/pump.go:69-73 | after a write error everything that is left goes to dropFn, in order |
| PumpObject.WritePump.Close | sandbox-daemon/internal/ws/pump.go:133-138 | is idempotent and moves no frame |
| Bursts.BurstEvictsOldest | sandbox-daemon/internal/ws/pump.go:94-130 | a burst of n publishes on an open pump, stalled in a write or not, is accepted in full, keeps the last 256 of old and new frames and evicts all older ones |
| Bursts.BurstLosesNothingExactly | sandbox-daemon/internal/ws/pump.go:94-130 | it evicts nothing exactly if the waiting frames and the burst fit into the buffer together, and otherwise exactly the excess |
| Bursts.AnswerCanBeEvicted | sandbox-daemon/internal/ws/pump.go:79-115 | an answer that Send has put in the buffer of a stalled connection is evicted by a burst of 256 events: Send does not make sure that it reaches the client |
| Delivery.ReceivedInOrder | sandbox-daemon/internal/ws/pump.go:61-130 | the bodies the socket sees of one producer are a subsequence of what it submitted |
| Delivery.ReceivedAll | sandbox-daemon/internal/ws/pump.go:61-130 | they are all of it if and only if nothing of that producer was refused, evicted, drained, lost or is still under way, and if and only if every frame was written |
| ReadLoop.Dispatch | sandbox-daemon/internal/ws/server.go:204-226 | an answer echoes type and id; there is none exactly for the success of a fire-and-forget primitive |
| ReadLoop.RunConn | sandbox-daemon/internal/ws/server.go:159-201 | the answers handed to Send answer the messages in order, one each, except those successes; with the right error for every message no handler sees |
| ReadLoop.AnswersKeepRequestOrder | sandbox-daemon/internal/ws/server.go:159-226 | through the pump: the answers that get written answer different messages, in message order |
| PtyOutput.PublishChunk | sandbox-daemon/internal/pty/handler.go:314-337 | one iteration keeps the account of refused outputs and publishes the chunk |
| PtyOutput.OutputLoop | sandbox-daemon/internal/pty/handler.go:309-350 | the published outputs decode to the chunks read, in order; at every publish the refused outputs are the accepted reports plus the pending counter, and an output goes out with refusals pending only behind a report that was itself refused |
| PtyOutput.NeverRefusedNeverReports | sandbox-daemon/internal/pty/handler.go:315-326 | a loop that is never refused reports nothing |
| PtyStream.StreamKeepsOrder | sandbox-daemon/internal/pty/handler.go:309-350 | in every panic-free run the bytes the client decodes are the concatenation of some of the chunks read, in order |
| PtyStream.StreamIsWhole | sandbox-daemon/internal/pty/handler.go:309-350 | they are the whole stream if and only if every output frame was written |
| PtyStream.StreamIsWholeWhenAllThrough | sandbox-daemon/internal/pty/handler.go:309-350 | so they are when no frame of the session was refused, evicted, drained or lost |
| PtyStream.EvictionGoesUnreported | sandbox-daemon/internal/ws/pump.go:26-30 | however long the log, a run accepts all of it, evicts all but 256 frames, and the loop reports no loss |
| PtyStream.ReportsCountRefusedFrames | sandbox-daemon/internal/pty/handler.go:333-335 | the refusals the loop counts are exactly its frames in the pump's refused log |
| PtyStream.ReportsCoverLossExactly | sandbox-daemon/internal/pty/handler.go:307-337 | once nothing of a session is under way, the refusals the loop has counted (accepted reports plus pending counter) fall short of the outputs never written by exactly those evicted, drained or lost to a failed write |
| PtyStream.ClientToldExactly | sandbox-daemon/internal/pty/handler.go:307-337 | the client has been told of exactly the outputs it did not get if and only if no refusal is left unreported, every accepted report was written, and no output was evicted, drained or lost to a failed write |
| PtyStream.LastRefusalUntold | sandbox-daemon/internal/pty/handler.go:338-348 | a run in which the last output of a session is refused and the client is told of nothing |
| Base64.DecodeEncode | frontend/src/lib/pty.ts:81-96 | decoding undoes encoding, for every byte sequence (section 4 of RFC 4648) |
| Base64.EncodeInjective | frontend/src/lib/pty.ts:81-89 | distinct byte sequences have distinct encodings |
| Base64.EncodeDecode | frontend/src/lib/pty.ts:91-96 | among the strings that decode, encoding gives the string back exactly if its leftover bits are zero |
| Base64.EncodedLength | sandbox-daemon/internal/pty/handler.go:328-331 | n bytes take 4 * ceil(n / 3) characters |
| Base64.ReadFitsFrame | sandbox-daemon/internal/pty/handler.go:56 | a read of 4 KiB takes at most 5464 characters |
| Base64.Groups | frontend/src/lib/pty.ts:81-89 | four digits spell the number three bytes spell; a short last group is filled with zero bits and padding |
| Base64.BytesToBase64 | frontend/src/lib/pty.ts:81-89 | the chunks of 0x8000 bytes leave no trace in the result, and btoa never throws |
| Base64.Base64ToBytes | frontend/src/lib/pty.ts:91-96 | fills a new array with the bytes atob decodes, or fails exactly when atob does |
| Base64.ForgivingExtends | frontend/src/lib/pty.ts:92 | atob, the forgiving-base64 decode of the Infra Standard, agrees with the strict decoder wherever that succeeds, and beyond that takes exactly the texts that are digits, blanks and trailing padding aside, and not one too many |
| Base64.RoundTrip | frontend/src/lib/pty.ts:81-96 | base64ToBytes(bytesToBase64(b)) is b |
| Paths.ResolveExactly | sandbox-daemon/internal/fs/handler.go:566-586 | resolve accepts exactly the non-empty relative paths whose walk from the root ends at or below it; its result is canonical and is the key Join(Root, path) computed again at disconnect and event time |
| Paths.RelTellsUnder | sandbox-daemon/internal/fs/handler.go:581-584 | the test on the result of Rel fails exactly for targets that are not component-wise below the base |
| Paths.LeadsOutExactly | sandbox-daemon/internal/fs/handler.go:582 | on strings that test asks whether the first component is ".."; a name such as "..x" passes |
| Paths.CleanIdempotent | sandbox-daemon/internal/fs/handler.go:573-574 | the second Clean changes nothing |
| Paths.PathInjective | sandbox-daemon/internal/fs/handler.go:566-586 | canonical paths and places below "/" correspond one to one |
| Paths.JoinWalks | sandbox-daemon/internal/fs/handler.go:573 | joining is walking the components of the second path from the place of the first |
| Paths.RelRoundTrip | sandbox-daemon/internal/fs/handler.go:752-754 | the workspace-relative path reported for a place below the root resolves back to it |
| Paths.ResolveCwdAgrees | sandbox-daemon/internal/pty/handler.go:515-537 | the lexical part of resolveCwd is resolve, except that the empty path means the root; its results are directories below the root |
| Paths.TextuallyUnderExactly | sandbox-daemon/internal/fs/handler.go:712 | the string-prefix test agrees with Rel for every watched place but "/" |
| Paths.CardPathsDistinct | sandbox-daemon/internal/funnel/handler.go:180-181 | Join(Root, stage, name) is injective in stage and name and stays below the funnel root |
| WatchModel.WellFormedKept | sandbox-daemon/internal/fs/handler.go:441-522 | every step keeps: counts are positive, fsnotify watches nothing that is not counted, entries exist only while the watcher runs, resolve, and are at most 32 per connection |
| WatchModel.ObservedExactly | sandbox-daemon/internal/fs/handler.go:616-649 | in every run, with paths deleted at any time, fsnotify watches a path if and only if it has not vanished since its count last rose from nothing |
| WatchModel.NothingVanished | sandbox-daemon/internal/fs/handler.go:616-649 | as long as nothing is deleted it watches exactly what is counted |
| WatchModel.WatchCoversExactly | sandbox-daemon/internal/fs/handler.go:474-486 | accepting a subscription keeps the counts sufficient exactly if it adds one for its own path, repeats a subscription, or finds a count to spare |
| WatchModel.RunIsSound | sandbox-daemon/internal/fs/handler.go:441-522 | in every run whose recursive watches name existing directories, each count is adds minus removes without truncation and covers the live subscriptions to its path |
| WatchModel.DisconnectSparesOthers | sandbox-daemon/internal/fs/handler.go:500-522 | then a disconnect never un-watches a path of another connection: its count stays, and fsnotify watches it if it did before |
| WatchModel.ExactKept | sandbox-daemon/internal/fs/handler.go:616-649 | a step keeps the counts equal to the numbers of live subscriptions if and only if it is tidy: a new subscription that adds one count to its own path, or no count at all |
| WatchModel.NothingLeftExactly | sandbox-daemon/internal/fs/handler.go:441-522 | in every run whose recursive watches name existing directories: the counts are the numbers of live subscriptions, and nothing stays counted when the last one goes, if and only if the run was stopped or every step was tidy; and nothing stays watched, if nothing was deleted |
| WatchModel.PlainRunIsExact | sandbox-daemon/internal/fs/handler.go:441-522 | in particular in every run whose subscriptions are new to their connection and not recursive |
| WatchModel.StaysCountedExactly | sandbox-daemon/internal/fs/handler.go:616-649 | path by path: a path nobody is subscribed to is still counted if and only if some step added a count to it that was not that of a new subscription |
| WatchModel.CountedForEver | sandbox-daemon/internal/fs/handler.go:639-649 | such a path stays counted in every later state until Stop, and watched exactly until it is deleted |
| WatchModel.SubdirectoryStays | sandbox-daemon/internal/fs/handler.go:517-520 | so does every other directory that a recursive watch walks |
| WatchModel.RecreatedNeverWatched | sandbox-daemon/internal/fs/handler.go:616-624 | a directory added inside a recursive watch that is deleted and created again is never watched again, whoever is subscribed |
| WatchModel.RewatchedStays | sandbox-daemon/internal/fs/handler.go:475-486 | and every path that one connection watches twice |
| WatchModel.SubdirectoryLeaks | sandbox-daemon/internal/fs/handler.go:517-520 | the shortest such run: a recursive watch and a disconnect, after which a subdirectory is watched and nobody is subscribed |
| WatchModel.NonDirectoryLosesWatch | sandbox-daemon/internal/fs/handler.go:626-637 | a recursive watch of something that is no directory adds no count, and its disconnect takes away another connection's watch |
| WatchModel.DroppedHaveNoEntries | sandbox-daemon/internal/fs/handler.go:727-729 | when no connection watches after its disconnect, the connDropped check never makes a difference |
| WatchHandler.Handler.AddPathLocked | sandbox-daemon/internal/fs/handler.go:616-624 | one more count, and a request to fsnotify with the first |
| WatchHandler.Handler.AddRecursiveLocked | sandbox-daemon/internal/fs/handler.go:626-637 | one more count for every directory of the walk |
| WatchHandler.Handler.RemovePathLocked | sandbox-daemon/internal/fs/handler.go:639-649 | one count less; with the last one fsnotify forgets the path; nothing without a watcher |
| WatchHandler.Handler.Watch | sandbox-daemon/internal/fs/handler.go:441-494 | is the step of the model, and answers with the first of its three errors or with success |
| WatchHandler.Handler.OnDisconnect | sandbox-daemon/internal/fs/handler.go:500-522 | in whatever order the entries are visited, every count goes down by the number of the connection's entries there, not below zero |
| WatchHandler.Handler.Stop | sandbox-daemon/internal/fs/handler.go:541-561 | is idempotent and forgets all entries and counts |
| WatchHandler.Handler.Forget | sandbox-daemon/internal/fs/handler.go:620 | fsnotify forgets a deleted path; the counts of the handler stay |
| WatchHandler.Outcome | sandbox-daemon/internal/fs/handler.go:447-472 | a subscription is accepted exactly if the path resolves, the connection has room and the watcher runs |
| WatchHandler.AfterWatchCases | sandbox-daemon/internal/fs/handler.go:447-486 | what each of the four outcomes leaves; a refused watch still lists its connection |
| WatchHandler.PassesExactly | sandbox-daemon/internal/fs/handler.go:731-744 | on canonical paths the string tests of the event loop decide exactly: below a recursive watch, at a non-recursive one |
| WatchHandler.NonRecursiveMissesEntries | sandbox-daemon/internal/fs/handler.go:739-744 | a non-recursive watch of a directory hears nothing of the entries of the directory |
| WatchHandler.WirePathResolves | sandbox-daemon/internal/fs/handler.go:751-754 | the path sent with an event resolves to the place of the event |
| WatchHandler.Handler.Deliver | sandbox-daemon/internal/fs/handler.go:726-765 | publishes an event exactly once for each subscription it concerns of each connection not dropped, and to nobody else |
| WatchHandler.Handler.AutoAdd | sandbox-daemon/internal/fs/handler.go:704-720 | a new directory is added once for every connection with a recursive watch above it |
| WatchHandler.Handler.HandleFsEvent | sandbox-daemon/internal/fs/handler.go:681-766 | both, for the event kinds that are not ignored |
| PtySessions.InvKept | sandbox-daemon/internal/pty/handler.go:101-411 | every step of the connection threads, wait loops and grace timers keeps the invariant behind the next five rows |
| PtySessions.TeardownIsSafe | sandbox-daemon/internal/pty/handler.go:354-411 | in every run a session gets at most one SIGTERM and only after it at most one SIGKILL, which it is spared only if it has ended; one pty.exit at most, after the process ended and the session left the registry, before done closes |
| PtySessions.CapIsNeverExceeded | sandbox-daemon/internal/pty/handler.go:110-147 | no connection ever has more than 4 registered sessions, although count and registration are separate critical sections |
| PtySessions.GoneMeansClosing | sandbox-daemon/internal/pty/handler.go:296-304 | when a connection's cleanup is over, every session it still has registered is being closed |
| PtySessions.NoneAddedAfterDisconnect | sandbox-daemon/internal/ws/server.go:144-155 | no session is registered for a connection that leaves or has left, over whole runs |
| PtySessions.LeavingSparesOthers | sandbox-daemon/internal/pty/handler.go:296-304 | no step of a leaving connection touches a session of another one |
| PtySessions.CloseTearsDown | sandbox-daemon/internal/pty/handler.go:281-290 | once a Close is answered the session it named is being closed if it was registered; a Close of any other id does nothing |
| PtySessions.ClaimedByWhom | sandbox-daemon/internal/pty/handler.go:383-386 | the teardown of a session begins in a Close of it, by whatever connection, or in the cleanup of its own |
| PtySessions.NeverStuck | sandbox-daemon/internal/pty/handler.go:281-304 | a connection's thread always has a next step until it is gone |
| PtySessions.DueTillSent | sandbox-daemon/internal/pty/handler.go:388-405 | nothing cancels a signal once it is due: neither the end of the process, nor that it was waited for, nor that done closed |
| PtySessions.LateSignals | sandbox-daemon/internal/pty/handler.go:388-405 | so either signal can go to a process group whose process has been waited for, at every stage of its wait loop |
| PtyRegistry.ShowsKept | sandbox-daemon/internal/pty/handler.go:415-425 | the registry map follows every step of the session machine |
| PtyRegistry.CountNeverExceedsCap | sandbox-daemon/internal/pty/handler.go:110-147 | in every run the count that guards the cap is that of the machine and at most 4 |
| PtyRegistry.Registry.Register | sandbox-daemon/internal/pty/handler.go:415-419 | the session joins those of its connection and leaves those of any other; all else stays |
| PtyRegistry.Registry.Unregister | sandbox-daemon/internal/pty/handler.go:421-425 | the session leaves those of its connection; all else stays |
| PtyRegistry.Registry.Lookup | sandbox-daemon/internal/pty/handler.go:427-431 | finds a session exactly if it is registered |
| PtyRegistry.Registry.CountByConn | sandbox-daemon/internal/pty/handler.go:433-443 | counts the connection's sessions |
| PtyRegistry.Registry.SessionsByConn | sandbox-daemon/internal/pty/handler.go:453-463 | lists the connection's sessions, each once |
| PtyRegistry.MergeEnv | sandbox-daemon/internal/pty/handler.go:485-510 | whatever the map order, a process finds every request variable and otherwise the daemon's, exactly if no requested name is empty or contains "=" |
| ClientLaws.SettledOnce | frontend/src/lib/daemon.ts:119-172 | in every interleaving each rpc() is in flight or settled once; a closed connection has nothing in flight |
| ClientLaws.SettledOnlyBy | frontend/src/lib/daemon.ts:193-226 | a step settles a call only for a frame with its id, a rejection of all calls at once, or its own failed send; settled calls keep their outcome |
| ClientLaws.CausesSettle | frontend/src/lib/daemon.ts:281-307 | and each of these causes does settle |
| ClientLaws.SettledForGood | frontend/src/lib/daemon.ts:281-307 | over whole runs a settled call never settles again |
| ClientLaws.ReconnectBound | frontend/src/lib/daemon.ts:309-326 | between two resets at most 5 timers are armed, the k-th for 250 * 2^k ms, together at most 7750 ms |
| ClientLaws.LossRejectsExactly | frontend/src/lib/daemon.ts:266-278 | a loss arms the next timer and leaves the calls in flight alone exactly while attempts are left; the next loss fails the connection and rejects every call |
| ClientLaws.RefreshKeepsCalls | frontend/src/lib/daemon.ts:345-356 | a refresh that answers leaves every call in flight, although the socket it was sent on is closed |
| ClientLaws.StepKeepsSingleExactly | frontend/src/lib/daemon.ts:228-279 | from at most one socket or reconnect timer any step leads to at most one if and only if it does not start an attempt, by an accepted connect() or an answered refresh, while there is one |
| ClientLaws.SingleRunExactly | frontend/src/lib/daemon.ts:228-364 | a run has at most one at every moment if and only if each of its starts comes when there is none |
| ClientLaws.SingleAttempt | frontend/src/lib/daemon.ts:98-114 | in particular in every run with one connect() and no refresh callback |
| ClientLaws.FinalExactly | frontend/src/lib/daemon.ts:193-203 | a closed connection stays closed until the next connect() if and only if no refresh is under way and no socket is still connecting |
| ClientLaws.CloseIsFinal | frontend/src/lib/daemon.ts:193-203 | with one connect() and no refresh it does: no socket is opened, the status stays closed |
| ClientLaws.StrandsExactly | frontend/src/lib/daemon.ts:266-278 | a 1008 or 4401 close leaves the status ready with no socket and no timer if and only if the connection is ready, not closed, cannot refresh and has no other attempt under way |
| ClientLaws.AuthCloseStrands | frontend/src/lib/daemon.ts:272-275 | so it does in every run with one connect() and no refresh callback |
| ClientLaws.StrandedForGood | frontend/src/lib/daemon.ts:341-342 | until close(), such a connection rejects every new call and never settles the old ones |
| ClientLaws.StrandedWithCall | frontend/src/lib/daemon.ts:272-275 | a run that brings it about with a call in flight |
| ClientLaws.StaleTimerOpensSecondSocket | frontend/src/lib/daemon.ts:322-325 | a reconnect timer outlives close(): after a second connect() there are two sockets |
| ClientLaws.StepKeepsBusyExactly | frontend/src/lib/daemon.ts:266-278 | while not closed and connecting, ready or reconnecting, a socket, a reconnect timer or a refresh is under way; every step keeps that except exactly an authentication close without refresh callback that takes away the last one |
| ClientLaws.BusyRunExactly | frontend/src/lib/daemon.ts:228-364 | so in every run it holds at every moment if and only if no such close came |
| ClientLaws.CloseForgetsExactly | frontend/src/lib/daemon.ts:266-268 | a close event makes the connection forget an open socket if and only if it has one and the event is of another |
| ClientLaws.StaleCloseForgetsOpenSocket | frontend/src/lib/daemon.ts:266-278 | a run in which, after a refresh, the old socket's close event does that and arms a timer |
| ClientLaws.RefreshReopensClosed | frontend/src/lib/daemon.ts:345-356 | a refresh that answers after close() opens a socket and the closed connection becomes ready |
| ClientMachine.BookStep | frontend/src/lib/daemon.ts:119-172 | what any step does to the map of calls in flight and to the settled ones |
| ClientObject.DaemonConnection.Connect | frontend/src/lib/daemon.ts:98-114 | refuses unless idle or closed; otherwise the machine's step |
| ClientObject.DaemonConnection.Rpc | frontend/src/lib/daemon.ts:119-139 | the machine's step: rejected when closed or not connected, otherwise in flight |
| ClientObject.DaemonConnection.Notify | frontend/src/lib/daemon.ts:146-172 | the machine's step, with a timer that forgets the slot |
| ClientObject.DaemonConnection.Close | frontend/src/lib/daemon.ts:193-203 | the machine's step: nothing stays in flight, the socket is closed and forgotten |
| ClientObject.DaemonConnection.OnOpen | frontend/src/lib/daemon.ts:241-248 | the machine's step: counter reset, status ready, expiry refresh scheduled |
| ClientObject.DaemonConnection.OnMessage | frontend/src/lib/daemon.ts:281-302 | settles the call with the frame's id, and calls each handler of an event's type once and no other |
| ClientObject.DaemonConnection.OnClose | frontend/src/lib/daemon.ts:266-278 | the machine's step, for every close code and status |
| ClientObject.DaemonConnection.RejectAll | frontend/src/lib/daemon.ts:304-307 | rejects every call in flight once and empties the map |
| ClientObject.DaemonConnection.ScheduleReconnect | frontend/src/lib/daemon.ts:309-326 | arms the next timer or gives up |
| ClientObject.DaemonConnection.FinishRefresh | frontend/src/lib/daemon.ts:345-356 | closes the socket, resets the counter and opens another one, without asking whether the connection was closed |
| ClientObject.DaemonConnection.FailRefresh | frontend/src/lib/daemon.ts:357-362 | fails the connection and rejects every call |
| ClientObject.UnsubscribeUndoes | frontend/src/lib/daemon.ts:178-191 | unsubscribing undoes subscribing exactly if the handler was not subscribed before |
| GitStatus.ParsePorcelainV1 | sandbox-daemon/internal/git/handler.go:85-136 | the loops compute the parsed status |
| GitStatus.ParseAheadBehind | sandbox-daemon/internal/git/handler.go:138-155 | the loop computes the last readable counts of a token |
| GitStatus.ParsePorcelainLine | sandbox-daemon/internal/git/handler.go:157-203 | the assignments compute the parsed line |
| GitQuotes.QuotedShape | sandbox-daemon/internal/git/handler.go:58 | the paths in the parser's input: as they are, or, with a blank, quote, backslash, control character or byte beyond ASCII, in C-style quotes; always on one line and without blanks at the ends |
| GitLaws.StatusComesBackExactly | sandbox-daemon/internal/git/handler.go:85-136 | parsing a printed status gives back all paths, old paths, statuses and flags in order if and only if no path was printed in quotes; no change is invented or lost, so Clean holds exactly for the empty list |
| GitLaws.LineComesBackExactly | sandbox-daemon/internal/git/handler.go:157-203 | a line comes back if and only if neither of its paths was printed in quotes |
| GitLaws.QuotesStay | sandbox-daemon/internal/git/handler.go:163-166 | otherwise a single path comes back in its quotes and escapes, unless it holds an arrow |
| GitLaws.QuotedArrowSplits | sandbox-daemon/internal/git/handler.go:169-175 | a path with an arrow is taken for a rename between two halves, each with one of the quotes |
| GitLaws.StatusExactly | sandbox-daemon/internal/git/handler.go:178-200 | for which codes each status is reported; of the conflict codes only U without D, A or M beside it |
| GitLaws.StagedExactly | sandbox-daemon/internal/git/handler.go:178-191 | the staged flag is right about the index except for renames, copies, changes modified again, and conflicts |
| GitLaws.BracketComesBack | sandbox-daemon/internal/git/handler.go:138-155 | the helper reads both counts of a whole bracket; one beyond 64 bits reads as 0 |
| GitLaws.CountsAreAlwaysZero | sandbox-daemon/internal/git/handler.go:99-120 | for every output of git the parser reports 0 ahead and 0 behind |
| GitLaws.BranchComesBack | sandbox-daemon/internal/git/handler.go:97-111 | a branch name comes back whatever upstream and counts follow; a detached head is HEAD |
| GitLaws.NoCommitsYet | sandbox-daemon/internal/git/handler.go:101-110 | before the first commit the parser reports a branch called "No" |
| Text.SplitJoined | sandbox-daemon/internal/git/handler.go:86 | splitting at a character undoes joining with it |
| Text.AtoiDecimal | sandbox-daemon/internal/git/handler.go:144 | a printed number is read back exactly if it fits in 64 bits |
| Funnel.FindStage | sandbox-daemon/internal/funnel/handler.go:38-45 | the loop finds the position of a stage, or -1 |
| Funnel.TransitionsLeadForward | sandbox-daemon/internal/funnel/handler.go:53-63 | transitions only lead forward, none leaves the archive, and every other stage has one into it |
| Funnel.ValidNextStages | frontend/src/lib/funnel.ts:39-46 | duplicate-free; lists exactly the allowed targets if and only if the given stage is one |
| Funnel.Handler.Promote | sandbox-daemon/internal/funnel/handler.go:160-208 | the first complaint is the answer; otherwise the directories after the rename |
| Funnel.Answer | sandbox-daemon/internal/funnel/handler.go:167-200 | success exactly for an acceptable request on a working file system |
| Funnel.PromotionMoves | sandbox-daemon/internal/funnel/handler.go:160-208 | a promotion moves its card forward with its content and leaves every other card alone, except one of the same name at the destination |
| Funnel.ArchiveAlwaysWorks | sandbox-daemon/internal/funnel/handler.go:59-61 | a card outside the archive can always be archived |
| Funnel.MoveShortens | sandbox-daemon/internal/funnel/handler.go:193 | by how much a move brings the cards nearer to the end |
| Funnel.RunsEnd | sandbox-daemon/internal/funnel/handler.go:160-208 | over any run of requests the moves never exceed the stages the cards had before them |
| Funnel.CardFiles | sandbox-daemon/internal/funnel/handler.go:180-181 | distinct cards are distinct files below the funnel root |

## Left out

- JSON, JWT and the generated protocol types: payloads are abstract values and are assumed to serialise.
- Real sockets, processes, signals, timers and inotify: they are steps of an environment that may act at any time.
  A closed or closing WebSocket is assumed not to open, and identifiers made by `randomUUID` to be fresh.
- Liveness and fairness; wall-clock time beyond the delays of the reconnect timers.
- PumpObject.WritePump.Send: the class runs one call at a time, so its contracts describe calls nobody interrupts;
  the interleavings are those of `PumpMachine`.
- Paths.ResolveExactly: lexical, as in the code; symbolic links are not looked at. `path/filepath` is modelled from
  its documented Unix rules for rooted paths.
- WatchHandler.Handler.HandleFsEvent: what `WalkDir` and `os.Stat` see is an input, and event names are taken to be
  canonical; publishing an event is a result, its way through the pump is in `PumpMachine`.
- PtyRegistry.MergeEnv: `os.Environ` is an input; which entry wins when the daemon's own environment repeats a name
  follows `os/exec`, the last one.
- Text.AtoiDecimal: texts are sequences of characters, not UTF-8 bytes, and `int` has 64 bits.
- GitLaws.StatusComesBackExactly: git prints with the default `core.quotePath`; branch names are never quoted.
- ClientObject.DaemonConnection.OnMessage: handlers, status callbacks and promise reactions do not call back into
  the connection, and the promise of connect() and its list of resolvers are not modelled.
- Funnel.Handler.Promote: cards are files; directories inside a stage, and `funnel.list` and `funnel.read`, are not
  part of this model.
- `classifyExit`, `signalName`, `pickShell`, `appendTokenIfMissing`: case lists without state.
- The other `fs.*` and `git.*` handlers, the FastAPI backend, and the React components.
