# getty, verified

A Dafny model of the concurrent protocols and byte-stream loops of getty, the Go
network library, and of the UTF-8 coder its JavaScript echo client uses.
`dafny verify dfyconfig.toml` checks all of it.

Concurrent code is a machine of atomic steps: one step is one critical section,
one wait-group operation, one `once.Do` transition or one socket call, and the
number of goroutines, requests and sessions is unbounded. A `Behaviour` is a
sequence of states and enabled steps; each machine has an inductive invariant
and theorems about whole behaviours. Sequential code that updates state is a
class or a method with loops, proved equal to a specification function, and the
laws are proved of that function.

| files | component |
|---|---|
| `SessionState`, `SessionInvariant`, `SessionSteps`, `SessionTheorems`, `SessionResults`, `SessionAnswers`, `SessionRank`, `SessionProgress`, `SessionDraining` | session generations: run, read loop, callbacks that write or close, WritePkg, WriteBytes, Send, heartbeat, tasks, Close, any number of ResetAsync callers |
| `ReconnectLoop`, `ReconnectPass`, `ClientPool` | the client: single-flight reconnect, one reconnect pass, the session pool |
| `TcpFraming`, `TcpChunking`, `EchoCodec`, `EchoStream` | the TCP receive loop, and the echo package under it |
| `WritePath`, `WireOrder`, `WireEcho` | fragmentation, all public write entry points under packetLock, and what an echo peer makes of them |
| `CodecPolling`, `PollingReader`, `PollingWriter` | the sockets under the compression codecs |
| `CallbackSpec`, `CallbackList`, `CloseCallbacks` | the close-callback list on the heap, its meaning, and its freeze at close |
| `ServerShutdown` | listeners and event loops against Close |
| `Utf8`, `Utf16`, `TextCoding`, `TextStreaming` | the JavaScript client's text coder |
| `Options`, `Sequences`, `Bytes` | shared definitions |

## Where the code is not what one would expect

- The echo package's body length is taken from its length byte and cut off what
  happens to be buffered, not off what the header announced. So the packages a
  server sees can depend on the network's chunking. `EchoStream.LooseExample`
  gives such a stream and `EchoStream.ChunkableExactlyIfTight` says exactly for
  which streams it cannot happen; streams of well-formed packages are among them.
- An error that `recv` returns together with bytes is overwritten by the outcome
  of decoding those bytes, so `OnError` is never called for it:
  `EchoStream.FaultLost`. `TcpFraming.FaultReportedExactly` says which read errors
  are reported and `TcpFraming.FaultWithBytes` when one is lost altogether.
- A second `RunEventLoop` that opens its listener before the first one published
  overwrites the published listener, and `Close` never closes the lost one:
  `ServerShutdown.ListenerLost`. `ServerShutdown.AllClosedExactly` gives the exact
  condition. If an event loop was already accepting on the lost listener, `Close`
  does not even return: `ServerShutdown.CloseCanHang`, with the exact condition in
  `ServerShutdown.LostListenerHangsClose` and `ServerShutdown.UnblockedCloseReturns`.
- `encode` replaces lone surrogates and `decode` drops a leading byte order mark;
  `TextStreaming.TextRoundTripExactly` says for which strings nothing is lost.

## Model

| member | source | states |
|---|---|---|
| SessionSteps.StepKeeps | transport/session.go:1033-1538 | every atomic step of every goroutine keeps the session invariant: both wait groups equal the goroutines that hold them, replaced generations are finished and empty, the once body works on the current generation, every reset request is pending once or answered once |
| SessionTheorems.Reachable | transport/session.go:339-379 | the invariant holds in every state of every run |
| SessionTheorems.ClearIsQuiescent | transport/session.go:339-379 | when reset enters its field-clearing section grWG and the lifecycle count are zero, and no goroutine is inside run, the read loop, a callback, a write or close made from one, or a stop body |
| SessionTheorems.OldLifecyclesStayEmpty | transport/session.go:187-215 | a replaced lifecycle stays closed with count zero for the rest of the run |
| SessionTheorems.NoStartDuringReset | transport/session.go:1036-1043 | while a reset is pending, no step raises grWG from zero, so its Wait cannot race with an Add |
| SessionTheorems.NoTaskDuringWait | transport/session.go:201-215 | once the worker waits for the lifecycle no step can raise its count: acquire is refused and both closing tasks were registered before |
| SessionTheorems.DoneClosedUnderItsOnce | transport/session.go:1443-1453 | each generation's done is closed at most once, and only by the goroutine running the once of that generation |
| SessionTheorems.AttributesOutliveBody | transport/session.go:1481-1485 | attributes are cleared only after the once body of their generation finished, so the body always reads them |
| SessionTheorems.AtMostOneReconnect | transport/session.go:1481-1485 | a generation triggers at most one reconnect |
| SessionTheorems.NoHeartbeatAfterStop | transport/session.go:1065-1089 | once the body's stopHeartbeat has run, no heartbeat timer is ever installed in that generation |
| SessionResults.ReconnectFollowsAttributes | transport/session.go:1432-1487 | if nobody rewrites the attributes, a finished generation has triggered a reconnect exactly if they asked for one: the decision is never lost to gc |
| SessionResults.SingleWorker | transport/session.go:303-331 | at most one reset worker exists, and one exists exactly while a run is pending |
| SessionResults.RequestsConserved | transport/session.go:303-331 | at every moment a channel handed out is listed once in the pending run, empty and open, or has got exactly one value and is closed; that the second always comes is SessionProgress.EveryRequestAnswered |
| SessionResults.StepChans | transport/session.go:339-379 | only the worker's drain changes a channel, and only an empty open one, to one value and closed |
| SessionResults.AnsweredForever | transport/session.go:303-331 | an answered channel never changes again |
| SessionResults.SuccessMeansCleared | transport/session.go:339-379 | a nil result comes only from a worker that went through its clearing section, with one new generation and no Connection from there to the delivery; when the result is nil is ResetAnswerExactly |
| SessionResults.OnlyIntendedWaits | transport/session.go:339-379 | a goroutine that cannot move waits in once.Do, for packetLock (possibly while it holds a lifecycle or grWG unit, as WritePkg does) or in one of the worker's two waits; no wait group goes below zero and no send blocks; that somebody else then moves is SessionProgress.NoDeadlock |
| SessionAnswers.ResetAnswerExactly | transport/session.go:312-328 | a reset delivers nil exactly if its worker never took its error path; with SuccessMeansCleared it then has cleared the fields exactly once |
| SessionAnswers.DrainErrorComesFromFail | transport/session.go:315-319 | a worker comes to report an error only through a panic |
| SessionAnswers.ReadLoopEndsClosed | transport/session.go:1138-1161 | a read goroutine, wherever it was, ends only when stop has finished and gc has taken the attributes |
| SessionAnswers.RunEnds | transport/session.go:1033-1101 | run ends having called OnOpen, seen to the heartbeat and started the read goroutine, or in a panic, or, after a failed OnOpen, with the session closed and detached |
| SessionAnswers.OpenUntilStopped | transport/session.go:370-376 | a generation whose stop has not begun, also a new one after a reset, has an open done, an open lifecycle and attributes |
| SessionAnswers.AdmittedExactly | transport/session.go:1036-1089 | run is refused exactly while a reset is pending, WritePkg goes on exactly while done is open, a heartbeat is installed exactly if the session is still open |
| SessionAnswers.WritesExactly | transport/session.go:769-786 | a write that finds the session open gets to its send once packetLock is free, one that does not returns |
| SessionAnswers.AcquiredExactly | transport/session.go:187-195 | a task gets its unit and its callback exactly while its lifecycle is open |
| SessionAnswers.CallsBegin | transport/session.go:649-662 | where each call begins, from outside and from inside a callback |
| SessionAnswers.TasksAsk | transport/session.go:1103-1136 | a read brings a new batch of packages; every timer tick and every package handed over becomes a task that asks for a unit of its lifecycle |
| SessionAnswers.DetachedExactly | transport/session.go:1507-1538 | outside a reset's clearing section, the Connection goes to a closing goroutine exactly when gc takes the attributes of a session that has one, and through nobody else |
| SessionProgress.ClearExcludesWrites | transport/session.go:349-379 | while the worker clears the fields no write of any entry point is inside its write section |
| SessionProgress.NoDeadlock | transport/session.go:339-379 | in every reachable state some goroutine can move unless all have returned: once.Do, both wait groups and packetLock never wait in a circle, although writers wait for packetLock inside a lifecycle or a callback and callbacks of every kind close the session; it rests on reset waiting for the lifecycle before it locks packetLock |
| SessionProgress.QuiescentAnswered | transport/session.go:303-331 | when nothing moves any more, every channel has one value and is closed |
| SessionProgress.StepLowersRank | transport/session.go:1033-1538 | every step of a goroutine, also along an error path, into a nested call or for a package already read, lowers a rank of the whole session |
| SessionProgress.EveryRequestAnswered | transport/session.go:303-331 | without new calls, timers and reads, whatever the order, a bounded number of steps brings every ResetAsync channel its one value and its closure |
| SessionDraining.DrainRankFalls | transport/session.go:346-352 | while the worker waits, no step of anybody and no call, timer or read from outside adds to what it waits for, and every step of those it waits for takes from it |
| SessionDraining.DrainGoesOn | transport/session.go:346-352 | while the worker waits, it, a goroutine it waits for, or a holder of packetLock can move |
| SessionDraining.WorkerGetsThrough | transport/session.go:339-352 | however many calls, timers and reads arrive meanwhile, the worker and those it waits for take a bounded number of steps, and until it has packetLock one of them or a writer inside packetLock can move |
| ReconnectLoop.SingleFlight | transport/client.go:521-567 | at most one reconnect loop is between its registration and its exit section |
| ReconnectLoop.NothingStartsAfterClose | transport/client.go:521-567 | after close no loop or pass starts and no trigger is accepted |
| ReconnectLoop.ServedByPass | transport/client.go:545-563 | triggers become served only by the start of a pass |
| ReconnectLoop.NoLostTrigger | transport/client.go:521-567 | the loop whose channel a trigger got cannot exit on an open client unless a pass started after the trigger |
| ReconnectLoop.TriggerIsAlive | transport/client.go:521-567 | an accepted trigger is served, or the client closed, or its loop is alive and its next section starts a pass |
| ReconnectLoop.CloseEndsTheLoop | transport/client.go:545-554 | after close the next critical section of a loop is its last |
| ReconnectLoop.NoIdlePass | transport/client.go:555-563 | a pass starts only after a trigger that no earlier pass has served |
| ReconnectLoop.PassesBounded | transport/client.go:521-567 | there are never more passes than accepted triggers |
| ReconnectLoop.LoopsGoOn | transport/client.go:545-564 | a loop that has not exited can take its next step |
| ReconnectPass.ReConnect | transport/client.go:570-610 | the loop computes the attempts, connects and pauses of the specification Pass; PassStopsAt, PassDials and GivesUpExactly say when that pass ends and what it does until then |
| ReconnectPass.BoundedPass | transport/client.go:570-610 | with S successful connects a pass makes at most (S+1)*max attempts, whatever it meets |
| ReconnectPass.BoundAttained | transport/client.go:590-593 | the bound is exact for every S: each success restores the whole budget of failures |
| ReconnectPass.GivesUpExactly | transport/client.go:581-597 | on an open client with room in the pool a pass gives up exactly when it meets max failures in a row, wherever they begin |
| ReconnectPass.PassStopsAt | transport/client.go:582-606 | a pass goes no further than a round that finds the client closed or the pool full: before dialling, after a failed dial without a further pause, or during a pause |
| ReconnectPass.StillGoing | transport/client.go:581-609 | a pass that is still going has met no such round |
| ReconnectPass.PassDials | transport/client.go:581-609 | until then it dials once a round, and pauses once after every failure |
| ReconnectPass.Defaults | transport/client.go:571-579 | zero means 50 attempts and 300 ms |
| ReconnectPass.HopelessPass | transport/client.go:570-610 | if everything fails exactly max attempts are made, each but the last followed by interval*min(i,10) |
| ReconnectPass.TotalPause | transport/client.go:570-610 | for max >= 11 these pauses sum up to interval*(55+10*(max-11)) |
| ClientPool.StepKeeps | transport/client.go:388-501 | connect, sessionNum, stop, closes and resets keep the pool invariant |
| ClientPool.PoolBounded | transport/client.go:422-501 | the pool never holds more than the configured number of sessions |
| ClientPool.RefusedExactly | transport/client.go:446-493 | connect turns a live session away exactly if the client is closed or the pool holds `number` live sessions; otherwise it is pooled among live ones only |
| ClientPool.DeadNotAdmitted | transport/client.go:462-469 | a session that died during run is neither pooled nor closed again |
| ClientPool.PrunedExactly | transport/client.go:395-408 | sessionNum leaves exactly the live sessions of the pool |
| ClientPool.NoLeak | transport/client.go:422-501 | a session whose run returned inside connect is in the pool, inactive, or owed a decision or a close by a connect or stop in flight |
| ClientPool.ClosedClientHasNoLiveSession | transport/client.go:612-626 | on a closed client whose goroutines are through, no session it ran is alive |
| ClientPool.NothingAdmittedAfterStop | transport/client.go:612-626 | after stop took the map it stays nil |
| ClientPool.StopTakesThePool | transport/client.go:612-626 | stop takes the whole pool and owes each of its sessions a close |
| ClientPool.NobodyIsStuck | transport/client.go:422-501 | every connect and stop in flight can go on until it is through |
| ClientPool.DeadStaysDead | transport/client.go:388-408 | an inactive session never becomes active, so pruning it is final |
| TcpFraming.HandleTcpPackage | transport/session.go:1191-1300 | the two nested loops compute the packages, buffer and verdict of the specification Serve, for every Reader that consumes 1 to len(data) bytes on success; LengthsRefusedExactly, LimitKept and EndsStop say what that verdict is |
| TcpFraming.ServeSplit | transport/session.go:1220-1297 | serving a flow in two parts is serving it whole |
| TcpFraming.LengthsRefusedExactly | transport/session.go:1267-1292 | under a limit a package or a declared length above it, and an incomplete package with more than the limit buffered, stop the loop with TooLong; a package within it is dispatched |
| TcpFraming.LimitKept | transport/session.go:1267-1292 | the loop gives up on a length, or on a decode error, exactly if the remainder it stopped at says so; what it keeps is a suffix of the buffer within the limit |
| TcpFraming.NoLimitNoRefusal | transport/session.go:1267-1275 | without a limit no length is refused |
| TcpFraming.BufferBounded | transport/session.go:1220-1297 | however the bytes arrive, a session that goes on serving holds at most maxMsgLen unconsumed bytes |
| TcpFraming.EndsStop | transport/session.go:1220-1255 | after the session was seen closed, the end of the stream or a read error the loop does not read again |
| TcpFraming.FaultReportedExactly | transport/session.go:1233-1256 | over every flow, the loop returns a read error exactly if one arrived without bytes while it was serving |
| TcpFraming.FaultWithBytes | transport/session.go:1251-1282 | a read error that comes with bytes is never the one returned, and is lost exactly if the bytes decode, as if the peer had hung up |
| TcpChunking.RefusalIsFinal | transport/session.go:1260-1292 | a refused buffer is refused again, with the same packages, however it is continued |
| TcpChunking.DrainResumes | transport/session.go:1260-1292 | cutting packages off a prefix and going on later equals cutting them off the whole |
| TcpChunking.ChunkingIndependence | transport/session.go:1220-1297 | for a stream reader, two flows with the same bytes dispatch the same packages with the same verdict, both length limits included |
| EchoCodec.Marshal | examples/echo/tcp-echo/server/app/echo.go:102-117 | produces the 32-byte little-endian header, the length modulo 256 and the body |
| EchoCodec.Unmarshal | examples/echo/tcp-echo/server/app/echo.go:119-153 | consumes its buffer as the specification Decode says, error paths included |
| EchoCodec.ReadProgresses | examples/echo/tcp-echo/server/app/readwriter.go:39-58 | for any header whatever, success consumes between 33 and min(len(data), 288) bytes |
| EchoCodec.HeaderRoundTrip | examples/echo/tcp-echo/server/app/echo.go:77-90 | every header is read back from its encoding, whatever follows |
| EchoCodec.FrontRoundTrip | examples/echo/tcp-echo/server/app/readwriter.go:39-58 | a well-formed package is read back from the front of any stream and consumes exactly its own bytes |
| EchoCodec.RoundTripExactly | examples/echo/tcp-echo/server/app/echo.go:102-153 | Unmarshal inverts Marshal exactly for the well-formed packages |
| EchoCodec.WireFormat | examples/echo/tcp-echo/server/app/echo.go:77-117 | where everything stands: six little-endian words, the code in two's complement, the length, six zero bytes, the length byte, the body |
| EchoCodec.UnmarshalExactly | examples/echo/tcp-echo/server/app/echo.go:119-153 | read off the bytes: too little data, a wrong magic, an announced length of zero or above 256, or the package |
| EchoCodec.ReadExactly | examples/echo/tcp-echo/server/app/readwriter.go:47-57 | too little data is no error, everything else that fails is |
| EchoStream.ChunkableExactlyIfTight | examples/echo/tcp-echo/server/app/echo.go:138-152 | the echo server's packages are independent of chunking exactly on streams where no accepted frame reaches into bytes behind it |
| EchoStream.LooseExample | examples/echo/tcp-echo/server/app/echo.go:138-152 | a concrete stream whose package changes with the chunking |
| EchoStream.SentPackages | examples/echo/tcp-echo/server/app/echo.go:102-153 | marshalled well-formed packages drain to themselves and form a tight stream |
| EchoStream.EchoEndToEnd | transport/session.go:1220-1297 | any list of well-formed packages within the limit, cut anywhere and interrupted by timeouts, is dispatched as that list |
| EchoStream.FaultLostWith | transport/session.go:1251-1300 | a connection that fails together with any last whole package dispatches it and ends without an error |
| EchoStream.FaultLost | transport/session.go:1251-1300 | one such input |
| WritePath.FragmentsJoin | transport/session.go:807-823 | the fragments concatenate to the package |
| WritePath.FragmentsSizes | transport/session.go:807-823 | there are ceil(len/16384) fragments, all of 16 KiB but the last, which is not empty |
| WritePath.WriteFragments | transport/session.go:807-825 | succeeds exactly if every one of its sends works, and then sent exactly the fragments; on failure the count is the length of the prefix that is on the wire |
| WritePath.WriteBytes | transport/session.go:769-826 | the wire grows by pkg[..n]; one whole message on a websocket; it succeeds exactly if its sends work and a websocket payload is within the outbound limit |
| WritePath.WriteBatchWebsocket | transport/session.go:858-885 | one message per package; it succeeds exactly if every send works and every payload is within the limit; the total is what got out before the first failure |
| WritePath.Merge | transport/session.go:887-910 | the two loops copy the packages into one buffer that holds their concatenation |
| WritePath.WriteBatchMerged | transport/session.go:887-924 | on other connections the wire grows by the concatenation up to the reported count, in the fragments of the merged package; it succeeds exactly if their sends work |
| WireOrder.PlansAreSafe | transport/session.go:692-698 | an entry point that sends more than once or changes the timeout takes the write side of packetLock, and its sends make up its payload |
| WireOrder.RawFragments | transport/session.go:769-825 | a raw connection gets WriteBytes and merged batches in fragments of 16 KiB, exclusively exactly above that size |
| WireOrder.Reachable | transport/session.go:649-925 | lock, timeout, contiguity and per-call contents hold in every state of every run of all four entry points, on TCP, websocket and other connections |
| WireOrder.WritesStayWhole | transport/session.go:769-925 | in every interleaving the bytes of each call stand together in the stream; a returned call's bytes are its payload up to the reported count, all of it on success |
| WireOrder.StreamIsCalls | transport/session.go:769-925 | in every reachable state the whole stream is what the calls put on the wire, each call once, one after the other |
| WireOrder.TimeoutsStayPrivate | transport/session.go:692-718 | only the WritePkg that set a temporary write timeout sends under it, and it is restored before the lock is free |
| WireOrder.WritersGoOn | transport/session.go:692-698 | as long as a call has not returned, it or a holder of packetLock can take its next step |
| WireOrder.SendsSucceed | transport/session.go:807-825 | a call whose sends all work reports success and its whole payload |
| WireEcho.ConcurrentWritesArrive | transport/session.go:649-925 | concurrent successful writes of well-formed echo packages, through any entry points and cut anywhere by the network, are dispatched by the peer exactly once, those of a call together and in order, the calls in wire order |
| CodecPolling.OneWindow | transport/connection.go:562-577 | one poll that ends at its deadline finds a stall in time or leaves the stall deadline ahead |
| CodecPolling.WindowFloor | transport/connection.go:564-572 | a poll is cut only in the middle of a block, and never below a millisecond |
| PollingReader.FillClassifies | transport/connection.go:561-608 | a fill ends with bytes, a real error, or a timeout that a shutdown, a latch or a stall in the middle of a block explains |
| PollingReader.FillEndsAtFirstEvent | transport/connection.go:581-607 | a fill ends at the first turn that is not idle, with that turn's bytes or error: stalls and shutdown wake-ups are never absorbed, idle timeouts always are |
| PollingReader.FillConserves | transport/connection.go:561-608 | the bytes a fill keeps and those still to come are all the bytes of the socket |
| PollingReader.SilenceSurfaces | transport/connection.go:561-608 | with reads ending at their deadlines, mid-block silence is reported by 1 ms past the later of stall deadline and fill start, whatever the poll interval, after a bounded number of polls |
| PollingReader.Reader.constructor | transport/connection.go:436-436 | a new reader is valid, with an empty buffer and no progress |
| PollingReader.Reader.Boundary | transport/connection.go:525-527 | silence after a decode boundary is idleness again |
| PollingReader.Reader.Keep | transport/connection.go:583-588 | a fresh read replaces the empty buffer and nothing is lost |
| PollingReader.Reader.PollTimeout | transport/connection.go:564-572 | in the middle of a block the poll is cut to the stall deadline, but not below a millisecond |
| PollingReader.Reader.Fill | transport/connection.go:561-608 | the loop over the buffer array does what the specification FillRun says |
| PollingReader.Reader.Deliver | transport/connection.go:529-532 | handing over bytes keeps delivered + buffered = received and marks progress |
| PollingReader.Reader.Read | transport/connection.go:534-544 | what lands in p is the next stretch of the received stream; outside shutdown a timeout comes only after bytes were delivered since the last boundary and a whole stall window of silence |
| PollingReader.Reader.ReadByte | transport/connection.go:548-558 | one byte of the received stream, with the same meaning of a timeout |
| PollingWriter.StallSurfaces | transport/connection.go:626-674 | with writes ending at their deadlines, a peer that takes nothing is reported by 1 ms past the stall deadline, whatever wTimeout is |
| PollingWriter.WriteEndsAtFirstError | transport/connection.go:648-672 | the write ends with its last byte or at the first turn that must not be absorbed, with that turn's error and that turn's view of a shutdown: real errors, shutdown timeouts and stalls never are absorbed, other timeouts always are |
| PollingWriter.TakingIsNotStalling | transport/connection.go:651-671 | a peer that takes a byte in a turn is not given up in that turn |
| PollingWriter.Write | transport/connection.go:626-674 | the bytes accepted are exactly p[..written] for every socket behaviour, success means all of p, a timeout outside shutdown means a whole stall window without an accepted byte, and the whole result is that of the run WriteEndsAtFirstError describes |
| CallbackSpec.StepRefines | transport/callback.go:66-142 | one Add or Remove on the list is one on the insertion-ordered map |
| CallbackSpec.RefinesOrderedMap | transport/callback.go:66-142 | for every sequence of operations the list is the map's keys in order with the map's values, keys distinct |
| CallbackList.Callbacks.constructor | transport/callback.go:44-48 | the empty list is valid |
| CallbackList.Callbacks.Search | transport/callback.go:79-85 | the walk finds the first matching node and its predecessor |
| CallbackList.Callbacks.Append | transport/callback.go:87-100 | a new node becomes the true tail and the chain stays linked |
| CallbackList.Callbacks.Unlink | transport/callback.go:119-140 | removing any node leaves first, last, cbNum and the chain consistent |
| CallbackList.Callbacks.Add | transport/callback.go:66-101 | replace in place or append, nil callbacks and uncomparable keys ignored |
| CallbackList.Callbacks.Remove | transport/callback.go:109-142 | removes the matching entry, if any |
| CallbackList.Callbacks.Invoke | transport/callback.go:148-156 | runs the entries' callbacks in order, up to the first that panics |
| CallbackList.Callbacks.Len | transport/callback.go:160-162 | cbNum is the number of entries |
| CloseCallbacks.Reachable | transport/session_callback.go:34-65 | the registry is the result of the accepted operations in every state of every run |
| CloseCallbacks.Frozen | transport/session.go:1453-1459 | once stop has its snapshot, live list, accepted operations and snapshot never change again |
| CloseCallbacks.RunsTheSnapshotOnce | transport/session.go:1461-1479 | each entry of the ordered map left by the accepted operations runs once, in order; all of them, or exactly up to the first that panics |
| CloseCallbacks.AcceptedExactly | transport/session_callback.go:38-64 | an operation takes effect exactly if it found the session open when it held the mutex |
| CloseCallbacks.NobodyIsStuck | transport/session_callback.go:38-64 | whoever waits for the mutex waits for a caller or a stop that can go on |
| ServerShutdown.Reachable | transport/server.go:168-201 | the shutdown invariant holds in every state of every run |
| ServerShutdown.LoopsAllEnded | transport/server.go:392-403 | when Close returns every registered event loop has ended, and none runs or is registered later |
| ServerShutdown.CloseReachesSweep | transport/server.go:173-196 | Close gets to its sweep: its next step can be taken, or that of the RunEventLoop that holds the lock |
| ServerShutdown.ListenersAccounted | transport/server.go:264-325 | once stop has swept, a listener is closed exactly if it is not still unpublished, not waiting for its rejected publisher to close it, and not overwritten |
| ServerShutdown.AllClosedExactly | transport/server.go:168-201 | Close closes every published listener exactly if no publish found one already in place |
| ServerShutdown.ListenerLost | transport/server.go:264-279 | a run in which an overwritten listener is left open after Close returned |
| ServerShutdown.LostListenerHangsClose | transport/server.go:674-677 | an event loop in Accept on an overwritten listener keeps Close from returning in every run, called already or later, unless a peer connects to that listener |
| ServerShutdown.BlockedExactly | transport/server.go:168-201 | after stop's sweep a loop sits on an open listener exactly if that listener was overwritten |
| ServerShutdown.UnblockedCloseReturns | transport/server.go:674-677 | if no loop sits on an open listener after the sweep, Close returns: a step towards its return can always be taken, and there is a bound on those steps |
| ServerShutdown.SingleListenerNeverBlocks | transport/server.go:264-279 | if no publish found a listener in place, no loop is blocked after the sweep, so Close returns |
| ServerShutdown.CloseCanHang | transport/server.go:405-431 | a run that leaves a loop blocked on an overwritten listener |
| Utf8.ScalarsOnly | examples/echo/ws-echo/js-client/encoding.js:1172-1306 | whatever the bytes, only Unicode scalar values are emitted |
| Utf8.Canonical | examples/echo/ws-echo/js-client/encoding.js:1172-1306 | if no error was emitted, re-encoding the output gives the same bytes: no overlong forms, no surrogates |
| Utf8.RoundTrip | examples/echo/ws-echo/js-client/encoding.js:1313-1368 | decoding the encoding of any scalar values returns them |
| Utf8.CleanExactlyIfEncoded | examples/echo/ws-echo/js-client/encoding.js:1172-1368 | the byte strings decoded without error are exactly the encodings of scalar values |
| Utf8.DecodesAsReference | examples/echo/ws-echo/js-client/encoding.js:1192-1305 | for every byte sequence the output is that of a reference that takes a scalar value, or the longest beginning of one, or a single byte off the front |
| Utf8.ScalarInFront | examples/echo/ws-echo/js-client/encoding.js:1280-1305 | a scalar value in front is decoded, whatever follows |
| Utf8.StrayByte | examples/echo/ws-echo/js-client/encoding.js:1249-1253 | a byte that begins nothing is one error |
| Utf8.BrokenSequence | examples/echo/ws-echo/js-client/encoding.js:1262-1278 | a sequence broken off by a byte that may not follow is one error, and that byte is read again as a first byte |
| Utf8.CutOffSequence | examples/echo/ws-echo/js-client/encoding.js:1192-1204 | a sequence cut off by the end of the stream is one error |
| Utf8.ErrorsAreReplaced | examples/echo/ws-echo/js-client/encoding.js:251-255 | outside the fatal mode every error is U+FFFD |
| Utf16.StringToCodePoints | examples/echo/ws-echo/js-client/encoding.js:54-131 | pairs surrogates, lone ones become U+FFFD, as the specification FromUtf16 says |
| Utf16.CodePointsToString | examples/echo/ws-echo/js-client/encoding.js:137-150 | as the specification ToUtf16 says |
| Utf16.Utf16RoundTrip | examples/echo/ws-echo/js-client/encoding.js:54-150 | scalar values survive the way through a string |
| Utf16.StringPreservedExactly | examples/echo/ws-echo/js-client/encoding.js:54-150 | a string survives exactly if it has no lone surrogate; its length always does |
| Utf16.UnitsExactly | examples/echo/ws-echo/js-client/encoding.js:54-150 | every code unit survives, except that a surrogate without its partner becomes U+FFFD |
| TextCoding.Stream.Read | examples/echo/ws-echo/js-client/encoding.js:180-200 | takes the first token or reports the end of the stream |
| TextCoding.Stream.Prepend | examples/echo/ws-echo/js-client/encoding.js:209-217 | puts a token back in front |
| TextCoding.Utf8Decoder.Handler | examples/echo/ws-echo/js-client/encoding.js:1192-1305 | one handler call on the closure variables, with its push-back |
| TextCoding.HandleRuns | examples/echo/ws-echo/js-client/encoding.js:1192-1305 | one handler call is one step of the run over what is left, and a pushed-back byte meets a decoder at rest |
| TextCoding.TextDecoder.Consume | examples/echo/ws-echo/js-client/encoding.js:1020-1030 | the loop ends although bytes are pushed back, and computes the run over its input |
| TextCoding.TextDecoder.Decode | examples/echo/ws-echo/js-client/encoding.js:992-1066 | decode with its streaming flag, decoder reuse, flush and byte order mark does what the specification Call says |
| TextStreaming.CallsJoin | examples/echo/ws-echo/js-client/encoding.js:992-1066 | a streaming call followed by any call is one call on the joined bytes |
| TextStreaming.StreamingIsOneShot | examples/echo/ws-echo/js-client/encoding.js:992-1066 | any chunks decoded with stream: true and a final call give the code points and state of one call; only an initial byte order mark is dropped |
| TextStreaming.StreamedString | examples/echo/ws-echo/js-client/encoding.js:992-1066 | the returned strings concatenate to the one-shot string |
| TextStreaming.OneShotDecodes | examples/echo/ws-echo/js-client/encoding.js:992-1066 | a decode that continues no stream yields the reference decoding of its bytes, without a leading byte order mark |
| TextStreaming.EncodeHandler | examples/echo/ws-echo/js-client/encoding.js:1313-1368 | the loop produces the encoding of one code point |
| TextStreaming.EncodeText | examples/echo/ws-echo/js-client/encoding.js:1120-1157 | encode is the UTF-8 form of the string's code points |
| TextStreaming.TextRoundTripExactly | examples/echo/ws-echo/js-client/encoding.js:992-1157 | decode undoes encode exactly if the string has no lone surrogate and no leading byte order mark that decode drops |

## Left out

- Dialing, TLS, HTTP upgrade, timers, the worker pool and the clock: their outcomes are inputs (script entries, error steps, elapsed times).
- The UDP and websocket receive loops, websocket control frames (they bypass packetLock by design), and TLS batch writes (not one atomic append).
- The internals of flate and snappy, and with them the recv and Send wrappers around the codecs and the mapping of a timeout to a broken stream: the polling reader and writer are modelled up to what they hand to the codec.
- The fatal mode of TextDecoder and the legacy encodings of encoding.js.
- Reset from inside a callback (TryReset, callback depth): it schedules the modelled ResetAsync.
- A panic of foreign code inside the once body of stop.
- Callbacks and socket calls that never return: the progress theorems of the session let every callback end and the read loop leave once it is asked to. In one run each callback makes at most some fixed number of calls into the session, and each read brings at most that many packages; the number is arbitrary.
- The second lifecycle unit of a WritePkg that a callback calls: within a callback it is a write like the others.
- Starvation on packetLock: nothing is said about which waiting goroutine gets it first.
- Reuse of a reset session: the step Attach installs a Connection only while no reset is pending, which is what the callers of run do.
- A second concurrent server Close, which returns early on the closed done channel; the theorems are about the Close that runs the once body.
- The http.Server shutdown inside server stop, the UDP and websocket event loops (the accept loop modelled is the TCP one), and event loops that close a listener on their own after a failed session callback.
- Changing maxMsgLen, the write limit or the connection's own timeouts while a loop or a write is running.
- Keys with irreflexive equality (NaN) in the callback list; comparability is part of a value.
- More than one generation of the close-callback registry: reset starts it empty after the old callbacks have run, which the session machine covers.
- Statistics, logging, options, getters and setters.
- TcpFraming.HandleTcpPackage: the buffer growth policy and the worker pool are not modelled; a dispatched package is one given to addTask.
- SessionResults.SuccessMeansCleared: says nothing of a Connection attached after the delivery.
