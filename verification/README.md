# Verified model of the highp-mmorpg server core

A Dafny 4.11 model of the parts of the highp-mmorpg server where correctness depends on the
interplay of several functions or threads, with proofs about every input, every run or every
reachable state. `dafny verify dfyconfig.toml` checks all of it.

| module | models |
|---|---|
| `Framing`, `Connection` | the wire format, what a byte stream means, and one connection's life under arbitrary chunking |
| `FrameBuffers`, `Dispatcher` | the mutable frame buffer, command queue and dispatcher, tied to that meaning |
| `Pipeline`, `PipelineStops` | workers, logic thread and shutdown, interleaved |
| `PacketStreams`, `Transfers` | the sending side and the pull decoder over partial sends and receives, and whole transfers through both decoders |
| `Totals`, `ObjectPool`, `Scope`, `Ownership`, `PoolSharpness` | the hybrid object pool, scoped loans, the acceptor's use of them |
| `TimingWindows`, `Requests` | metrics windows per atomic operation; request tracking |
| `StringUtils`, `TomlParser`, `TomlDocument` | both TOML parsers |
| `Rooms`, `Registries`, `Chat`, `ChatEffects`, `ChatClients`, `ChatWrap` | rooms, users and sessions, and the join and leave handlers against concurrent disconnects |
| `JsonEscape` | string escaping in the metrics report |
| `Basics` | options, integer widths, map sizes |

Code that changes objects is a class whose methods are proved against functions on values; the
run-level theorems are about state machines. A protocol is a set of enabled steps over a state, and
a theorem about runs quantifies over every sequence of them. The machines use the functions the
methods are proved against: the frame scanner, the pool steps, the request books, the pick and the
lookup of rooms. The user and session registries are restated as steps, because their searches
interleave with closing clients.

FlatBuffers verification is an arbitrary predicate on payloads. Clocks, partial sends and receives,
accepted sockets and thread schedules are parameters or nondeterministic choices.

Where a promised law is false of the code, the code is kept and the exact condition is proved:

- Payload sizes 65533 to 65536 pass the size test and can never be delivered
  (`Connection.DeliverableExactly`).
- `SendFrame` skips the copy when the payload size is a multiple of 2^32
  (`PacketStreams.SentFrameIsFrame`).
- A value is cut at its first '#', even inside quotes (`TomlDocument.QuotedHashIsCut`);
  `TomlDocument.SettingSurvives` says which settings survive.
- Entries of a table whose name holds a dot cannot be looked up (`TomlParser.EntryFound`).
- Room capacity holds if and only if it is at least 1 or nobody can connect (`Chat.CapacityKept`).
- Membership is consistent without a bound on the rooms only with at most one client slot, because
  room ids wrap (`ChatWrap.ConsistencyExactly`).
- Two users can share a client object when a slot is reopened between the two searches of a join
  (`ChatClients.ReopenedSlotIsShared`); `ChatClients.ClientsNotShared` and
  `ChatClients.SharingNeedsTwoSlots` say when they cannot.
- The server's maximum is safe if and only if at most one observation is in flight
  (`TimingWindows.SafeForOneWriterOnly`).
- `ParseInt` does not read "-2147483648" within 32 bits (`StringUtils.ParseIntInverts`).

## Model

| member | source | states |
|---|---|---|
| `Framing.NtohlReadsBigEndian` | network/src/server/PacketDispatcher.cpp:39-43 | copying four bytes into a word of the little-endian host and swapping it gives the big-endian value of the header, for every four bytes |
| `Framing.HtonlWritesHeader` | network/src/client/PacketStream.cpp:16-22 | the swapped and copied size is the one header whose big-endian value is the payload size modulo 2^32 |
| `Framing.ScanExtends` | network/src/server/PacketDispatcher.cpp:31-70 | what a pass of the frame loop decides about the front of the buffer (frame, bad frame, oversized header) does not change when bytes are appended |
| `Framing.DeframeAppend` | network/src/server/PacketDispatcher.cpp:30-98 | reading a stream in two parts is reading it whole: the meaning of a concatenation is the meaning of its first part continued |
| `Framing.DeframeCharacterised` | network/src/server/PacketDispatcher.cpp:30-98 | the scanning definition equals a declarative one: a result is what a byte string means if and only if the string splits into exactly those valid frames followed by an incomplete frame, an oversized header or an invalid frame |
| `Connection.ChunkingIndependence` | network/src/server/PacketDispatcher.cpp:20-98 | for every chunking without overflow, pushed payloads, residue and fate are those of the concatenated stream; with overflow what was pushed is still a prefix of it |
| `Connection.ChunkingsAgree` | network/src/server/PacketDispatcher.cpp:20-98 | two chunkings of one stream, neither overflowing, cannot be told apart |
| `Connection.ResidueBound` | network/src/client/FrameBuffer.cpp:7-41 | what waits in the buffer is shorter than one frame of the largest payload sent |
| `Connection.SharpBufferBound` | network/src/client/FrameBuffer.cpp:7-23 | with receive buffers of 4096 bytes, no chunking of payloads of at most n bytes overflows the frame buffer if and only if n <= 61437 |
| `Connection.OverflowWitness` | network/src/client/FrameBuffer.cpp:14-16 | payloads of at most 61438 bytes and a chunking of them that overflows |
| `Connection.DeliverableExactly` | network/src/server/PacketDispatcher.cpp:46-70 | a payload is delivered by some run if and only if it verifies and has at most 65532 bytes, so the sizes 65533 to 65536 that pass the size test are never delivered |
| `Connection.PushRoundTrip` | network/src/server/PacketDispatcher.cpp:20-98 | any chunking of framed valid payloads within the bound pushes exactly those payloads and leaves an empty buffer and an open connection |
| `FrameBuffers.FrameBuffer.Append` | network/src/client/FrameBuffer.cpp:7-23 | appends all of the data, or refuses and changes nothing exactly when it does not fit |
| `FrameBuffers.FrameBuffer.Consume` | network/src/client/FrameBuffer.cpp:29-41 | drops that many bytes from the front, or everything |
| `Dispatcher.CommandQueue.DrainTo` | lib/inc/concurrency/MPSCCommandQueue.hpp:25-32 | the caller gets the whole queue in push order, what it held before is gone, and the queue is empty |
| `Dispatcher.PacketDispatcher.AssembleFrame` | network/src/server/PacketDispatcher.cpp:30-97 | one pass decides as the frame scanner does, also for a client closed meanwhile, consumes a whole frame whether or not it verified, closes the client after a failure and counts each outcome once |
| `Dispatcher.PacketDispatcher.AssembleFrames` | network/src/server/PacketDispatcher.cpp:30-98 | the loop ends, and buffer, queue, gauge, counters and connection are those of the buffer's meaning |
| `Dispatcher.PacketDispatcher.Receive` | network/src/server/PacketDispatcher.cpp:20-98 | one chunk through the mutable buffer and queue has exactly the effect of the specification step that chunking independence is proved about |
| `Dispatcher.PacketDispatcher.Tick` | network/src/server/PacketDispatcher.cpp:100-139 | everything queued is taken, commands with a handler are dispatched in push order, and a client is closed afterwards if it was before or some command of its own had no handler, never otherwise |
| `Pipeline.RunInv` | network/src/server/PacketDispatcher.cpp:20-158 | the invariant of every reachable state of workers, logic thread and shutdown: order, phases, gauge and per-client streams |
| `Pipeline.RunFollowsFeed` | network/src/server/PacketDispatcher.cpp:20-98 | in every interleaving, between deliveries a connection is exactly what feeding it the chunks its deliveries carried makes of it: buffer, pushed payloads, and whether it is open, overflowed or closed |
| `Pipeline.OverflowExactly` | network/src/client/FrameBuffer.cpp:14-16 | in every run a connection is marked overflowed if and only if some delivery met a buffer with buffered and chunk bytes together over 65536 |
| `Pipeline.TakenIsPrefix` | network/src/server/PacketDispatcher.cpp:20-139 | in every interleaving, the payloads taken for a client are a prefix of what the bytes of its deliveries mean: none invented, repeated or reordered |
| `Pipeline.StopLosesNothing` | exec/chat/chat-server/chat-server/Server.cpp:49-67 | when the server has stopped, every command ever pushed was taken once in push order, the gauge is zero, and every connection, open or closed, has had everything handled that its deliveries mean, unless one of them met a buffer without room for it |
| `Pipeline.FramesAreTaken` | network/src/server/PacketDispatcher.cpp:20-139 | with chunks of at most 4096 bytes, a client sending frames of payloads of at most 61437 bytes never overflows, and after the stop every payload of a client whose valid frames all arrived has been taken |
| `PipelineStops.StopIsReachable` | exec/chat/chat-server/chat-server/GameLoop.cpp:66-126 | every run whose logic thread has started can be continued to the stopped server |
| `PipelineStops.EveryStreamIsHandled` | network/src/server/PacketDispatcher.cpp:20-139 | for every sequence of chunks up to the first that closes the connection, some run delivers exactly those and ends stopped with exactly what they mean taken |
| `Pipeline.GaugeIsExact` | lib/src/metrics/server/impl/AtomicServerMetrics.cpp:111-117 | the gauge is the queue length minus pushes not yet reported plus drained commands not yet reported, hence exact at every quiescent point |
| `Pipeline.WorkerProgress` | network/src/server/PacketDispatcher.cpp:30-98 | a worker inside the frame loop can always take its next step, whatever the other threads do |
| `PacketStreams.TcpClientSocket.SendAll` | network/src/client/TcpClientSocket.cpp:58-83 | for every partial-send schedule: all bytes in order, or an error after a proper prefix of them |
| `PacketStreams.TcpClientSocket.RecvSome` | network/src/client/TcpClientSocket.cpp:85-112 | some bytes off the front of the incoming stream, an orderly end, or an error that consumes nothing |
| `PacketStreams.BuildFrame` | network/src/client/PacketStream.cpp:14-27 | the bytes written, including the case of a payload size divisible by 2^32, whose copy is skipped by the test of the swapped word |
| `PacketStreams.SentFrameIsFrame` | network/src/client/PacketStream.cpp:14-31 | the bytes written are the frame if and only if the size is not a multiple of 2^32 or the payload is all zeros; always below 2^32 bytes |
| `PacketStreams.PacketStream.SendFrame` | network/src/client/PacketStream.cpp:14-31 | on success exactly the built frame was written, on failure a proper prefix of it |
| `PacketStreams.PacketStream.RecvExact` | network/src/client/PacketStream.cpp:83-102 | for every partial-receive schedule: fills the buffer with exactly the next bytes, or reports an error after consuming fewer |
| `PacketStreams.PacketStream.RecvFrame` | network/src/client/PacketStream.cpp:33-81 | returns and consumes exactly the first frame, or the error of the source for a bad limit, an oversized header or a short stream |
| `PacketStreams.PullRoundTrip` | network/src/client/PacketStream.cpp:33-81 | pulling frame by frame from framed payloads gives those payloads and then whatever follows |
| `PacketStreams.PushPullAgree` | network/src/server/PacketDispatcher.cpp:20-98 | on every byte string the push decoder's payloads are a prefix of the pull decoder's, equal unless it stopped at a payload that fails verification, and that payload is the next one pulled |
| `PacketStreams.SessionSend` | exec/chat/chat-server/chat-server/Session.cpp:19-50 | nothing is posted for a closed client or a frame over 1024 bytes; otherwise exactly the frame |
| `Transfers.SendFrames` | network/src/client/PacketStream.cpp:14-31 | a list of payloads through SendFrame, for every partial-send schedule: all frames in order, or the frames of a prefix followed by a proper prefix of the next |
| `Transfers.RecvFrames` | network/src/client/PacketStream.cpp:33-102 | RecvFrame until it fails, for every partial-receive schedule: everything the pull decoder makes of the stream, on an unreliable socket a prefix of it |
| `Transfers.ReceiveWire` | network/src/server/PacketDispatcher.cpp:20-98 | a byte stream delivered in chunks of any sizes up to 4096: buffer, queue and connection are those of some chunking of it, and of all of it while the client stays open |
| `Transfers.PullTransfer` | network/src/client/PacketStream.cpp:14-102 | whatever payloads SendFrame sends, repeated RecvFrame returns a prefix of them in order, wherever either side fails, and exactly them when neither does, for every schedule of partial sends and receives |
| `Transfers.PushTransfer` | network/src/server/PacketDispatcher.cpp:20-98 | whatever valid payloads within the bound SendFrame sends, Receive pushes a prefix of them in order and keeps the client open, wherever the connection breaks off, and exactly them, with an empty buffer, when it does not; for every partial-send schedule and every chunking |
| `Transfers.PostAll` | exec/chat/chat-server/chat-server/Session.cpp:19-50 | a list of payloads through Session::Send puts the frames of exactly those that fit the send buffer on the wire, in order |
| `Transfers.SessionTransfer` | exec/chat/chat-server/chat-server/Session.cpp:19-50 | of the payloads posted by a session, repeated RecvFrame returns exactly the ones that fit the send buffer, or a prefix of those when the receiver fails; all fit when none is over 1020 bytes |
| `ObjectPool.RefillContents` | lib/inc/memory/HybridObjectPool.hpp:67-78 | an empty local pool gets the last 50 global objects, or all if there are fewer, in order |
| `ObjectPool.GetContents` | lib/inc/memory/HybridObjectPool.hpp:53-96 | by contents: a get returns the newest local object; from an empty local pool the newest of the last 50 global ones, the others staying local in order; a new object only when both are empty; no other thread's pool changes |
| `ObjectPool.ReturnContents` | lib/inc/memory/HybridObjectPool.hpp:98-114 | by contents: a return goes behind the local objects; when that makes 100, the first 50 stay and the other 50 go behind the global ones, in order; no other thread's pool changes |
| `ObjectPool.HybridObjectPool.Get` | lib/inc/memory/HybridObjectPool.hpp:53-96 | the method on the vectors does what the contents law of a get says, which is the pool step of the runs |
| `ObjectPool.HybridObjectPool.Return` | lib/inc/memory/HybridObjectPool.hpp:98-114 | the method on the vectors does what the contents law of a return says, which is the pool step of the runs |
| `ObjectPool.HybridObjectPool.ExitThread` | lib/inc/memory/HybridObjectPool.hpp:30-41 | everything in the local pool goes to the global pool in order |
| `ObjectPool.LendKeeps` | lib/inc/memory/HybridObjectPool.hpp:53-96 | a get takes exactly one object out of the pools or makes exactly one, and keeps local pools at most 99 |
| `ObjectPool.GiveBackKeeps` | lib/inc/memory/HybridObjectPool.hpp:98-114 | a return adds exactly one object to the pools and keeps local pools at most 99 |
| `ObjectPool.RetireKeeps` | lib/inc/memory/HybridObjectPool.hpp:30-41 | a thread exit neither loses nor duplicates an object |
| `Scope.DeferContext.Move` | lib/inc/scope/DeferContext.hpp:38-40 | move construction hands over object, loan and cleanups; the source owns nothing |
| `Scope.DeferContext.MoveFrom` | lib/inc/scope/DeferContext.hpp:46-56 | the same transfer into an existing context |
| `Scope.DeferContext.Destroy` | lib/inc/scope/DeferContext.hpp:21-31 | an owning context runs its cleanups once, last registered first; a moved-from one runs nothing |
| `Scope.DeferredItemHolder.Hold` | lib/inc/scope/DeferredItemHolder.hpp:11-15 | parks the context under its object, a moved-from one under the null key; a key already in use keeps its entry and the new context is destroyed |
| `Ownership.RunInv` | lib/inc/memory/HybridObjectPool.hpp:53-114 | the conservation invariant of every run of gets, registrations, moves, holds, releases, erasures, scope exits and thread starts and exits |
| `Ownership.PoolStepLaw` | lib/inc/memory/HybridObjectPool.hpp:30-114 | in every run gets, destructions and thread starts and exits change the pools by exactly these contents, and no other step touches them |
| `Ownership.ContextStepLaw` | lib/inc/scope/DeferContext.hpp:38-60 | in every run a cleanup is registered behind all earlier ones, a move hands a context over whole, parking and unparking move it to and from the holder, and every other context stays as it is |
| `Ownership.LocalPoolsStaySmall` | lib/inc/memory/HybridObjectPool.hpp:98-114 | in every reachable state every local pool holds at most 99 objects |
| `Ownership.AllocationBound` | lib/inc/memory/HybridObjectPool.hpp:30-114 | if at most L objects are ever out and at most T threads ever alive at once, at most L + 99 * (T - 1) objects are ever made |
| `PoolSharpness.AllocationBoundIsSharp` | lib/inc/memory/HybridObjectPool.hpp:30-114 | for every L >= 1 and T >= 1 some run with peak L and T threads makes exactly L + 99 * (T - 1) objects, so the bound cannot be lowered anywhere |
| `Ownership.ExactlyOnePlace` | lib/inc/memory/HybridObjectPool.hpp:53-114 | in every reachable state every object ever made is in exactly one place: one slot of the global pool or of one local pool, one live context, or the holder |
| `Ownership.ReturnedAtMostOnce` | lib/inc/scope/DeferContext.hpp:15-60 | every loan is held or has been given back, exactly one of the two and exactly once |
| `Ownership.DestroyEffect` | lib/inc/scope/DeferContext.hpp:21-31 | destroying an owning context appends its cleanups in reverse order to the log and gives the object back last |
| `Ownership.CleanupsRunInReverse` | lib/inc/scope/DeferContext.hpp:21-31 | in every run, a step that destroys an owning context, in its scope or in the holder, runs exactly its cleanups, last registered first, and no other step runs any |
| `Ownership.NothingAfterReturn` | lib/inc/scope/DeferContext.hpp:21-31 | in every run no cleanup of a loan runs after the loan was given back |
| `Ownership.PostAcceptParks` | network/src/acceptor/IocpAcceptor.cpp:113-151 | whatever other threads do in between: the object borrowed was free, the hold parks it under the new loan and changes nothing else in the holder, and leaving the scope gives nothing back |
| `Ownership.FailedPostGivesBack` | network/src/acceptor/IocpAcceptor.cpp:113-141 | whatever other threads do in between, leaving the scope of a failed post gives back exactly the borrowed object and its loan |
| `Ownership.CompletionGivesBack` | network/src/acceptor/IocpAcceptor.cpp:174-182 | a completion that finds its object takes it out of the holder and on return gives back exactly that loan, whatever other threads do in between; one that does not changes nothing |
| `TimingWindows.WindowsBalance` | lib/src/metrics/client/impl/AtomicClientMetrics.cpp:21-33 | for any number of observers and drains, interleaved per atomic operation, drained plus current counts and totals equal the additions done, modulo 2^64 and exactly below it |
| `TimingWindows.ExchangeLaw` | lib/src/metrics/client/impl/AtomicClientMetrics.cpp:27-33 | in every run each exchange leaves its field 0, puts exactly the field's previous value into that drain and changes nothing else; only additions and raised maxima change the window otherwise |
| `TimingWindows.DrainTakesEverything` | lib/src/metrics/client/impl/AtomicClientMetrics.cpp:27-33 | if every observation was over when a drain began, none has begun since and it is complete, the window reads 0, the drained counts and totals alone equal all that was observed (below 2^64), and the drained maxima alone reach every value; for the client's form and for one server writer |
| `TimingWindows.NoMaximumLost` | lib/src/metrics/client/impl/AtomicClientMetrics.cpp:10-33 | once an observation of v has finished, v is at most the largest of all drained maxima and the current one: the compare-and-swap loop loses nothing |
| `TimingWindows.PeakIsExact` | lib/src/metrics/client/impl/AtomicClientMetrics.cpp:10-33 | when every observation has finished, that largest value is one that was observed, so it is the maximum |
| `TimingWindows.ServerStepRefines` | lib/src/metrics/server/impl/AtomicServerMetrics.cpp:14-24 | with one writer, each step of the load-then-store form is simulated by steps of the compare-and-swap form ending in the same state |
| `TimingWindows.OneWriterRefinesClient` | lib/src/metrics/server/impl/AtomicServerMetrics.cpp:14-32 | with one writer, every reachable state of the server's form is reachable by the client's, drains between load and store included |
| `TimingWindows.OneWriterLosesNoMaximum` | lib/src/metrics/server/impl/AtomicServerMetrics.cpp:14-32 | with one writer the server's form loses no maximum either |
| `TimingWindows.TwoWritersCanLoseAMaximum` | lib/src/metrics/server/impl/AtomicServerMetrics.cpp:14-18 | a run of two writers after which the larger observation is in no maximum |
| `TimingWindows.SafeForOneWriterOnly` | lib/src/metrics/server/impl/AtomicServerMetrics.cpp:14-32 | no run with at most n observations in flight loses a finished maximum if and only if n <= 1 |
| `Requests.RequestTracker.TrackRequest` | lib/src/metrics/client/impl/AtomicClientMetrics.cpp:125-145 | an effective track enters the request, replacing one with the same sequence, with a deadline that wraps at 64 bits; an ineffective one changes nothing |
| `Requests.RequestTracker.ResolveRequest` | lib/src/metrics/client/impl/AtomicClientMetrics.cpp:147-171 | a response of the expected type ends exactly that request and observes the round trip unless the clock went back; anything else changes nothing |
| `Requests.RequestTracker.ExpireTimedOutRequests` | lib/src/metrics/client/impl/AtomicClientMetrics.cpp:173-184 | exactly the expired entries leave the table and each is counted once |
| `Requests.RunTracker` | lib/src/metrics/client/impl/AtomicClientMetrics.cpp:125-184 | after any calls in any order, the table and the observed round trips are those of the run's books, and the timeout counter is the number of requests that ended by timing out |
| `Requests.TimesOutExactly` | lib/src/metrics/client/impl/AtomicClientMetrics.cpp:133-143 | over every run, a request tracked at n with timeout T > 0 ms, neither replaced nor answered since, is pending if and only if no expiry since came at or after n + 1000000 T (below 2^64, where the time wraps); with T <= 0 for ever |
| `Requests.AnswerLaw` | lib/src/metrics/client/impl/AtomicClientMetrics.cpp:147-171 | a response ends a request if and only if one is pending under its sequence with its type, and observes the time since it was sent unless the clock went back; otherwise nothing changes |
| `Requests.TrackLaw` | lib/src/metrics/client/impl/AtomicClientMetrics.cpp:125-145 | a track with sequence and type enters a new request and ends a pending one of the same sequence as replaced; any other changes nothing |
| `Requests.EraseExpired` | lib/src/metrics/client/impl/AtomicClientMetrics.cpp:176-183 | the erase-while-iterating loop removes exactly the expired keys, in whatever order they are visited |
| `Requests.RequestsConserved` | lib/src/metrics/client/impl/AtomicClientMetrics.cpp:125-184 | over every run, effective tracks = resolved + timed out + replaced + still pending, and nothing pending has ended |
| `Requests.EndingsAreFinal` | lib/src/metrics/client/impl/AtomicClientMetrics.cpp:125-184 | a request that has ended stays ended the same way whatever is done afterwards |
| `Requests.ExpiryIsExact` | lib/src/metrics/client/impl/AtomicClientMetrics.cpp:173-184 | an entry survives expiry, unchanged, if and only if its deadline is zero or still ahead; one that does not ends as timed out |
| `StringUtils.TrimSplits` | lib/inc/config/runTime/StringUtils.hpp:17-35 | a string is whitespace, its trimmed part and whitespace, and the trimmed part starts and ends with none |
| `StringUtils.TrimPadded` | lib/inc/config/runTime/StringUtils.hpp:17-35 | whitespace around a trimmed string is exactly what trimming takes away |
| `StringUtils.TrimContents` | lib/inc/config/runTime/StringUtils.hpp:9-35 | trimming takes blanks, tabs, carriage returns and newlines off both ends, all of them and nothing else |
| `StringUtils.TrimLoop` | lib/inc/config/compileTime/StringUtils.hpp:16-34 | the index loops compute the trimmed string |
| `StringUtils.FindLoop` | lib/inc/config/compileTime/StringUtils.hpp:36-43 | the index loop finds the first occurrence, as the library search does |
| `StringUtils.EqualsLoop` | lib/inc/config/compileTime/StringUtils.hpp:64-70 | the index loop decides equality |
| `StringUtils.ParseInt` | lib/inc/config/runTime/StringUtils.hpp:50-74 | sign, digits and the 32-bit accumulator: a value, no value, or undefined exactly when a run of leading digits exceeds 2147483647 |
| `StringUtils.ParseIntInverts` | lib/inc/config/runTime/StringUtils.hpp:50-74 | signed decimal text parses back to its number if and only if the magnitude is at most 2147483647; beyond that an intermediate leaves the 32-bit range |
| `StringUtils.ReadsExactly` | lib/inc/config/runTime/StringUtils.hpp:50-74 | a text is read as a number if and only if, trimmed and without one sign, it is a nonempty string of the characters 0 to 9 denoting at most 2147483647, and the number is the one it denotes |
| `TomlParser.ParseRuntime` | lib/inc/config/runTime/TomlParser.hpp:60-95 | the runtime loop computes the line-by-line meaning of the text |
| `TomlParser.CompileTimeParseResult.Add` | lib/inc/config/compileTime/TomlParser.hpp:13-17 | a full table refuses the entry and stays as it is, otherwise it is appended |
| `TomlParser.ParseSectionLoop` | lib/inc/config/compileTime/TomlParser.hpp:101-110 | the compile-time section parser gives the runtime one's name |
| `TomlParser.ParseKeyValueLoop` | lib/inc/config/compileTime/TomlParser.hpp:112-143 | the compile-time pair parser gives the runtime one's entry |
| `TomlParser.ParseCompileTime` | lib/inc/config/compileTime/TomlParser.hpp:58-98 | for every text the table holds exactly the first min(n, 64) entries of the runtime parser |
| `TomlParser.ParseDefault` | lib/inc/config/compileTime/TomlParser.hpp:56-58 | the table of the default parser holds exactly the first 64 entries |
| `TomlParser.TypeCases` | lib/inc/config/runTime/TomlParser.hpp:128-134 | exactly true and false are booleans, exactly what starts with a digit or sign is an integer, the rest are strings |
| `TomlParser.MatchesFullKeyLoop` | lib/inc/config/compileTime/TomlEntry.hpp:17-51 | the character loops match exactly the keys the runtime comparison matches |
| `TomlParser.LookupLoop` | lib/inc/config/compileTime/TomlParser.hpp:19-26 | the search gives the value of the first matching entry |
| `TomlParser.LookupsAgree` | lib/inc/config/compileTime/TomlParser.hpp:19-53 | for every text and key the two parsers' lookups agree if and only if the table holds a match or the text has none |
| `TomlParser.LookupIsFirst` | lib/inc/config/runTime/TomlEntry.hpp:18-27 | looking up section, dot, key gives the first entry with that section and key, for every section without a dot |
| `TomlParser.EntryFound` | lib/inc/config/runTime/TomlParser.hpp:18-25 | an entry of any text is found by some key if and only if its section holds no dot and it is the first with its section and key |
| `TomlDocument.ParseRender` | lib/inc/config/runTime/TomlParser.hpp:60-142 | parsing any well-formed document, with any padding, comments and line endings, gives exactly the entries it means |
| `TomlDocument.DecorationIsIrrelevant` | lib/inc/config/runTime/TomlParser.hpp:60-142 | documents that differ only in blank lines, comments, outer whitespace or line endings parse alike |
| `TomlDocument.FinalNewline` | lib/inc/config/runTime/TomlParser.hpp:64-92 | a newline at the end of the text makes no difference |
| `TomlDocument.CanonicalRoundTrip` | lib/inc/config/runTime/TomlParser.hpp:60-142 | text written from any list of sections and settings parses to exactly the entries meant if and only if every setting is writable, every section directly before a setting is, and every other section's header is read as no entry |
| `TomlDocument.OneLineIsHarmless` | lib/inc/config/runTime/TomlParser.hpp:80-81 | a header without a newline is always read as no entry |
| `TomlDocument.SettingSurvives` | lib/inc/config/runTime/TomlParser.hpp:112-142 | a key and a value survive being written and read if and only if they are trimmed and free of newlines, the key holds no '=' and starts no comment or header, and the value holds no '#' |
| `TomlDocument.HashCutsValue` | lib/inc/config/runTime/TomlParser.hpp:123-126 | a value is cut at its first '#', inside quotes or not |
| `TomlDocument.QuotedHashIsCut` | lib/inc/config/runTime/TomlParser.hpp:123-126 | the setting color = "#fff" is read as a lone quote |
| `TomlDocument.ParsedIsWritable` | lib/inc/config/runTime/TomlParser.hpp:60-142 | for every text, every entry parsed is one that canonical text can stand for |
| `TomlDocument.EntryTypes` | lib/inc/config/runTime/TomlParser.hpp:128-134 | for every text the type of every entry follows from its value by those three cases |
| `TomlDocument.ParseIsStable` | lib/inc/config/runTime/TomlParser.hpp:60-142 | for every text, writing the parsed entries out and parsing again gives the same entries |
| `Rooms.Room.Join` | exec/chat/chat-server/chat-server/room/Room.cpp:16-35 | the members present are told in order, then the user is added at the back; a null user changes nothing |
| `Rooms.Room.Leave` | exec/chat/chat-server/chat-server/room/Room.cpp:37-68 | the first user with the id leaves, everyone else keeps his place and the others are told; with distinct ids nobody with the id is left; an absent user changes nothing |
| `Rooms.Room.BroadcastChatMessage` | exec/chat/chat-server/chat-server/room/Room.cpp:70-90 | every member but the sender gets the message once, in order, and nobody else |
| `Rooms.KeepExactly` | exec/chat/chat-server/chat-server/room/Room.cpp:97-109 | an erase keeps exactly the users that pass the test, each as often as before, in the old order, stated by strictly increasing positions |
| `Rooms.Room.Kick` | exec/chat/chat-server/chat-server/room/Room.cpp:97-102 | the erasing loop: who stays is exactly who has another id, in the old order |
| `Rooms.Room.KickByDisconnected` | exec/chat/chat-server/chat-server/room/Room.cpp:104-109 | the erasing loop: who stays is exactly who has another socket than the client that went away, in the old order |
| `Rooms.RoomManager.constructor` | exec/chat/chat-server/chat-server/room/RoomManager.cpp:5-16 | the initial rooms are empty, separate and numbered from 0 |
| `Rooms.RoomManager.GetOrCreateAvailableRoom` | exec/chat/chat-server/chat-server/room/RoomManager.cpp:31-46 | the oldest room below capacity, or a new empty one exactly when every room is full; ids wrap at 2^32; the same pick the chat machine makes |
| `Rooms.RoomManager.GetRoom` | exec/chat/chat-server/chat-server/room/RoomManager.cpp:69-83 | the oldest room with the id, null if and only if there is none |
| `Rooms.RoomManager.KickDisconnected` | exec/chat/chat-server/chat-server/room/RoomManager.cpp:85-90 | every room keeps exactly the members whose socket differs |
| `Registries.SessionManager.CreateSession` | exec/chat/chat-server/chat-server/SessionManager.cpp:7-17 | a session under an id never used before |
| `Registries.SessionManager.GetSessionByClient` | exec/chat/chat-server/chat-server/SessionManager.cpp:29-37 | some session whose client has the same socket, none if and only if there is none |
| `Registries.SessionManager.RemoveByClient` | exec/chat/chat-server/chat-server/SessionManager.cpp:44-51 | the erasing loop removes exactly the sessions with the same socket, and comparing sizes tells whether there were any |
| `Registries.UserManager.CreateUser` | exec/chat/chat-server/chat-server/UserManager.cpp:12-41 | no user is created if and only if no session or an existing user matches by socket; otherwise one with a new id and the session's client is registered |
| `Registries.UserManager.GetUserByClient` | exec/chat/chat-server/chat-server/UserManager.cpp:77-84 | some user whose client has the same socket, none if and only if there is none |
| `Chat.RunInv` | exec/chat/chat-server/chat-server/handlers/JoinRoomHandler.cpp:16-43 | the invariant of every interleaving of the two handlers with accepts, closes, kicks and slot reuse |
| `ChatEffects.KickLaw` | exec/chat/chat-server/chat-server/room/Room.cpp:104-109 | in every run, after a kick the room holds exactly the earlier members whose socket differed from the client's at that moment, in the old order, and nothing else has changed |
| `ChatEffects.KickedOut` | exec/chat/chat-server/chat-server/room/RoomManager.cpp:85-90 | once every room has been kicked for a client and nobody has entered and no socket changed since, no member of any room has its socket |
| `ChatEffects.SessionsLaw` | exec/chat/chat-server/chat-server/SessionManager.cpp:44-51 | in every run, forgetting a client leaves exactly the sessions with another socket |
| `ChatEffects.CreateLaw` | exec/chat/chat-server/chat-server/UserManager.cpp:29-38 | in every run, the user a join creates has a number never used, the name the join carried, the client of the session found for it and the id of the first room that fitted, and no other user changes |
| `ChatEffects.EnterLaw` | exec/chat/chat-server/chat-server/room/Room.cpp:16-35 | in every run, entering adds the user behind the members of the room picked and changes nothing else |
| `ChatEffects.LeaveLaw` | exec/chat/chat-server/chat-server/room/Room.cpp:37-68 | in every run, a leave removes exactly the user found from the room with the id it stores, keeping the order of the others, and changes nothing else |
| `ChatEffects.FindAndDropLaw` | exec/chat/chat-server/chat-server/handlers/LeaveRoomHandler.cpp:25-40 | in every run, the user a leave finds has the sender's socket, and in the end exactly he is dropped from the registry |
| `Chat.CapacityKept` | exec/chat/chat-server/chat-server/room/RoomManager.cpp:31-46 | no interleaving overfills a room, kicks between pick and join included, if and only if the capacity is at least 1 or there are no client slots |
| `Chat.ZeroCapacityOverfills` | exec/chat/chat-server/chat-server/room/RoomManager.cpp:34-45 | with capacity 0 a run puts a member into a new room |
| `Chat.LeaveFindsTheRoom` | exec/chat/chat-server/chat-server/handlers/LeaveRoomHandler.cpp:25-40 | in every reachable state every registered user's room is found, at the position of its id, so the unchecked dereference never meets null |
| `Chat.MembershipConsistent` | exec/chat/chat-server/chat-server/handlers/LeaveRoomHandler.cpp:25-40 | in every reachable state user ids are unique, a user is in at most one room and there once, and that room has the id the user stores; with at most 2^32 rooms every member is registered too |
| `ChatWrap.ConsistencyExactly` | exec/chat/chat-server/chat-server/handlers/LeaveRoomHandler.cpp:25-40 | over all runs, and over those in which every accept takes the first free slot, every member is registered in every reachable state if and only if there are no client slots, or one slot and a capacity of at least 1 |
| `ChatWrap.LeaveStrands` | exec/chat/chat-server/chat-server/room/RoomManager.cpp:69-83 | a user of the room behind 2^32 others who leaves is no longer registered and still a member of that room |
| `ChatClients.ClientsNotShared` | exec/chat/chat-server/chat-server/UserManager.cpp:17-38 | no two users share a client object in any run in which, while a join that found another client's session has not made its user, neither of the two slots is reopened |
| `ChatClients.SharingNeedsTwoSlots` | exec/chat/chat-server/chat-server/UserManager.cpp:17-38 | over all runs, and over those in which every accept takes the first free slot, no two users ever share a client object if and only if there is at most one slot |
| `ChatClients.ReopenedSlotIsShared` | exec/chat/chat-server/chat-server/Session.cpp:52-54 | a run, every accept taking the first free slot, after which two users share a client: closed clients look alike, and one is reopened between the two searches |
| `ChatClients.RoomCountBound` | exec/chat/chat-server/chat-server/room/RoomManager.cpp:31-46 | with capacity at least 1, such runs never have more rooms than the initial ones or one beyond the client slots, so room ids never wrap and membership is consistent throughout |
| `JsonEscape.EscapeLoop` | lib/src/metrics/server/ServerMetricsSupport.cpp:199-234 | the loop computes the escaped text |
| `JsonEscape.EscapeRoundTrip` | lib/src/metrics/server/ServerMetricsSupport.cpp:199-234 | for every byte string and whatever follows, a reader of JSON strings (section 7 of RFC 8259) gets the string back and stops at the closing quote, so no bare quote is left |
| `JsonEscape.EscapeIsPrintable` | lib/src/metrics/server/ServerMetricsSupport.cpp:222-229 | no byte below 0x20 is written |
| `JsonEscape.EscapeForms` | lib/src/metrics/server/ServerMetricsSupport.cpp:202-229 | exactly control bytes, quote and backslash are escaped: seven bytes by two characters, the other control bytes by six with lower-case digits |
| `JsonEscape.EscapeInjective` | lib/src/metrics/server/ServerMetricsSupport.cpp:199-234 | different strings are written differently |

## Left out

- Winsock, IOCP, AcceptEx, timers, files, console and command line: foreign calls; a partial send or receive is a nondeterministic count.
- FlatBuffers code generation and verification: an uninterpreted predicate.
- Reuse of a client slot in the pipeline: closing a client does not clear its frame buffer, so the pipeline and connection results are per connection, from an empty buffer. The chat model does include slot reuse.
- Queue wait and dispatch times, enqueue timestamps: clock readings with no effect on the rest.
- `Server`, `GameLoop` and the two handlers as objects: they are steps of the pipeline and chat machines, since what matters about them is how they interleave.
- Memory orders: threads interleave per lock-protected operation, in the metrics windows per atomic operation.
- Termination of the compare-and-swap loop under contention, and a sequential object form of the metrics windows: the step machine is the only form.
- Move assignment onto a live `DeferContext`, which drops the target's cleanups: runs contain construction, move construction and destruction only.
- That every accept completion finds its object in the holder: it is parked only after the accept was posted; only ownership is claimed.
- Two concurrent accepts choosing the same free client slot: the search takes no lock.
- Removal of a user on disconnect: the source does not do it.
- Which free slot an accept takes: any, since a slot may be closed behind the search; the failing run takes the first free one.
- How many commands a client has sent: a client that has been connected may have any number pending, also after it was closed.
- Searches by client in the chat machine: a search for an existing user compares one entry per step, the comparisons of one room's kick happen at one moment, and a search may fail at any time, which allows more runs than the code has.
- Chat.MembershipConsistent: that members are registered is stated up to 2^32 rooms, where room ids wrap; `ChatWrap.ConsistencyExactly` is the exact condition without that bound, and `ChatClients.RoomCountBound` shows that undisturbed runs with capacity at least 1 stay below it. User and session ids, 64 bits wide, are unbounded.
- ChatClients.ClientsNotShared: a condition on the run; a run that reopens one of the two slots in the window may still avoid sharing.
- Requests: the conversion of a timeout from milliseconds to nanoseconds does not overflow by itself in the model; the sum with the clock wraps at 2^64.
- `FindInt`, `FindLong`, `FindBool`, `FindString` beyond the search they share, `ParseLong`, `ParseBool`, `Unquote`: the same conversions on the value found.
- `CreateRoom`, `DestroyRoom`, `GetAllUsers` and similar accessors: unused by the handlers or one line.
- Echo server, `LockObjectPool`, `ThreadLocalPool`, `Result`, loggers, callback binders, rates, averages, number formatting, CPU sampling: thin, or floating point.
