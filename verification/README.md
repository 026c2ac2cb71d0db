# Verified model of the networking core

A Dafny model of the event loop's write path and wakeup, the lock-free queues and the thread
pool under it, the RPC server with its Python client, and the Redis client. Every module states
what its part does in the terms of its specification (a FIFO, a byte stream, a one-byte-at-a-time
automaton, a list of replies) and proves that the branching, stateful code refines it. The last
modules compose these results into statements about whole runs.

Check everything with `dafny verify dfyconfig.toml`.

## The pieces

- **Queues.** `Ring`, `SpscQueue` and `MpscQueue` are step systems, one shared access per step, for
  the one-producer queue and for any number of producers. Both refine a FIFO of at most
  capacity - 1 items; the one-producer push gives up exactly on a full queue, the other one also
  with a stale head, as stated exactly. The multi-producer queue needs its compare-and-swap not to
  succeed a whole lap after the producer read the head; that is an explicit guard, one producer
  meets it always, and `LapLosesItems` is a run that loses items without it.
- **Wakeup.** `Wakeup` is the protocol of `postTask`, `postTaskBatch` and `drainTasks` around the
  `awake` flag, the eventfd and the bounded task queue: there is one wakeup token exactly while the
  flag is set. Posts may spin on a full queue, the loop's own posts included, and it is stated
  exactly when the threads can still come to rest.
- **Thread pool.** `ThreadPool` holds the blocking queue as a class and the workers and `join` as a
  step system: what was submitted before the shutdown is run exactly once when `join` returns, and
  with workers it can always return.
- **Connection.** `WriteQueue` is the queue of pending buffers, `ConnectionSpec` what each handler
  does to a connection and what every run keeps, `ConnectionRuns` what a run does, read off its
  handlers, `Connections` the handlers as methods of a class, `Draining` when a queue can run empty
  and `Watching` when the loop stops watching a connection.
- **RPC.** `RpcFrame` is the request layout and its encoder, `RpcAutomaton` the one-byte reference,
  `RpcMeaning` its characterisation in terms of packets alone, `RpcParser` the resumable parser and
  its driver, `RpcStreams` what whole streams parse to, `RpcResponse` the response encoders and the
  client's receiver, `RpcServer` one client from the first byte read to the last byte written, and
  `RpcProgress` that every request read can be answered.
- **Redis.** `Decimal` is `std::stoll` and `std::to_string`, `Resp` the parser, `RespStreams` the
  parser on cut and zero-padded data, `RespEncoding` the encoder that it inverts, `ReadBuffer` and
  `RedisReader` the reassembly buffer and the read callback, `RedisReplies` a stream of replies in
  any chunks, `RedisPairing` a connection and its server with promises matched by order alone, and
  `RedisProgress` that every command can get its reply.
- **Shared.** `Bytes` has the big-endian integers and concatenation, `Common` the option type and
  number ranges.

All interleavings are sequentially consistent. The kernel is a choice of results: a `read` returns
between one byte and the room it was given, a `writev` sends between one byte and what it was
offered, or blocks, or fails. `requires` clauses on connections are that the handlers are reached
only for a known connection and that the byte total fits in an `int`.

## What the code turned out to do

The model follows the code here; the lemmas named say when it happens.

- A batch of as many tasks as the ring has slots, 512, posted to a sleeping loop, does not get through
  on its own: the wakeup comes after the last push, and that push spins. A batch gets through exactly
  if it is smaller: `Wakeup.BatchOnSleepingLoop`, `Wakeup.FullBatchSleeps`.
- If the loop itself posts in a callback while the ring is full, it spins for ever and no task is run
  again: `Wakeup.LoopPostsToFullRing`, and in general `Wakeup.RestIsReachableIff`.
- `MPSCQueue::push` can return false on an empty queue: `MpscQueue.GivesUpIff`,
  `MpscQueue.PushGivesUpOnEmptyQueue`.
- A compare-and-swap that succeeds a full lap late can make a ring with two items look empty:
  `MpscQueue.CasIsSafeIff`, `MpscQueue.LapLosesItems`.
- The loop stops watching a connection when nothing is left to write and nothing is to be read, and
  then never watches it again; what is written later stays queued until the close:
  `Watching.LeavesSetIff`, `Watching.DetachedForEver`, `Watching.HalfClosedAnswerIsNeverSent`.
- A queue can run empty exactly if its last buffer has unsent bytes and no IOV_MAX buffers in a row
  are without; an empty buffer at the end stays, unreported, until more is written or the connection
  closes: `Draining.RunsEmptyIff`, `Draining.EmptyBufferStays`, `Draining.LaterByteFreesIt`.
- A frame that follows an unfinished one is read only if the parser is between frames:
  `RpcStreams.PacketIsDeliveredIff`.
- The client keeps one of two different frames with the same id: `RpcResponse.ByIdKeepsAllIff`,
  `RpcResponse.LaterFrameReplaces`.
- A reply that is an array and is cut before one of its elements is taken for garbage, because the
  parser also sees the zero bytes behind the received ones: `RespStreams.ParseOfPadded`,
  `RespEncoding.ArrayCutBetweenElements`, `RedisReplies.ReceiveReassembles`.
- A null array is read as an empty one, so a caller cannot tell them apart: `RespEncoding.NullArrayReads`,
  `RespEncoding.EncodingIsPrefixFree`.
- The read buffer fills up only with a reply that is longer than it: `RedisReplies.FullMeansTooLong`.
- When a connection closes, a command that was sent whole but whose reply had not been received whole
  leaves its promise without a value and without an error: `RedisPairing.AbandonedIff`,
  `RedisPairing.CommandIsAbandoned`.
- A comment beside `SimpleBuffer::read` (src/net/context/EpollContext.h:98) says that clearing leaves
  the bytes alone; the code zeroes them, and `RedisReader` depends on it.
- A pool without workers returns from `join` with its tasks not run: `ThreadPool.JoinDrains`,
  `ThreadPool.NoWorkersRunNothing`.

## Model

| member | source | states |
|---|---|---|
| `MpscQueue.StepKeepsInv` | src/utils/thread_pool/queue/LockFreeQueue.h:54-91 | every shared access of any producer or the consumer keeps the invariant: occupancy at most capacity - 1, a reserved slot belongs to one producer and is released once, each position holds its own reservation |
| `MpscQueue.RunKeepsInv` | src/utils/thread_pool/queue/LockFreeQueue.h:54-91 | the invariant holds after every interleaving |
| `MpscQueue.StepRefinesFifo` | src/utils/thread_pool/queue/LockFreeQueue.h:54-91 | each step is a step of a FIFO of at most capacity - 1 items ordered by reservation; pop gives up exactly on an empty queue, push exactly as `GivesUpIff` says |
| `MpscQueue.GivesUpIff` | src/utils/thread_pool/queue/LockFreeQueue.h:57-63 | push returns false exactly on a full queue with the current head, or when the tail has passed the head it read and stands, laps later, on the index behind it |
| `MpscQueue.PushGivesUpOnEmptyQueue` | src/utils/thread_pool/queue/LockFreeQueue.h:57-63 | a run of two producers after which push returns false on an empty queue |
| `MpscQueue.IndicesTellEmpty` | src/utils/thread_pool/queue/LockFreeQueue.h:93-97 | the stored indices are equal exactly when nothing is reserved and not popped |
| `MpscQueue.PoppedInOrder` | src/utils/thread_pool/queue/LockFreeQueue.h:68-91 | popped items are the first reserved ones, in order, each once and unchanged |
| `MpscQueue.OrderPerProducer` | src/utils/thread_pool/queue/LockFreeQueue.h:54-91 | what was popped of one producer's items is a prefix of what it pushed |
| `MpscQueue.AllDelivered` | src/utils/thread_pool/queue/LockFreeQueue.h:54-91 | with the queue empty and a producer idle all its items have been popped |
| `MpscQueue.PushedIsGiven` | src/utils/thread_pool/queue/LockFreeQueue.h:54-67 | over every run: what a producer has pushed and is pushing are the arguments of its calls of push, in order, without those of the calls that gave up |
| `MpscQueue.GivenIsPopped` | src/utils/thread_pool/queue/LockFreeQueue.h:54-91 | from the first call to the last pop, on every run: what has been popped of a producer's items is the beginning of the arguments of its calls, in order, and all of them once it is idle and the queue is empty |
| `MpscQueue.EverythingCanFinish` | src/utils/thread_pool/queue/LockFreeQueue.h:54-91 | every reserved slot can be released: from every reachable state there is a run without new pushes after which all pushes and pops have ended, the queue is empty and everything reserved has been popped in order |
| `MpscQueue.SpinEnds` | src/utils/thread_pool/queue/LockFreeQueue.h:84 | a spinning consumer waits for one producer that holds the slot, and that producer alone, by finishing its push, ends the spin |
| `MpscQueue.CasIsSafeIff` | src/utils/thread_pool/queue/LockFreeQueue.h:57-64 | a successful compare-and-swap keeps the invariant exactly when the ring is not full at that moment |
| `MpscQueue.SingleProducerNeverLaps` | src/utils/thread_pool/queue/LockFreeQueue.h:54-67 | with one producer the guard on the compare-and-swap always holds |
| `MpscQueue.LapLosesItems` | src/utils/thread_pool/queue/LockFreeQueue.h:57-66 | a run of two producers after which the unguarded compare-and-swap makes a ring that holds two items look empty |
| `SpscQueue.StepKeepsInv` | src/utils/thread_pool/queue/LockFreeQueue.h:11-47 | every shared access of the producer or the consumer keeps the invariant, without any assumption on the schedule |
| `SpscQueue.StepRefinesFifo` | src/utils/thread_pool/queue/LockFreeQueue.h:14-40 | each step is a step of a bounded FIFO; push and pop give up exactly on a full and on an empty queue |
| `SpscQueue.PoppedInOrder` | src/utils/thread_pool/queue/LockFreeQueue.h:14-36 | after any run the popped items are the first pushed ones, unchanged, in order, once |
| `SpscQueue.GivenIsPopped` | src/utils/thread_pool/queue/LockFreeQueue.h:14-36 | over every run the popped items are the first arguments of the calls of push that did not give up, unchanged and in order |
| `SpscQueue.EverythingCanFinish` | src/utils/thread_pool/queue/LockFreeQueue.h:14-40 | from every reachable state there is a run without a new push after which both sides are idle, the queue is empty and everything pushed has been popped in order |
| `Wakeup.StepKeepsInv` | src/net/context/EpollContext.cpp:120-152 | every step of a poster or of the loop keeps: `awake` is set exactly while one wakeup is on its way |
| `Wakeup.NoTaskIsStranded` | src/net/context/EpollContext.cpp:199-204 | over whole runs the eventfd never exceeds one, a sleeping loop with nobody posting has no task, none is lost or run twice |
| `Wakeup.RestIsReachableIff` | src/net/context/EpollContext.cpp:120-152 | from a reachable state the threads can come to rest without another post exactly if the loop's own pending post fits in the room left and, should the loop sleep with no wakeup on its way, some begun post fits |
| `Wakeup.RestMeansAllRun` | src/net/context/EpollContext.cpp:120-152 | over any run, the tasks pushed and still to be pushed are those from before and those named in the run's calls of post; a run that comes to rest has run exactly these, each once, in the order in which they entered the queue |
| `Wakeup.PostedInOrder` | src/net/context/EpollContext.cpp:138-147 | over any run, each thread's tasks enter the queue in the order in which its posts and batches named them |
| `Wakeup.SpinningLoopRunsNothing` | src/net/context/EpollContext.cpp:120-124 | while the loop spins in a push of its own no task is run, whatever anybody else does |
| `Wakeup.BatchOnSleepingLoop` | src/net/context/EpollContext.cpp:138-147 | a batch posted while all is at rest gets through exactly if it is smaller than the ring |
| `Wakeup.FullBatchSleeps` | src/net/context/EpollContext.cpp:138-147 | the run of a batch as large as the ring, 512 in `BatchOf512Sleeps`: all but one task are queued and the loop sleeps for good |
| `Wakeup.LoopPostsToFullRing` | src/net/context/EpollContext.cpp:120-124 | a run in which the ring is full when the loop posts: it spins for ever and no task is ever run |
| `ThreadPool.SpinBlockingQueue.Push` | src/utils/thread_pool/queue/BlockQueue.h:78-85 | appends, or drops the item when the queue is shut down |
| `ThreadPool.SpinBlockingQueue.PopOnce` | src/utils/thread_pool/queue/BlockQueue.h:87-100 | one locked turn: the first item, or no task when shut down and empty, or another turn |
| `ThreadPool.SpinBlockingQueue.Shutdown` | src/utils/thread_pool/queue/BlockQueue.h:102-107 | nothing but the flag changes |
| `ThreadPool.StepKeepsInv` | src/utils/thread_pool/thread_pool.cpp:25-41 | every step of submitters, workers and the joining thread keeps: tasks leave in FIFO order, each is with one worker or finished once |
| `ThreadPool.NothingAfterShutdown` | src/utils/thread_pool/queue/BlockQueue.h:78-85 | whatever happens after the shutdown, nothing more is accepted |
| `ThreadPool.AcceptedIsSubmitted` | src/utils/thread_pool/queue/BlockQueue.h:78-85 | over every run the pool accepts exactly the tasks submitted before the shutdown, in that order |
| `ThreadPool.JoinDrains` | src/utils/thread_pool/thread_pool.cpp:25-73 | when `join` has returned, every accepted task was taken in order and run exactly once, if and only if there was a worker or nothing to do |
| `ThreadPool.JoinCanReturn` | src/utils/thread_pool/thread_pool.cpp:25-73 | from every reachable state of a pool with workers there is a run without a submission after which `join` has returned, every worker has left its loop and every accepted task has been run |
| `ThreadPool.NoWorkersRunNothing` | src/utils/thread_pool/thread_pool.cpp:25-41 | a run of a pool without workers that leaves an accepted task not run |
| `WriteQueue.AdvanceSends` | src/net/context/EpollContext.cpp:429-440 | taking n sent bytes off the queue leaves exactly the unsent bytes from n on, at whatever boundary |
| `WriteQueue.AdvanceKeepsOrder` | src/net/context/EpollContext.cpp:429-440 | the buffers that leave are the first ones; the others keep identity and order |
| `WriteQueue.LeavesWhenSent` | src/net/context/EpollContext.cpp:429-440 | which buffers leave: a buffer does exactly when all bytes up to its end are among the n sent ones and those before its start do not use them up |
| `WriteQueue.OfferedIsPrefix` | src/net/context/EpollContext.cpp:386-402 | what one `writev` offers, with the IOV_MAX cut, begins the unsent bytes |
| `Connections.Connection.DoAsyncWriteOnce` | src/net/context/EpollContext.cpp:570-611 | the whole new state after one buffer is queued: accounting, high water mark, registration |
| `Connections.Connection.DoAsyncWriteBatch` | src/net/context/EpollContext.cpp:613-653 | the same for a batch, each buffer with its own callback |
| `Connections.Connection.Gather` | src/net/context/EpollContext.cpp:386-406 | the gathered buffers spell what is offered, none of them empty |
| `Connections.Connection.HandleWrite` | src/net/context/EpollContext.cpp:348-468 | the whole new state for every result of `writev`; the negative-total branch is shown dead |
| `Connections.Connection.HandleFin` | src/net/context/EpollContext.cpp:312-337 | the whole new state when the peer closes its side |
| `Connections.Connection.FailAllPendingWrites` | src/net/context/EpollContext.cpp:470-482 | every queued callback is called with false, in order, and the queue is empty |
| `Connections.Connection.CloseConnection` | src/net/context/EpollContext.cpp:484-508 | the connection leaves epoll and the map and its queued writes fail |
| `Connections.Connection.DoRegisterRead` | src/net/context/EpollContext.cpp:534-554 | registration of an existing connection, ignored after the peer has closed |
| `ConnectionSpec.ApplyKeepsInv` | src/net/context/EpollContext.cpp:348-653 | every handler keeps: sent + unsent = accepted bytes, the byte count, callback order, alternation of water marks, registration |
| `ConnectionSpec.RunKeepsInv` | src/net/context/EpollContext.cpp:348-653 | the same over every run, with the water marks and the read registration |
| `ConnectionSpec.SentKeepsBytes` | src/net/context/EpollContext.cpp:408-440 | any partial send keeps sent + unsent = accepted and the count equal to the unsent bytes |
| `ConnectionSpec.ReportedIsSent` | src/net/context/EpollContext.cpp:429-440 | `true` is reported only for buffers whose last byte has been sent |
| `ConnectionSpec.EveryCallbackOnce` | src/net/context/EpollContext.cpp:470-508 | once closed, every callback has been called exactly once, in order, first the `true` ones and then only `false` |
| `ConnectionSpec.ApplyKeepsLevels` | src/net/context/EpollContext.cpp:594-600 | high and low callbacks strictly alternate, high first |
| `ConnectionSpec.ApplyKeepsWithin` | src/net/context/EpollContext.cpp:461-467 | with both callbacks registered: above the high mark the flag is set, and the flag means at least the low mark |
| `ConnectionSpec.ArmedUntilSent` | src/net/context/EpollContext.cpp:312-337 | queued bytes that the loop watches stay watched until they are sent or failed, also when the peer closes its side |
| `ConnectionSpec.OpenIsArmed` | src/net/context/EpollContext.cpp:602-610 | on a connection registered for reading whose peer is open, whatever is queued is watched |
| `ConnectionSpec.ApplyKeepsDisarmed` | src/net/context/EpollContext.cpp:442-459 | with an empty queue the loop does not watch for writing, so it is not woken for nothing |
| `ConnectionSpec.WriteIsArmedIff` | src/net/context/EpollContext.cpp:602-610 | right after a write the loop watches for writing exactly when the descriptor is still in the epoll set |
| `Watching.LeavesSetIff` | src/net/context/EpollContext.cpp:442-459 | the descriptor of an open connection leaves the set exactly when a handler finds or makes the queue empty while the peer has closed or nothing is registered for reading |
| `Watching.DetachedForEver` | src/net/context/EpollContext.cpp:510-516 | over every run: once out of the set it is never watched again, nothing is sent, and what is queued stays queued until the close |
| `Watching.HalfClosedAnswerIsNeverSent` | src/net/context/EpollContext.cpp:312-331 | the peer closes its side, then one byte is written: it is queued for good |
| `ConnectionSpec.ApplyKeepsListening` | src/net/context/EpollContext.cpp:442-459 | a connection registered for reading whose peer is open stays in the epoll set |
| `ConnectionSpec.NothingOfferedIff` | src/net/context/EpollContext.cpp:389-406 | one call: nothing is offered exactly when all buffers in reach are empty, and then that call changes nothing |
| `ConnectionRuns.WhatIsSent` | src/net/context/EpollContext.cpp:408-440 | no handler but a `writev` that sends adds to the bytes sent, and that one adds the first unsent bytes, as many as it reports |
| `ConnectionRuns.ClosesIff` | src/net/context/EpollContext.cpp:408-427 | a handler ends an open connection exactly if it closes it or a write of something fails |
| `ConnectionRuns.LevelsAtMarks` | src/net/context/EpollContext.cpp:461-467 | each callback is called exactly at its mark, also registered alone: high when a write leaves more than 524288 unsent bytes and the flag is clear, low when a send leaves fewer than 8192 and it is set |
| `ConnectionRuns.RegisteredIff` | src/net/context/EpollContext.cpp:534-554 | what each handler does to the registrations: a read registration is ignored after the peer has closed, a half-close ends it |
| `ConnectionRuns.AcceptedIsWritten` | src/net/context/EpollContext.cpp:570-653 | a run accepts exactly the buffers that its writes and batches hand over, in order |
| `ConnectionRuns.BytesAreWritten` | src/net/context/EpollContext.cpp:348-653 | on every run, while the connection is open, sent and unsent bytes are together the bytes that the writes handed over |
| `Draining.SendKeepsDrainable` | src/net/context/EpollContext.cpp:408-440 | whatever one `writev` sends, the queue can run empty afterwards exactly if it could before |
| `Draining.RunsEmptyIff` | src/net/context/EpollContext.cpp:386-440 | some run of the write handler empties the queue exactly if it is empty, or its last buffer has unsent bytes and no IOV_MAX buffers in a row are without |
| `Draining.EmptyWhenAllSent` | src/net/context/EpollContext.cpp:429-440 | such a queue is empty as soon as its last byte has been sent, in any run of the handler |
| `Draining.EmptyBufferStays` | src/net/context/EpollContext.cpp:429-440 | one byte and then an empty buffer: the empty one stays and no run of the handler reports it |
| `Draining.LaterByteFreesIt` | src/net/context/EpollContext.cpp:429-440 | a byte written behind an empty buffer takes it along |
| `RpcFrame.BuildPacket` | test/test_rpc/rpc_client.py:96-127 | the encoder gives the packet exactly for arguments that pass its assertions |
| `RpcFrame.PacketSpelled` | test/test_rpc/rpc_client.py:114-127 | one packet byte by byte, with the marks and the request type as numbers |
| `RpcFrame.PacketPrefixFree` | test/test_rpc/rpc_client.py:114-127 | no packet begins another; equal packets are equal requests |
| `RpcMeaning.StepMeaning` | src/app/rpc/RpcServer.cpp:241-449 | a byte completes a request exactly when it ends that request's packet, is an error exactly when no packet continues so, and otherwise extends the frame |
| `RpcMeaning.RejectedIsDead` | src/app/rpc/RpcServer.cpp:241-449 | a byte is rejected only if no packet begins with the frame so far and it |
| `RpcMeaning.PartialIsViable` | src/app/rpc/RpcServer.cpp:241-449 | no parser state is a dead end: some packet continues every unfinished frame |
| `RpcAutomaton.RunAppend` | src/app/rpc/RpcServer.cpp:168-452 | reading in two parts is reading at once |
| `RpcParser.Parse` | src/app/rpc/RpcServer.cpp:168-452 | one call stops at the first event; bytes consumed, result and context are those of the one-byte automaton; waiting means everything was consumed; the inconsistent-buffer branches are dead |
| `RpcParser.RpcSession.OnData` | src/app/rpc/RpcServer.cpp:494-523 | the driver terminates, consumes the whole chunk, and dispatches what the automaton yields on it |
| `RpcStreams.ChunkingInvariance` | src/app/rpc/RpcServer.cpp:494-523 | any split of any stream yields the same events and the same residual state |
| `RpcStreams.RequestRoundTrip` | test/test_rpc/rpc_client.py:96-127 | any chunking of any concatenated packets delivers exactly their requests in order |
| `RpcStreams.PacketIsDeliveredIff` | src/app/rpc/RpcServer.cpp:241-449 | a packet is delivered whole from a state exactly when the parser is between frames |
| `RpcStreams.Resynchronisation` | src/app/rpc/RpcServer.cpp:243-266 | garbage without the start pair gives one error for each 0x0a, then the frame behind it is delivered |
| `RpcStreams.DeliveredRequestsOccur` | src/app/rpc/RpcServer.cpp:168-452 | on any bytes at all, the requests delivered occur as whole packets, in order and disjoint |
| `RpcResponse.BuildResponse` | src/app/rpc/RpcServer.cpp:153-166 | the bytes of a response frame |
| `RpcResponse.BuildErrorResponse` | src/app/rpc/RpcServer.cpp:137-149 | the bytes of an error frame |
| `RpcResponse.FramesSpelled` | src/app/rpc/RpcServer.cpp:137-166 | one response and one error byte by byte |
| `Bytes.BigEndian` | src/app/rpc/RpcServer.cpp:95-123 | integers are written and read most significant byte first |
| `RpcResponse.TryParseSound` | test/test_rpc/rpc_client.py:159-218 | on any buffer a frame is read only off bytes that spell it, and nothing behind it is lost |
| `RpcResponse.NoFrameIsSkipped` | test/test_rpc/rpc_client.py:159-218 | on any bytes, no frame begins at a byte that an attempt without a frame drops, whatever comes later |
| `RpcResponse.TryParseOnStream` | test/test_rpc/rpc_client.py:159-218 | on a stream of frames the first is taken as soon as it is whole and the buffer is left alone until then |
| `RpcResponse.DrainChunksOnStream` | test/test_rpc/rpc_client.py:159-218 | at any moment what has come of a stream of frames, in any chunks, gives its first frames, with less than the next one left over |
| `RpcResponse.ResponseRoundTrip` | src/app/rpc/RpcServer.cpp:137-166 | any chunking of the server's frames gives back exactly these frames |
| `RpcResponse.RpcClient.TryParseFrame` | test/test_rpc/rpc_client.py:159-218 | the receiver's attempt on its buffer, in place |
| `RpcResponse.RpcClient.RecvFrame` | test/test_rpc/rpc_client.py:220-252 | on any bytes the call computes `Receive`: what is returned, kept, left in the buffer and read from the socket |
| `RpcResponse.ReadUntilServes` | test/test_rpc/rpc_client.py:230-252 | on a stream of frames a call reads off frames up to the first with the id, keeps the others, and gives up only at a timeout or a close with the next frame not whole |
| `RpcResponse.OnlyTheRequested` | test/test_rpc/rpc_client.py:220-252 | on any bytes at all, a frame that is returned has the id asked for, and kept frames stay filed under their ids |
| `RpcResponse.GotIff` | test/test_rpc/rpc_client.py:220-252 | when the whole stream comes, a frame is returned exactly if one with the id is kept or in the stream |
| `RpcResponse.RequestedIsReturned` | test/test_rpc/rpc_client.py:220-252 | with distinct ids the frame asked for is returned and all others stay, kept or to come |
| `RpcResponse.EveryCallReturns` | test/test_rpc/rpc_client.py:220-252 | with distinct ids every call of any sequence of calls returns its own frame |
| `RpcResponse.LaterFrameReplaces` | test/test_rpc/rpc_client.py:231-237 | two frames with one id: a call for a third keeps the second and loses the first |
| `RpcResponse.ByIdKeepsAllIff` | test/test_rpc/rpc_client.py:231-237 | the table of kept frames loses one exactly when two different frames share an id |
| `RpcServer.Dispatch` | src/app/rpc/RpcServer.cpp:530-559 | the client decodes from the response bytes exactly one frame with the request's id: kind 2 with the handler's body and code 0, or kind 3 without a body and code 1 for bytes that are no request, 100 for an unknown function, 101 and 102 for a handler that throws on its parameter or response, 3 for one that throws anything else |
| `RpcServer.ReplyDecodes` | src/app/rpc/RpcServer.cpp:530-559 | the same for a response with any bytes behind it, which the client leaves alone |
| `RpcServer.RunResponds` | src/app/rpc/RpcServer.cpp:530-559 | on every run, each response posted or written is the one that its request deserves for what its handler did in that run |
| `RpcServer.ReceivedIsRead` | src/app/rpc/RpcServer.cpp:494-523 | over every run the server receives exactly the chunks that are read |
| `RpcServer.RunInOrder` | src/app/rpc/RpcServer.cpp:505-559 | over every run the pool takes parse results in the order in which they were read, and responses are written in the order in which the handlers finish |
| `RpcServer.StepKeepsInv` | src/app/rpc/RpcServer.cpp:494-559 | every step of loop and workers keeps: each parse result is in exactly one place, and what the connection accepted are whole responses |
| `RpcServer.SentIsWholeFrames` | src/net/context/EpollContext.cpp:570-611 | at every moment the bytes sent begin the concatenation of whole response frames |
| `RpcServer.NothingTwice` | src/app/rpc/RpcServer.cpp:505-512 | nothing is answered twice, whatever the schedule |
| `RpcServer.OneResponsePerRequest` | src/app/rpc/RpcServer.cpp:494-559 | for any chunking of k frames and any schedule there are exactly k responses once everything is idle, one for each request and with its id |
| `RpcServer.ClientReadsResponses` | test/test_rpc/rpc_client.py:159-252 | at any moment the bytes sent, in any chunks, parse to the first responses in the order they were written, with less than the next one left over; to all of them once flushed |
| `RpcServer.EveryCallGetsItsResponse` | test/test_rpc/rpc_client.py:220-252 | on every run that reads packets with distinct ids in any chunks, once flushed: a client that receives the sent bytes in any chunks and asks for the responses in any order gets for each request its handler's body with code 0, or the error code of what that handler did in the run |
| `RpcProgress.EverythingCanBeAnswered` | src/app/rpc/RpcServer.cpp:494-559 | from every reachable state with a worker and an open connection, whose posted responses fit in an `int`, there is a run that reads nothing more after which every request read has its response and all responses are sent |
| `Decimal.StollOfToString` | src/app/redis/redis.h:85-95 | reading back a decimal length or integer gives the number |
| `Decimal.StollReads` | src/app/redis/redis.h:85-95 | white space, an optional sign, digits and anything behind them: the number if it fits in 64 bits, and none without digits |
| `Decimal.StollOnlyNumbers` | src/app/redis/redis.h:85-95 | only a text of that form is read as a number, and as that number |
| `Resp.ParseValueAt` | src/app/redis/redis.h:50-113 | the parser with its moving cursor computes the parse function, whose cursor strictly advances on success; bulk lengths below -1 apart |
| `Resp.ParseElementsAt` | src/app/redis/redis.h:115-133 | the array loop computes the elements in order |
| `RespStreams.ParseOfMore` | src/app/redis/redis.h:50-133 | a parse that does not ask for more is unchanged by appended bytes |
| `RespStreams.ParseOfPadded` | src/app/redis/SimpleRedisClient.cpp:185-199 | the parser on a received prefix with zeros behind it, exactly: the same value, a request for more, or an unknown type when the cut is before a type byte |
| `RespStreams.StrictPrefixIsIncomplete` | src/app/redis/redis.h:50-133 | every strict prefix of a value that parses asks for more, nested arrays included |
| `RespStreams.OnlyArraysAreCut` | src/app/redis/redis.h:115-133 | only a cut in an array that has elements can be before a type byte |
| `RespEncoding.BuildRESPCommand` | src/app/redis/redis.h:137-145 | builds the encoding of the array of these bulk strings |
| `RespEncoding.ParseOfEncode` | src/app/redis/redis.h:50-133 | in any surroundings an encoded value, null arrays included, parses to itself, a null array to an empty one, and the cursor stops exactly behind it |
| `RespEncoding.NullArrayReads` | src/app/redis/redis.h:122-125 | in any surroundings the five bytes of a null array parse to an empty array with the cursor behind them |
| `RespEncoding.LineReads` | src/app/redis/redis.h:50-133 | a line of any text, in any surroundings: the value it stands for, or exactly how the parse fails for a bad number, a length below -1, an unknown type and a bulk string without its bytes or its end of line |
| `RespEncoding.FirstFailureCounts` | src/app/redis/redis.h:115-133 | an array fails as its first element that does not parse, after any well-formed ones |
| `RespEncoding.CommandRoundTrip` | src/app/redis/redis.h:93-145 | the same for built commands, with any bytes in the arguments |
| `RespEncoding.PrefixAsksForMore` | src/app/redis/redis.h:50-133 | every strict prefix of an encoding asks for more bytes |
| `RespEncoding.EncodingIsPrefixFree` | src/app/redis/redis.h:137-145 | no encoding begins another; equal encodings are equal values, null arrays included |
| `RespEncoding.ArrayCutBetweenElements` | src/app/redis/SimpleRedisClient.cpp:185-199 | an array of two integers that is cut between them: taken for garbage with padding, incomplete without |
| `ReadBuffer.SimpleBuffer.Read` | src/net/context/EpollContext.h:96-105 | drops the consumed bytes, keeps the others in order, zeros behind them |
| `ReadBuffer.SimpleBuffer.Clear` | src/net/context/EpollContext.h:91-94 | empties the buffer and zeroes it |
| `RedisReader.RedisConnection.Read` | src/app/redis/SimpleRedisClient.cpp:185-220 | the read callback computes one turn: cursor, promises taken, values given |
| `RedisReader.RedisConnection.HandleRead` | src/net/context/EpollContext.cpp:292-310 | new bytes are appended, one turn is made, the consumed bytes are dropped |
| `RedisReader.RedisConnection.OnWritten` | src/app/redis/SimpleRedisClient.cpp:171-179 | a written command queues its promise, a failed one fails it |
| `RedisReader.TurnOf` | src/app/redis/SimpleRedisClient.cpp:185-220 | one turn on a stream of any well-formed replies, null arrays included, exactly: complete replies resolve the first promises in order, and where the cursor stops |
| `RedisReader.TurnRunsOut` | src/app/redis/SimpleRedisClient.cpp:206-214 | with more complete replies than promises the first one without a promise is dropped and the turn ends behind it |
| `RedisReplies.ReceiveReassembles` | src/net/context/EpollContext.cpp:292-310 | for any well-formed replies, null arrays included, each received piece resolves the promises of those that it completes, and exactly the bytes of the incomplete one are held if and only if the cut is not before an element of an array |
| `RedisReplies.FlatIsClean` | src/app/redis/redis.h:115-133 | a cut between replies or in a reply that is no array with elements is never before an element |
| `RedisReplies.FullMeansTooLong` | src/net/context/EpollContext.cpp:292-295 | the buffer is full with an incomplete reply only if that reply is longer than the buffer |
| `RedisReplies.AnyChunking` | src/app/redis/SimpleRedisClient.cpp:185-220 | a whole stream of replies, in any chunks that `read` can return and that do not end before an element of an array, resolves the waiting promises with these replies in order; without arrays in any chunks at all |
| `RedisPairing.ServerReadsNext` | src/app/redis/redis.h:137-145 | a server with this parser reads exactly the next command, as soon as it is whole and not before |
| `RedisPairing.StepKeepsInv` | src/app/redis/SimpleRedisClient.cpp:147-220 | every step of client, loop, network and server keeps: `promises` are the written commands whose replies have not been delivered, in order |
| `RedisPairing.EveryPromiseHasItsReply` | src/app/redis/SimpleRedisClient.cpp:147-220 | on every run in which no received piece ends before an element of an array, the k-th promise gets the reply of the server's k-th answer to the command of the k-th call, as the parser reads it; no reply finds no promise, none gets a value and an error |
| `RedisPairing.RunKeepsRecords` | src/app/redis/SimpleRedisClient.cpp:147-180 | over every run the recorded commands and replies are those of the calls and of the server's answers, in order |
| `RedisPairing.ReadHasRoom` | src/net/context/EpollContext.cpp:292-295 | `read` is asked for zero bytes, which it would report as a closed peer, only if the next reply is longer than the buffer; a next reply that fits can always be received whole |
| `RedisPairing.AllAnsweredAllResolved` | src/app/redis/SimpleRedisClient.cpp:185-220 | once all commands are answered and the wire is empty every promise has its value |
| `RedisProgress.EveryCommandCanBeAnswered` | src/app/redis/SimpleRedisClient.cpp:147-220 | from every reachable state with an open connection whose replies on their way fit in the read buffer there is a run without new commands after which every promise has its value |
| `RedisPairing.AbandonedIff` | src/app/redis/SimpleRedisClient.cpp:170-180 | on every run that ends in a close, a promise has neither value nor error exactly when its command was sent to the last byte and the last byte of its reply was not received |
| `RedisPairing.CommandIsAbandoned` | src/app/redis/SimpleRedisClient.cpp:170-180 | one command is written and the connection closed before the reply: its promise is never settled |

## Left out

- `MPMCQueue` (src/utils/thread_pool/queue/LockFreeQueue.h:101): its slots carry no lap number, so exactly-once is no invariant; only the benchmark uses it.
- Weak memory orders, spin backoff, cache-line alignment and moved-from objects: all steps are sequentially consistent.
- Ring queues, the wakeup, the pool's threads and the two end-to-end systems are step systems on values, since other threads come between any two accesses; the code that one thread runs alone is a class or a method.
- `SpinLock` and real system calls; a descriptor that is used again after it was closed, and the write-only connection that a write makes after a close.
- Null write callbacks, and callbacks that throw.
- Stopping the event loop, `execute1` and its timer, timers, accepting, Nacos, `formatResponse`, generated protobuf code, the logger, the socket wrappers, the command line and the benchmarks.
- `EpollContext` as the owner of many connections: each connection is modelled alone, since handlers touch only their own.
- `ThreadPool::cb_run` and `try_pop` of the blocking queue: the callback thread runs the same loop on another queue.
- `Resp.ParseValueAt`: a bulk length below -1 is a result of its own; the source's cursor then moves backwards and may parse the same bytes again, and nothing is said about what follows.
- `Resp.ParseElementsAt`: an array length for which `reserve` cannot get memory makes the source throw before it reads an element; the model reads the elements.
- `RedisReader.RedisConnection.Read`: after a bulk length below -1 the source goes on from an earlier byte; the model stops with `lost`.
- `RedisReader.RedisConnection.HandleRead`: the callback that the loop makes with size zero when the peer closes; it parses nothing.
- `RedisPairing.EveryPromiseHasItsReply`: what happens after a received piece ends before an element of an array; `RedisReplies.ReceiveReassembles` says that one byte is then lost.
- `Connections.Connection.HandleFin`: the read callback with size zero that ends it, which may close the connection.
- `Connections.Connection.CloseConnection`: the closing callback and its place in the order.
- `Connections.Connection.DoRegisterRead`: which read callback is stored.
- `RedisPairing.StepKeepsInv`: the client's choice among its connections, and the high-water flag that its code never sets; each connection is modelled alone.
- `RpcServer.Dispatch`: a handler is what it returns or throws, chosen freely for each call.
- `RpcServer.ClientReadsResponses`: bodies of 2^32 bytes and more, whose length field the encoder cuts to 32 bits.
- `RpcResponse.RpcClient.RecvFrame`: the deadline of the client's socket; a timeout is the end of the list of chunks.
