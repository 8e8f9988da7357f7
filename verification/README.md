# Storm, modelled in Dafny

Storm is an RPC framework: callers issue requests through a `ServiceProxy`, a net thread moves bytes between
endpoints, command queues and sockets, and timers and expiry lists bound how long anything waits. This project models
the parts of it whose correctness spans several functions or several threads, and proves what they promise.

| file | what it models |
|---|---|
| `Bytes.dfy` | bytes, 32-bit words, concatenation |
| `IoBuffer.dfy` | the growable, compacting buffer, as a class over an array |
| `Framing.dfy` | length and line framing and the extraction loop, on byte sequences |
| `SocketHandler.dfy` | the decoders, `onData` and the read loop, over the buffer class |
| `SocketIo.dfy` | the poller's interest table and the partial-write loops of one socket |
| `SendPath.dfy` | endpoint buffer, command queue, connect and write of one connection, over all interleavings |
| `SlotAllocator.dfy` | the socket slot allocator, alone and over all interleavings |
| `TimeList.dfy` | the expiry list with its key index |
| `Timer.dfy` | the timer with its multimap and hash index |
| `Listener.dfy` | the listener's two expiry lists, over all runs of its events |
| `RpcLifecycle.dfy` | the life of an RPC call, over all interleavings of callers and net thread |
| `StaleDeadlines.dfy` | deadlines left behind in the timeout list, and whom they can time out |
| `Replies.dfy` | which replies reach their request |
| `Closes.dfy` | which requests the close of a connection completes, and how |
| `Endpoints.dfy` | active and inactive endpoints and their reconciliation with the registry |
| `Encode.dfy` | C-style escaping and the two percent-encodings |
| `Strings.dfy` | splitting and trimming |
| `UrlParam.dfy` | URL parameter join and split |
| `Config.dfy` | the configuration parser and printer |
| `ConfigText.dfy` | what a configuration text means, line by line, without the parser |
| `RollLog.dfy` | size-based log rotation |

`dafny verify dfyconfig.toml` verifies the project.

## How the source is represented

- Code that works in place is a class with the source's fields, or a method with the source's loop; its contract equates
  the new state with a function of the old one, and the promises are proved about that function.
- Concurrency is a state machine whose events are critical sections and single accesses to shared state: the RPC life
  cycle, the sending path and the slot allocator. A *run* is any sequence of enabled events, so a theorem about runs
  is a theorem about every interleaving. In the sending path the two write loops of the net thread are one event each,
  because everything they touch belongs to the net thread alone.
- System calls answer from a script of outcomes (bytes taken or given, would-block, interrupted, failed) that the
  theorems quantify over. The clock is a parameter.
- 32-bit arithmetic is modelled where it matters: buffer capacities, packet sizes, request ids, timer ids, the slot
  counter and the log's reopen interval. Times of expiry lists are unbounded.
- Objects are identified by numbers in order of creation: messages, endpoints, timers.
- `parseString` keeps a stack of pointers into the tree; the model keeps the open sections themselves on the stack and
  puts them back when they are closed. `PointerParse` is the parser with its pointers, and `ParseFollowsPointers` proves
  that the two give the same tree and the same errors.

## What the code does not promise, and exactly when it does

- The length decoder accepts headers below 4 and then hands out bytes outside the frame: `LengthPacketInsideFrame`
  proves that this happens exactly for those headers. The extraction functions give such streams their own verdict,
  so the chunking theorems and the extraction loop cover every byte stream.
- A request is not always completed by the first sweep at or after its own deadline. Callers read the clock before
  they take the timeout list's lock, so entries can stand out of order and the sweep stops early.
  `DueRequestCanOutliveSweep` builds such a run, `OutlivesSweepIff` says exactly which requests outlive a sweep, and
  `SweepCompletesOverdue` gives the bound that does hold, counted from the step that enters the list.
- Request ids are 32 bits wide and come round again. A request saved under an id that is still pending displaces the
  other one for ever: `SecondRoundCanLose` builds the run, `NothingLostIff` and `LostForEver` say that this is the only
  way to lose a request. An id that is free but whose old deadline the net thread is about to drop is unsafe too:
  `SaveSafeIff` gives the exact condition on a save, and `FirstRoundNeverReuses` shows that the first 2^32 requests
  meet it.
- A caller enters its deadline after the request is saved, so an early reply leaves a stale deadline behind. It is
  harmless as long as ids are not used again (`StaleDeadlinesHarmless`); after that it can time out a later request at
  once (`StaleDeadlineCanHurt`). `SaveUnhurriedIff` gives the exact condition on a save.
- A request is sent before it is saved, so a reply can come too early and be dropped (`AnsweredRequestCanTimeOut`);
  `ReplyArrivesIff` says exactly which replies arrive.
- Timer ids come round as well. The indexes of `Timer` agree after `addTimer` exactly when the id is not that of a live
  timer (`AddAgreesIff`); `LiveIdComesRound` reaches the other case.
- `TimeList` fires every due key exactly when no due entry stands behind one that is not (`SweepFiresAllDue`); a clock
  that does not run backwards between adds is enough (`TimeListRefinesMap`).
- `getNewSocket` can return NULL while a slot is idle when the slot count does not divide 2^31 and the counter wraps
  inside the scan: `WrapMissesIdleSlot` is an instance and `NullMeansFullIff` the exact condition. Other callers can make
  it miss idle slots for every slot count (`ContentionMissesIdleSlot`), but not more of them than the ids they draw
  (`MissedAtMostOthersDraws`).
- `splitURLParam` inverts `joinURLParam` exactly for the separators that `SeparatorsIff` describes.
- `prepareLogFile` returns exactly with at least one file and a positive size limit (`PrepareReturnsIff`).
- `IoBuffer::reserve` needs room it can reach by doubling within 32 bits; `FitsIff` says exactly when it can.

Where the source's text and intent differ, the model follows the intent in two places. `onClose` of the proxy reads a
message's id after completing it, when the message may be gone; the model takes the id first. `moveToInactive` erases
an iterator of the inactive list from the active one; the model erases it from the inactive list, and
`InactiveEndpointCanFail` proves that this branch is reachable.

## Model

| member | source | states |
|---|---|---|
| RpcLifecycle.CompletedAtMostOnce | source/framework/storm_service_proxy.cpp:92-162 | in every interleaving each request is completed at most once; a completion is Ok exactly when it carries a response, and that response's id is the request's own; a returned synchronous caller was completed exactly once |
| RpcLifecycle.RunKeepsOwned | source/framework/storm_service_proxy.cpp:296-382 | the ownership invariant behind it: pending requests sit under their own id and are not in the net thread's hands, over every run |
| RpcLifecycle.CompletionIsFinal | source/framework/storm_service_proxy.cpp:340-353 | whatever happens later, status and response of a completed request never change |
| RpcLifecycle.NoRequestLost | source/framework/storm_service_proxy.cpp:92-162 | after every run that never saves a request under an id still in use, every saved uncompleted two-way request is pending under its id or held by the net thread, and once its deadline step has run a pending one is in the timeout list |
| RpcLifecycle.NothingLostIff | source/framework/storm_service_proxy.cpp:368-371 | over any run, from any accounted state, no request is lost if and only if no request is saved under an id that is still pending |
| RpcLifecycle.LostForEver | source/framework/storm_service_proxy.cpp:330-353 | a request displaced from the pending map is never completed, whatever happens later |
| RpcLifecycle.SaveSafeIff | source/framework/storm_service_proxy.cpp:324-328 | saving is followed by nothing lost and no pending request without deadline, in every careful continuation, if and only if the id is neither pending nor about to be dropped by the net thread |
| RpcLifecycle.FirstRoundNeverReuses | source/framework/storm_service_proxy.cpp:296-301 | the first 2^32 requests meet that condition by themselves |
| RpcLifecycle.SecondRoundCanLose | source/framework/storm_service_proxy.cpp:296-301 | a run in which request 2^32 is saved over request 0, which is lost |
| RpcLifecycle.SweepFiresDuePrefix | source/util/util_timelist.h:63-74 | a sweep that ends has fired exactly the leading due entries of the list it began with, although other threads run meanwhile |
| RpcLifecycle.SweepCompletesOverdue | source/framework/storm_service_proxy.cpp:88-104 | when a sweep ends, no id is pending, for a request past its deadline step, that last entered the timeout list 3000 ms or more before the clock reading of the sweep |
| RpcLifecycle.OutlivesSweepIff | source/framework/storm_service_proxy.cpp:88-104 | a pending request is uncompleted when a sweep ends if and only if its entry or one ahead of it was not due, or another request was saved over it meanwhile; otherwise it was completed with TimeOut and no reply; for every interleaving |
| RpcLifecycle.DueRequestCanOutliveSweep | source/framework/storm_service_proxy.cpp:324-328 | a concrete run in which a request is pending after a sweep later than its own deadline |
| StaleDeadlines.SaveUnhurriedIff | source/framework/storm_service_proxy.cpp:324-328 | after a save no continuation whatsoever times the request out before its own clock reading plus 3000 ms if and only if its id is fresh: no other caller with that id has still to enter its deadline, and no entry under it is in the timeout list, but for one a sweep holds already or the net thread is about to drop |
| StaleDeadlines.NeverTimedOutEarly | source/framework/storm_service_proxy.cpp:92-104 | in every run, a request saved under a fresh id is never timed out early |
| StaleDeadlines.StaleDeadlinesHarmless | source/framework/storm_service_proxy.cpp:151-161 | among the first 2^32 requests nobody is timed out early: deadlines added after an early reply are harmless |
| StaleDeadlines.StaleDeadlineCanHurt | source/framework/storm_service_proxy.cpp:296-328 | a run that never saves under an id in use, and in which request 2^32 is completed with TimeOut at the clock value it has just read, by the stale deadline of request 0 |
| StaleDeadlines.SweepCompletesOwnOverdue | source/framework/storm_service_proxy.cpp:88-104 | when a sweep ends, a pending request that was saved under a fresh id entered its own deadline less than 3000 ms before the clock reading of the sweep |
| Replies.ReplyArrivesIff | source/framework/storm_service_proxy.cpp:143-162 | for every interleaving with callers: a reply under the id of an uncompleted request completes it, with status Ok and this reply, if and only if the request is pending when the reply comes in |
| Replies.AnsweredRequestCanTimeOut | source/framework/storm_service_proxy.cpp:320-328 | a run in which the reply comes in between sending and saving, is dropped, and the request times out |
| Replies.NoEndpointIsNetError | source/framework/storm_service_proxy.cpp:311-318 | in every reachable state a two-way request whose caller found no endpoint has been completed with NetError |
| Closes.CloseCompletesIff | source/framework/storm_service_proxy.cpp:106-141 | for every interleaving with callers: of the saved requests a close completes exactly those pending on its endpoint, without a reply, with TimeOut, NetError or Error exactly by the kind of close; all others go on waiting, and stay pending unless another request is saved over them |
| Closes.CloseTakes | source/framework/storm_service_proxy.cpp:116-127 | the close takes exactly the requests pending on its endpoint out of the pending map |
| Framing.ReassemblyIgnoresChunking | source/net/socket_handler.cpp:13-28 | for every byte stream, both framings and every cutting into read rounds, packets, verdict and remaining buffer are those of the whole stream |
| Framing.FramedMessagesArrive | source/util/util_protocol.h:11-64 | encodings of any payloads that fit, cut anyhow, deliver exactly those payloads in order with nothing left over |
| Framing.DrainConserves | source/net/socket_handler.cpp:13-28 | for every stream, bytes received are the frames of the delivered packets followed by the buffered rest |
| Framing.FramesDrain | source/util/util_protocol.h:11-64 | decoding inverts encoding, for any sequence of payloads |
| Framing.FrameOfDecoded | source/util/util_protocol.h:42-64 | encoding inverts decoding: re-encoding a decoded packet gives the bytes it consumed |
| Framing.DrainAppend | source/net/socket_handler.cpp:13-28 | draining a longer stream continues exactly where draining the shorter one stopped |
| Framing.LengthPacketInsideFrame | source/util/util_protocol.h:53-61 | the packet lies inside the consumed bytes if and only if the header is at least 4 |
| Framing.ZeroHeaderLeavesFrame | source/util/util_protocol.h:53-61 | an instance: a header of zero gives a packet of 2^32 - 4 bytes and consumes nothing |
| Framing.LineVerdict | source/util/util_protocol.h:69-88 | a line ends at the first CRLF, starting at most at maxLen; error exactly when maxLen + 2 bytes are there and no CRLF starts at offsets 0 to maxLen |
| Framing.LengthVerdict | source/util/util_protocol.h:42-64 | error exactly for a size above maxLen, less exactly for a frame not complete yet; fewer than four bytes wait |
| Framing.DrainFailsIff | source/net/socket_handler.cpp:13-28 | extraction fails if and only if the stream is some whole frames followed by bytes the decoder refuses, and is undefined if and only if they are followed by a size below 4 |
| Framing.ConnectionFailsIff | source/net/socket_handler.cpp:13-28 | the same for a connection, however its bytes are cut into read rounds |
| Framing.PacketShape | source/util/util_protocol.h:69-88 | every in-frame packet consumes at least 2 of the bytes present, so extraction terminates |
| IoBuffers.IoBuffer.ReadN | source/net/io_buffer.h:95-102 | drops a prefix of the contents and changes nothing but the two offsets |
| IoBuffers.IoBuffer.WriteN | source/net/io_buffer.h:104-116 | accepts the bytes behind the tail; the in-place left shift keeps the contents |
| IoBuffers.IoBuffer.DoubleCapacity | source/net/io_buffer.h:125-132 | doubles the capacity and keeps the contents |
| IoBuffers.IoBuffer.Reserve | source/net/io_buffer.h:134-138 | terminates with room for the request; capacity unchanged or below twice tail plus request; contents kept |
| IoBuffers.IoBuffer.PushBack | source/net/io_buffer.h:141-151 | appends the bytes to the contents |
| IoBuffers.IoBuffer.PushWord | source/net/io_buffer.h:152-159 | appends the four bytes of a word, most significant first |
| IoBuffers.FitsIff | source/net/io_buffer.h:125-138 | the doubling loop ends within 32 bits if and only if some number of doublings of the capacity makes room and is below 2^32 |
| IoBuffers.Grown | source/net/io_buffer.h:134-138 | the capacity doubling reaches: enough, and unchanged or less than twice the need |
| SocketHandlers.Encode | source/util/util_protocol.h:11-17 | a fresh buffer holding exactly the frame of the payload |
| SocketHandlers.DecodeLength | source/util/util_protocol.h:42-64 | the length decoder's answer, what it consumes, and that the packet it points at is still in place afterwards |
| SocketHandlers.DecodeOneLine | source/util/util_protocol.h:70-88 | the same for the line decoder |
| SocketHandlers.SocketHandler.OnData | source/net/socket_handler.cpp:13-28 | delivers exactly the packets of the buffer up to the first answer outside its frame, gives the verdict of the extraction for every stream, and leaves the rest |
| SocketHandlers.SocketHandler.HandleRead | source/net/socket_loop.cpp:182-226 | a round that ends quietly is one read round of the reader; end of file or an error closes and delivers nothing |
| SocketHandlers.RoundMeans | source/net/socket_loop.cpp:191-215 | a read round takes in the data up to the first answer that stops it, and ends quietly exactly when that answer is EAGAIN |
| SocketIo.SendSocketMoves | source/net/socket_loop.cpp:394-441 | for every pattern of partial writes, the wire grows by a prefix of what is owed, and what remains owed is exactly the rest |
| SocketIo.HandleWriteMoves | source/net/socket_loop.cpp:228-272 | the same for a write-ready event |
| SocketIo.RoomDrainsQueue | source/net/socket_loop.cpp:237-267 | a write event that always has room puts the whole queue on the wire and closes nothing |
| SocketIo.SendSocketClosesIff | source/net/socket_loop.cpp:399-440 | sending closes the connection if and only if nothing was queued and a failure, or a write of nothing, comes before everything is taken or there is no more room |
| SocketIo.HandleWriteClosesIff | source/net/socket_loop.cpp:237-271 | a write event closes it if and only if such an answer comes before the queue is drained or there is no more room |
| SocketIo.DrainedDisarms | source/net/socket_poller.cpp:60-82 | once the queue is drained an outgoing socket is registered for reading only; an accepted one keeps its registration |
| SocketIo.HandleWriteArmed | source/net/socket_poller.cpp:37-82 | handling a write event never leaves a non-empty queue without write interest |
| SocketIo.SendSocketArmed | source/net/socket_loop.cpp:399-440 | neither does sending |
| SocketIo.Closed | source/net/socket_loop.cpp:95-121 | a closed descriptor leaves neither mask nor kernel registration behind |
| SocketIo.Socket.Send | source/net/socket_loop.cpp:394-441 | the loop computes the function the theorems are about |
| SocketIo.Socket.WriteReady | source/net/socket_loop.cpp:228-272 | the loop computes the function the theorems are about |
| SendPath.BytesConserved | source/framework/storm_service_proxy.cpp:19-61 | over every interleaving, wire, write queue, queued sends and endpoint buffer are in this order exactly the bytes handed in, while the connection lives; the wire is always a prefix of them |
| SendPath.PendingOutputArmed | source/net/socket_loop.cpp:165-180 | in every reachable state of a connected socket, accepted or outgoing, a non-empty write queue has write interest armed |
| SendPath.SendsFindAConnection | source/net/socket_loop.cpp:394-398 | as long as the connection has not closed, a queued send command finds it connected, so none is dropped |
| SendPath.FramesArriveWhole | source/util/util_thread.h:104-129 | sender and receiver together: the receiver gets a prefix of the payloads, whole and in order, however writes and reads are cut, and all of them once nothing is left to send |
| SendPath.BenignRunSurvives | source/net/socket_loop.cpp:95-121 | a connection only closes for a reason: not in a run in which connecting succeeds, writing does not fail, nobody closes and frames are not empty |
| SendPath.EverythingCanArrive | source/framework/storm_service_proxy.cpp:19-61 | nothing is stuck: after any such run and one more frame with a free slot, the net thread can bring every byte handed in onto the wire |
| SendPath.ClosedIsReset | source/framework/storm_service_proxy.cpp:30-42 | after a close the endpoint has no id, no connection and no buffered bytes, and poller and queue are empty |
| SlotAllocator.NoSlotGrantedTwice | source/net/socket_loop.cpp:75-93 | under every interleaving of callers, a slot is given back between two grants of it |
| SlotAllocator.ScanCoversIff | source/net/socket_loop.cpp:75-93 | run alone, the scan looks at every slot if and only if the counter does not wrap inside it or the slot count divides 2^31 |
| SlotAllocator.TurnsDiffer | source/net/socket_loop.cpp:75-93 | under the same condition it looks at no slot twice |
| SlotAllocator.NullMeansFullIff | source/net/socket_loop.cpp:75-93 | "NULL only if every slot is busy" holds for all slot contents if and only if the same condition holds |
| SlotAllocator.WrapMissesIdleSlot | source/net/socket_loop.cpp:75-93 | three slots and a counter two below the wrap: NULL with an idle slot |
| SlotAllocator.MissedAtMostOthersDraws | source/net/socket_loop.cpp:75-93 | under every interleaving, with a slot count that divides 2^31: of the slots idle during a whole call that returns NULL there are at most as many as ids other callers drew meanwhile |
| SlotAllocator.ContentionMissesIdleSlot | source/net/socket_loop.cpp:75-93 | the bound is sharp: a run in which one draw by another caller makes a call return NULL beside a slot that is idle throughout |
| SlotAllocator.SlotTable.GetNewSocket | source/net/socket_loop.cpp:75-93 | reserves the first idle slot in scan order and nothing else, and leaves the counter at its value after the turns taken |
| TimeLists.TimeListRefinesMap | source/util/util_timelist.h:42-74 | over every run with a non-decreasing clock, the list agrees with a plain map of deadlines after each call, and each sweep fires exactly the due keys, each once, earliest first |
| TimeLists.SweepFiresAllDue | source/util/util_timelist.h:63-74 | the early exit misses no due key if and only if no due entry stands behind one that is not |
| TimeLists.SweepDeadlines | source/util/util_timelist.h:63-74 | without any assumption on order, a sweep removes exactly what it fires, nothing twice and only due keys |
| TimeLists.AppendDeadlines | source/util/util_timelist.h:42-52 | add binds the key to its new deadline and leaves the others |
| TimeLists.RemoveDeadlines | source/util/util_timelist.h:54-61 | del unbinds the key and leaves the others |
| TimeLists.TimeList.Add | source/util/util_timelist.h:42-52 | keeps index and list in bijection and re-files the key at the back |
| TimeLists.TimeList.Del | source/util/util_timelist.h:54-61 | keeps the bijection and removes the key |
| TimeLists.TimeList.Timeout | source/util/util_timelist.h:63-74 | keeps the bijection; fires and removes the due prefix |
| Timers.Timer.AddTimer | source/util/util_timer.cpp:6-21 | files the new timer in both indexes, which agree afterwards if and only if the id drawn was not that of a live timer |
| Timers.AddAgreesIff | source/util/util_timer.cpp:18-19 | filing a node under an id in use always breaks the agreement of the indexes, and under a free id never does |
| Timers.LiveIdComesRound | source/util/util_timer.cpp:9-19 | a timer that lives for 2^32 further ones: its id is drawn again and the indexes no longer agree |
| Timers.Timer.DelTimer | source/util/util_timer.cpp:27-46 | succeeds exactly for live ids, removes exactly that timer from both indexes |
| Timers.Timer.Update | source/util/util_timer.cpp:48-70 | fires every timer due at entry exactly once in expiry order, removes one-shots, reschedules repeaters at ms plus duration, leaves the others alone, and terminates for duration 0 |
| Timers.FiledOnce | source/util/util_timer.cpp:6-70 | agreement of the indexes means: every node filed under its own expiry, exactly once |
| Timers.DueIds | source/util/util_timer.cpp:48-65 | what the loop has fired when it stops is exactly what was due |
| Listener.ConnectionsWatched | source/framework/storm_listener.cpp:26-85 | over every run the two lists are disjoint and hold only open connections, and every open connection is in one of them or has a close queued |
| Listener.SweepLeavesNoneDue | source/framework/storm_listener.cpp:101-104 | after a sweep no listed connection is due |
| Listener.ListsAreMaps | source/framework/storm_listener.cpp:26-128 | in every reachable state each event does to the two lists what it should do to two maps of deadlines; a connection is turned away exactly at the limit, and a sweep queues a close for exactly the due connections |
| Listener.StormListener.Accepted | source/framework/storm_listener.cpp:26-36 | over the connection limit a close is queued, otherwise the id enters the empty-connection list |
| Listener.StormListener.GotPacket | source/framework/storm_listener.cpp:65-68 | the id moves from the empty-connection list to the back of the keep-alive list |
| Listener.StormListener.SocketClosed | source/framework/storm_listener.cpp:48-52 | the id leaves both lists |
| Listener.StormListener.Tick | source/framework/storm_listener.cpp:101-128 | both sweeps run and queue a close for each id they fire |
| Endpoints.EndpointsConserved | source/framework/storm_service_proxy.cpp:384-441 | after any run no endpoint is listed twice and the lists hold exactly as many endpoints as were ever created |
| Endpoints.UsedEndpointStays | source/framework/storm_service_proxy.cpp:384-441 | an endpoint that was ever active stays in one of the lists |
| Endpoints.ReconcileConserves | source/framework/storm_service_proxy.cpp:402-441 | reconciliation yields exactly the endpoints there were plus the ones it creates |
| Endpoints.UpdateFollowsRegistry | source/framework/storm_service_proxy.cpp:414-435 | afterwards the active addresses are the registry's list, in order |
| Endpoints.UpdateCreatesMissing | source/framework/storm_service_proxy.cpp:414-435 | under each address an update creates as many endpoints as the registry lists it more often than there were endpoints with it |
| Endpoints.UpdateLeavesUnused | source/framework/storm_service_proxy.cpp:402-441 | the nested loops are one walk over the known endpoints, active ones first: what the list does not need is inactive afterwards, in its old order |
| Endpoints.WantedEndpointStaysActive | source/framework/storm_service_proxy.cpp:418-427 | a known endpoint whose address is listed and unique is active afterwards |
| Endpoints.MoveConserves | source/framework/storm_service_proxy.cpp:384-400 | moving a known endpoint only moves it |
| Endpoints.MoveMeans | source/framework/storm_service_proxy.cpp:384-400 | the endpoint goes to the end of the inactive list and all others keep their places |
| Endpoints.InactiveEndpointCanFail | source/framework/storm_service_proxy.cpp:392-398 | the branch that erases from the inactive list is reachable |
| Endpoints.EndPointLists.UpdateEndPoints | source/framework/storm_service_proxy.cpp:402-441 | the loops compute the reconciliation |
| Endpoints.EndPointLists.Deactivate | source/framework/storm_service_proxy.cpp:384-400 | the loops compute the move |
| Encode.RoundTrip | source/util/util_encode.cpp:43-245 | decoding inverts encoding for every byte string: c_escape, urlencode and rawurlencode |
| Encode.StepInverts | source/util/util_encode.cpp:83-101 | the decoder reads back exactly one encoded byte whatever follows, literal hex digits included |
| Encode.OctalInverts | source/util/util_encode.cpp:67-82 | every byte written as three octal digits is read back |
| Encode.UpperHexInverts | source/util/util_encode.cpp:176-245 | percent triplets with upper-case digits mean the same, section 2.1 of RFC 3986 |
| Encode.KeepsExactlyUnreserved | source/util/util_encode.cpp:149-223 | rawurlencode leaves exactly the unreserved set of section 2.3 of RFC 3986, urlencode that set without '~' |
| Encode.EscapesAreC | source/util/util_encode.cpp:111-147 | c_escape writes the named escapes of C, printable bytes as they are, all others as two hexadecimal digits; c_unescape reads each named escape back |
| Encode.OddEscapes | source/util/util_encode.cpp:43-109 | a backslash before any other character disappears, before x without digits and at the end of the text it stays |
| Encode.OctalMeans | source/util/util_encode.cpp:67-82 | octal escapes take up to three digits while the value stays a byte |
| Encode.HexMeans | source/util/util_encode.cpp:83-101 | hexadecimal escapes take one or two digits |
| Encode.DecodedUnchangedIff | source/util/util_encode.cpp:225-245 | rawurldecode leaves a text alone if and only if it holds no complete triplet |
| Encode.FormIsRawWithSpaces | source/util/util_encode.cpp:176-200 | urldecode is rawurldecode after every plus sign has become a space |
| Encode.TripletsAreLowerCase | source/util/util_encode.cpp:202-223 | the encoders write lower-case digits |
| Encode.RawAlphabet | source/util/util_encode.cpp:202-223 | rawurlencode writes only unreserved characters and '%' |
| Encode.EncodeAll | source/util/util_encode.cpp:111-223 | the encoders' loops; the result decodes to the input |
| Encode.DecodeAll | source/util/util_encode.cpp:43-245 | the decoders' loops compute the decoding |
| Strings.SplitString | source/util/util_string.cpp:170-198 | the loop computes the split |
| Strings.SplitKeepsText | source/util/util_string.cpp:170-198 | the pieces in order are the text without its separators |
| Strings.SplitPiecesFree | source/util/util_string.cpp:170-198 | with stripping, no piece is empty or holds a separator |
| Strings.SplitKeepsEmpty | source/util/util_string.cpp:170-198 | without stripping every piece between separators is kept, empty ones included |
| Strings.TrimString | source/util/util_string.cpp:15-21 | the two loops compute the trimming |
| Strings.TrimPadded | source/util/util_string.cpp:15-21 | trimming removes the white space around a trimmed text and nothing else |
| Strings.SpacesOfC | source/util/util_string.cpp:15-21 | white space is the six bytes of isspace |
| UrlParam.SplitInvertsJoin | source/util/util_string.cpp:417-444 | splitting a joined parameter string returns the map, for every map of byte strings and all separators whose bytes the encoder never writes, the one between key and value being a single byte that does not occur between pairs |
| UrlParam.SeparatorsIff | source/util/util_string.cpp:222-239 | that condition on the separators is exact: without it some map does not come back |
| UrlParam.DefaultSplitInvertsJoin | source/util/util_string.h:112-113 | with the default separators in particular |
| UrlParam.CutItem | source/util/util_string.cpp:222-239 | a pair is cut exactly where it was joined, empty keys and values included |
| UrlParam.WrittenIsJoin | source/util/util_string.cpp:417-433 | the loop puts the separator exactly between pairs |
| UrlParam.JoinURLParam | source/util/util_string.cpp:417-433 | the loop computes the joined string |
| UrlParam.SplitURLParam | source/util/util_string.cpp:435-444 | the loop computes the split map on top of the one given |
| Configs.ConfigNormalises | source/util/util_config.cpp:16-120 | for every text that parses, printing the tree and parsing that yields the same tree |
| Configs.ParseInvertsPrint | source/util/util_config.cpp:92-120 | every well-formed tree is read back from its printed text, at any indentation |
| Configs.ParseKeeps | source/util/util_config.cpp:16-90 | a parsed tree is well-formed: the item list is a duplicate-free union of the disjoint key and section domains, at every level |
| ConfigText.TextMeans | source/util/util_config.cpp:16-90 | a text is accepted if and only if every line is acceptable after those before it, and the error is that of the first that is not; the tree has exactly the sections opened, a key exactly where a line assigns it with the value of the last such line, and items in the order of first mention |
| ConfigText.LineMeans | source/util/util_config.cpp:24-88 | what a line says by its shape: blank or comment, tag, closing tag, or key and value around the first equals sign |
| ConfigText.PrintedForm | source/util/util_config.cpp:99-120 | the printed form of a small tree, byte for byte |
| ConfigText.IndentIsTwoSpaces | source/util/util_config.cpp:101 | two spaces for each level |
| Configs.LinesRebuild | source/util/util_config.cpp:99-120 | running the printed lines of the remaining items completes a partly built section |
| Configs.ClassifyOk | source/util/util_config.cpp:24-77 | keys, values and names taken from a line can be printed and read back |
| Configs.ParseFollowsPointers | source/util/util_config.cpp:16-90 | the stack of sections gives the tree and the errors that changing one tree through a stack of pointers gives, for every text; no pointer ever dangles |
| Configs.TopIsPointedAt | source/util/util_config.cpp:20-21 | the top of the stack is what the pointer down the open sections sees in the tree |
| Configs.TopIsUpdatedInPlace | source/util/util_config.cpp:47-62 | changing the top of the stack is an in-place update of the tree through that pointer |
| Configs.OpenLeavesTree | source/util/util_config.cpp:53-62 | reopening a section leaves the tree as it is |
| Configs.ParseString | source/util/util_config.cpp:16-90 | the loop computes the parse, errors included |
| Configs.ToString | source/util/util_config.cpp:99-120 | the loop and recursion compute the printed text |
| RollLogs.RotationKeepsSuffix | source/util/util_log.cpp:92-136 | over any run of writes the rolled files, oldest first, hold a suffix of everything logged, and the recorded size is the current file's length |
| RollLogs.RotationRetainsRecent | source/util/util_log.cpp:114-128 | once data has been lost, at least maxFile - 1 full files of recent data are kept |
| RollLogs.EverythingLogged | source/util/util_log.cpp:50-58 | while files can be opened everything written is logged, in order |
| RollLogs.PreparedOpenIff | source/util/util_log.cpp:92-129 | after preparing, the file is open if and only if every fopen that was needed succeeded |
| RollLogs.ReopensIff | source/util/util_log.cpp:93-102 | a file is reopened if and only if it is not open or was opened more than ten seconds ago |
| RollLogs.RotationLosesOldest | source/util/util_log.cpp:122-126 | one rotation loses exactly the last file |
| RollLogs.RotatedAt | source/util/util_log.cpp:122-126 | files below the limit move up by one, those beyond stay, index 0 is free; missing files change nothing |
| RollLogs.PreparedKeeps | source/util/util_log.cpp:92-129 | preparing keeps everything ever logged accounted for and leaves an open file below the limit |
| RollLogs.PrepareReturnsIff | source/util/util_log.cpp:92-129 | prepareLogFile returns, after at most two nested calls and whatever fopen does, if and only if there is at least one file and the size limit is positive; otherwise it can call itself for ever |
| RollLogs.CallsArePrepared | source/util/util_log.cpp:92-129 | the nested calls of the source give the state that the two-call form gives |
| RollLogs.RollLog.PrepareLogFile | source/util/util_log.cpp:92-129 | the method computes that preparation |
| RollLogs.RollLog.WriteLog | source/util/util_log.cpp:50-58 | the content is appended to the current file if it could be opened |
| RollLogs.RollLog.Roll | source/util/util_log.cpp:123-126 | the remove and the rename loop compute the rotation |

## Left out

- SocketHandlers.SocketHandler.HandleRead: requires that doubling the bytes held stays within 32 bits, beyond which the source's capacity wraps; what onPacket does with a packet outside its frame is undefined and not modelled.
- RpcLifecycle.SweepCompletesOverdue: speaks of the time an id last entered the timeout list; StaleDeadlines.SweepCompletesOwnOverdue speaks of the request's own deadline.
- RollLogs.RollLog.PrepareLogFile: requires at least one file and a positive size limit, without which the source need not return (RollLogs.PrepareReturnsIff); RollLogs.RollLog.WriteLog requires the same.
- Commands queued for an earlier occupancy of a socket slot: ids are slot indices, so a stale command can reach the slot's next user; the sending path is proved for one occupancy.
- Spurious wake-ups of a synchronous caller, which waits with `if`: a caller returns only once it was completed.
- Callbacks that re-enter the timer or the expiry list that runs them.
- Wrap-around of expiry times in TimeList and Timer.
- Choosing an endpoint among the active ones (round robin or hash): any active endpoint may be chosen in the model.
- The queue of packets between listener and service thread, and dispatching completed asynchronous calls from it: first-in first-out plumbing.
- Path lookup in a configuration (getConfigKeyPtr, getSubConfigPtr) and joinConfig: the former only reads, the latter clears itself first.
- Hex dumps (toHex, fromHex), the periodic trigger (UtilTimer), the search for a daylight-saving change (findDst), template replacement (replace) and joining of strings (joinString).
- Protobuf, the registry's ServiceManager, MySQL, process start-up and the RPC generator.
