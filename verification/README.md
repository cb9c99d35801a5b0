# slam, verified

`slam` is a C server shell with two threads. The I/O thread turns byte streams into
messages and back; the worker runs Lua handlers and timers. This project models the parts
whose correctness is a statement about all runs, all stream splits, all heap shapes or all
schemas, and proves those statements. `dafny verify dfyconfig.toml` checks everything.

| file | what it models |
|---|---|
| MessageQueue.dfy, QueueRuns.dfy | the bounded queue, as written and with the read index wrapped; whole call sequences against a FIFO |
| QueueInterleaving.dfy | the same ring under its two threads, one index or slot access per step |
| Wakeup.dfy | the epoll handshake in both directions, and that nothing is lost on the way |
| Frames.dfy, Socket.dfy | frame reassembly and resumable sending over non-blocking calls |
| Protocol.dfy, EndToEnd.dfy | the packed header, and a whole connection from encode to delivery |
| IoThread.dfy, IoEffects.dfy | the connection table: what each lifetime receives and sends, who owns every message, and what every act does to every descriptor |
| TimerSpec.dfy, TimerRuns.dfy, TimerPromptness.dfy, TimerList.dfy | timers as values, their laws, when exactly they fire, and the doubly linked list on the heap |
| LuaValues.dfy, CodecSpec.dfy, CodecTheorems.dfy | Lua tables, message trees and the translation both ways |
| CodecMeaning.dfy, Doubles.dfy | what a handler sees of a message and what a message keeps of a table, value by value; numbers as doubles |
| CodecOrder.dfy, CodecFailures.dfy | the round trip in whatever order Lua traverses tables; how the encoding of any value ends |
| LuaStack.dfy, CodecStack.dfy, LuaCalls.dfy | the same translation, and protected calls, step by step on the Lua stack |
| ByteBuffer.dfy, Registry.dfy | the growable buffer and message registration |

Calls into the kernel are oracles. A socket carries the results its `recv` and `send` will
give; a run that outlives them finds nothing to read and no room to write. Poll batches,
accepted connections, Lua callbacks and handler results are scripts, so a theorem about a
script is a theorem about every execution that could produce it. The two threads are
interleaved step by step in QueueInterleaving.dfy and Wakeup.dfy, under sequential
consistency; elsewhere one call is one step.

Wakeup.dfy and IoThread.dfy speak of an ideal bounded FIFO. The queue with its read index
wrapped is one on every run; the queue as written is one until its range assertion aborts
the process, so there their theorems hold up to that abort.

## What the code does that its comments do not say

Each of these is a theorem, stated as an if-and-only-if where the code sometimes does and
sometimes does not do what is wanted.

- The queue calls itself a ring buffer, but the read index is never wrapped
  (src/io/slam_message_queue.c:54). It behaves as a FIFO, and its range assertion aborts
  the process at the call after the `maxsize`-th pop: `QueueRuns.Replay`. What either thread
  has under way at that moment still ends as a FIFO would end it: `QueueInterleaving.RunIsFifo`.
- A read fails when data runs out strictly inside a length prefix, however soon the rest
  would have come: `Sockets.Socket.ReadStream`. The same frame is read in one piece and lost
  in two: `Sockets.SplitPrefixIsFatal`.
- A message whose payload is empty is encoded, sent and delivered, and then refused by the
  decoder: `Protocol.DecodeEncoded`.
- A message above the package limit is only logged by the sender, and breaks the connection
  at the receiver: `EndToEnd.Exchange`.
- The timer loop does not end when a due repeating timer has interval 0, or an interval
  that overflows 64 bits: `TimerRuns.LoopEnds`. Such a pass is reachable after any history:
  `TimerRuns.EndlessPass`.
- A timer callback cannot remove its own timer: `TimerRuns.CannotRemoveItself`. Whatever it
  does, a repeating timer is listed again when it returns: `TimerRuns.NothingStopsIt`.
- `min_interval` answers -1, which blocks, for an empty list and for an overdue timer
  alike: `TimerRuns.MinIntervalMeans`.
- An absent submessage comes back present from a trip through Lua, so a message of a type
  that contains itself through singular fields, directly or through other types, never comes
  back unchanged; every other type has one that does: `CodecTheorems.ExactlyFaithful`,
  `CodecTheorems.RecursionNeverSettles`.
- Decoding numbers the elements of a repeated field from zero, and encoding takes them in the
  order `lua_next` visits them. They come back the same up to order: `CodecOrder.AnyOrder`; and
  in their own order exactly if every place is visited with an element that converts like the
  one it held: `CodecOrder.OrderSurvives`.
- A failed encode leaves nothing or two values on the stack, throws, or raises a Lua error,
  decided by where the first value that does not fit lies: `CodecFailures.EncodingEnds`.
- Every decoded message leaves its table on the Lua stack: `LuaCalls.DeliverAll`.

## Model

| member | source | states |
|---|---|---|
| MessageQueues.MessageQueue.PushBack | src/io/slam_message_queue.c:35-43 | accepts exactly while fewer than `maxsize - 1` messages wait; the contents grow by that message at the end |
| MessageQueues.MessageQueue.Empty | src/io/slam_message_queue.c:45-48 | true exactly when nothing waits |
| MessageQueues.MessageQueue.PopFront | src/io/slam_message_queue.c:50-55 | returns the oldest message, or none; afterwards the range assertion holds exactly if the index wraps or fewer than `maxsize` messages have been popped |
| MessageQueues.MessageQueue.Front | src/io/slam_message_queue.c:57-61 | the oldest message, which stays |
| MessageQueues.MessageQueue.Number | src/io/slam_message_queue.c:63-67 | the number waiting, unless writes and reads are in different laps of the 32-bit counters, when its assertion fails |
| MessageQueues.MessageQueue.Drain | src/io/slam_message_queue.c:25-32 | frees the waiting messages in order; aborts exactly when the unwrapped read index reaches the end on the way |
| MessageQueues.RingHoldsPop | src/io/slam_message_queue.c:50-55 | the slot at the read index holds the oldest message and the rest stay in order around the array |
| QueueRuns.Replay | src/io/slam_message_queue.c:8-61 | any sequence of calls is answered as a FIFO of capacity `maxsize - 1` answers it, and with the wrap all of it is; as written the run stops exactly at the call after the `maxsize`-th successful pop |
| QueueRuns.AbortIsReachable | src/io/slam_message_queue.c:8-55 | that stop is reachable for every size except one, where nothing is ever accepted |
| QueueInterleaving.StepRefines | src/io/slam_message_queue.c:35-61 | each access by either thread is a step of a bounded channel, also once the unwrapped read index is spent; the slot just given up keeps its message even if the index is stored before the slot is loaded |
| QueueInterleaving.RunIsFifo | src/io/slam_message_queue.c:35-61 | over every interleaving, the operations under way at an abort included, accepted messages are those answered, then the one in the consumer's hand, then those waiting, at most `maxsize - 1` |
| QueueInterleaving.WrapStaysInRange | src/io/slam_message_queue.c:8-12 | with the wrap no interleaving ever fails the range assertion |
| QueueInterleaving.AsWrittenRange | src/io/slam_message_queue.c:50-55 | as written the read index is the number of pops, never more than `maxsize`, and the range assertion holds exactly while it is below |
| Wakeup.NoLostWakeup | src/io/slam_io_thread.c:103-136 | in every state of every run, waiting messages mean the I/O thread is in its batch, a wake-up is pending, or the worker has yet to see the queue empty; and the same for responses and the write event of their socket |
| Wakeup.NothingLost | src/slam_runnable.c:57-74 | in every state of every run, the messages pushed are those the worker took, in order, followed by those waiting; and the responses to an open descriptor are those sent as a whole followed by those waiting |
| Wakeup.QuiescentMeansDelivered | src/slam_runnable.c:53-89 | when both threads sleep with nothing pending, every message pushed has been taken, in order, and every response sent, except behind a full socket whose next space raises an event |
| Wakeup.WorkerEmpties | src/slam_runnable.c:57-74 | from every state of a run with the I/O thread asleep, the worker alone takes all that waits, in order, without timeout or signal |
| Frames.ParseIsLossless | src/io/slam_socket.c:220-268 | frames and rest of a parse are the stream itself |
| Frames.ParseYieldsFrames | src/io/slam_socket.c:234-240 | every parsed frame has an allowed length equal to its length field |
| Frames.ParseAppend | src/io/slam_socket.c:220-268 | more bytes only extend a parse, from its unfinished rest on |
| Frames.ParseFlatten | src/io/slam_socket.c:220-268 | parsing concatenated frames gives them back |
| Frames.ParsePrefix | src/io/slam_socket.c:220-268 | any beginning of a stream of frames parses to the first of them and never fails |
| Frames.ParseStops | src/io/slam_socket.c:231-235 | a frame of forbidden length stops the parse, with all frames before it intact |
| Sockets.Socket.ReadBytes | src/io/slam_socket.c:186-216 | reads until full, blocked or lost; hands over exactly the bytes consumed |
| Sockets.Socket.ReadLength | src/io/slam_socket.c:222-241 | starts a frame on a complete, allowed length; a partial or forbidden one breaks the connection |
| Sockets.Socket.ReadBody | src/io/slam_socket.c:251-265 | the message under construction holds exactly the bytes read since the last frame |
| Sockets.Socket.Deliver | src/io/slam_socket.c:244-250 | pushes a finished frame as one complete message; refused only by a full queue, and then kept |
| Sockets.Socket.PollRead | src/io/slam_socket.c:220-268 | stops well only when nothing is available; on every outcome all frames completed by the bytes consumed have been pushed, except one a full queue refused |
| Sockets.Socket.PollArrived | src/io/slam_socket.c:220-268 | a poll with nothing behind what has arrived fails only for a block inside a length prefix, a forbidden length or want of room; one that reads everything had room |
| Sockets.Socket.ReadStream | src/io/slam_socket.c:186-268 | chunk independence: all polls succeed exactly if no block falls inside a length prefix, no length is forbidden and the queue has room, and then the messages pushed are the parse of the concatenated bytes |
| Sockets.SplitPrefixIsFatal | src/io/slam_socket.c:225-232 | for every frame and every cut inside its length prefix, the same bytes are admissible whole and not when cut by a block |
| Sockets.Socket.WriteMessage | src/io/slam_socket.c:310-315 | queues behind the others unless the send queue is full |
| Sockets.Socket.SendTurn | src/io/slam_socket.c:275-305 | one result adds to the bytes sent what it took, no more than the front message lacks, and a message that lacks nothing any more is done |
| Sockets.Socket.PollWrite | src/io/slam_socket.c:270-308 | bytes taken are always the finished messages in push order and then the first part of the front one, which is never complete; their number is the sum of what the results used took, so enough results that each cover the front message empty the queue; it stops when empty, blocked, lost, or at the range assertion of the unwrapped queue |
| Sockets.SentMore | src/io/slam_socket.c:296-305 | taking more bytes of the front message, completing it or not, extends that stream by exactly them |
| Protocol.PushedAreDecodable | src/slam_protocol.c:52-65 | whatever arrived, every pushed message is complete, its length field equals its size and covers the header, so both assertions hold and the payload length cannot underflow |
| Protocol.EncodedIsFrame | src/slam_protocol.c:68-92 | an encoded message is a frame the receiver accepts exactly if its size is below the package limit and fits the 32-bit length field |
| Protocol.DecodeEncoded | src/slam_protocol.c:52-92 | decoding what encoding produced gives the identifier, sign included, and the payload, unless the payload is empty, which is refused |
| Protocol.WireLayout | src/io/slam_message.h:18-26 | the packed header byte by byte: size in bytes 0 to 3 and identifier in bytes 12 to 15, low byte first and in two's complement, entity id and flags zero, payload from byte 18 |
| Protocol.LengthRule | src/io/slam_socket.c:231-235 | the next frame is as long as the number in its first four bytes, which is forbidden below 18 and from the limit on |
| EndToEnd.SentIsPrefix | src/io/slam_socket.c:270-308 | what the kernel has taken is a beginning of the accepted frames, all of them once the queue is empty |
| EndToEnd.ArrivesInOrder | src/io/slam_socket.c:220-308 | any part of the sent stream that has arrived parses to the first accepted requests, each decoding to itself; it fails only at a request above the limit, and does so once all has arrived |
| EndToEnd.Exchange | src/io/slam_io_thread.c:211-222 | every run of a connection, with partial sends, pauses, reads and consumption in any order, delivers the accepted requests in order byte for byte; it holds if no poll runs dry inside a length prefix, every poll had room for what had arrived and no request exceeds the limit, and then everything sent and read is delivered; over a network that blocks only with nothing left it holds exactly then |
| EndToEnd.ExchangeAll | src/io/slam_socket.c:220-308 | any script over a network that blocks only with nothing left, followed by one generous send poll, one transmission and one read poll: if the run is not cut short, the connection holds exactly if the three conditions hold, and then every accepted request has been delivered |
| IoThreads.IoThread.Event | src/io/slam_io_thread.c:20-36 | an establishment or loss is queued if there is room and its message freed otherwise |
| IoThreads.IoThread.RemoveSocket | src/io/slam_io_thread.c:48-57 | frees the unfinished message, clears the entry and reports one loss; an absent entry is left alone |
| IoThreads.IoThread.AcceptSocket | src/io/slam_io_thread.c:59-73 | each registered connection enters the table and is announced, one the poll refuses is dropped in silence |
| IoThreads.IoThread.ReadReceived | src/io/slam_io_thread.c:84-88 | reads byte for byte: a message is allocated at a complete, allowed length and pushed at the end of its frame; the socket is removed on error, inside a length prefix, or when the queue refuses a frame |
| IoThreads.ReadSurvives | src/io/slam_socket.c:220-268 | a poll leaves the connection in the table exactly if it ends without error and outside a length prefix, no length is forbidden and the queue has room for all the frames it completes |
| IoThreads.IoThread.ReadSocket | src/io/slam_io_thread.c:75-89 | accepts on a listening socket, reads on another, ignores a closed one |
| IoThreads.IoThread.DoMessage | src/io/slam_io_thread.c:103-132 | handles a batch event by event, hang-ups before reads before writes; what each event does is IoEffects.EventMeans |
| IoThreads.IoThread.WorkerTakes | src/slam_runnable.c:58-59 | the worker holds exactly the oldest queued message |
| IoThreads.IoThread.WorkerFrees | src/slam_runnable.c:72-72 | a handled message is freed once |
| IoThreads.IoThread.Shutdown | src/io/slam_io_thread.c:162-174 | afterwards every allocated message has been freed exactly once |
| IoThreads.BirthShapes | src/io/slam_io_thread.c:59-73 | opening a descriptor, silently or with its establishment, starts one new lifetime and leaves all others alone |
| IoThreads.ByteShapes | src/io/slam_socket.c:220-268 | after any byte, allocating, pushing or giving up the socket keeps every descriptor's history the frames of its streams |
| IoThreads.DeathShapes | src/io/slam_io_thread.c:48-57 | an open lifetime ends with exactly one loss, whatever was unfinished |
| IoThreads.Allocate | src/io/slam_message.c:8-15 | a new message gets exactly one owner: a socket, the queue, or nobody because it was freed |
| IoThreads.LeaveSocket | src/io/slam_socket.c:64-71 | a socket's message passes to the queue or is freed with the socket, never both |
| IoThreads.LeaveQueue | src/slam_runnable.c:57-74 | a queued message passes to the worker or is freed at shutdown, never both |
| IoThreads.Session | src/io/slam_io_thread.c:20-174 | over every run, what each descriptor sends is its lifetimes one after the other as they were opened: establishment only if accepted, then exactly the frames of the bytes received in that lifetime, then one loss; the worker takes accepted messages in order; and after shutdown nothing has leaked and nothing was freed twice |
| IoThreads.NothingDropped | src/io/slam_io_thread.c:20-57 | while no push fails the queue itself carries those lifetimes |
| IoEffects.EventMeans | src/io/slam_io_thread.c:48-132 | in every run, whatever came before: a hang-up ends the open lifetime with exactly one loss and frees what the socket held; a readable listening socket opens one lifetime for every registered connection; a readable connection receives byte after byte up to the first that breaks it, and is kept exactly if it ends outside a length prefix, unbroken and written; all other descriptors are untouched, and a push fails only when the queue is full |
| IoEffects.ActMeans | src/slam_runnable.c:57-74 | a socket the worker makes opens one lifetime in silence; the worker takes the oldest message, one at a time, and frees it |
| IoEffects.AlwaysSane | src/io/slam_io_thread.c:20-132 | after every run each descriptor has sent exactly what its lifetimes and their streams say |
| TimerSpec.InsertKeepsOrder | src/slam_timer_list.c:60-93 | insertion keeps the list ordered and goes behind every timer that expires no later |
| TimerLists.TimerList.Add | src/slam_timer_list.c:60-93 | on the heap, links the node at that place with all links mutually inverse, whatever its own links held before |
| TimerLists.TimerList.Find | src/slam_timer_list.c:95-101 | the first timer with the reference, or none |
| TimerLists.TimerList.RemoveByNode | src/slam_timer_list.c:109-126 | unlinks exactly that node and leaves a proper list |
| TimerLists.TimerList.MinInterval | src/slam_timer_list.c:128-134 | computes the wait from the head alone |
| TimerLists.TimerList.Perform | src/slam_runnable.c:91-104 | adding and removing by reference on the heap do what they do to the ordered sequence; an unknown reference changes nothing |
| TimerLists.TimerList.FireHead | src/slam_timer_list.c:141-155 | one firing detaches the head, runs a callback that may add and remove timers, and lists a repeating timer again |
| TimerLists.TimerList.Run | src/slam_timer_list.c:136-157 | the loop on the heap fires the same timers in the same order and ends with the same list as the loop on sequences |
| TimerLists.Live | src/slam_timer_list.c:60-157 | after any history of handlers, callbacks and passes the heap holds one properly linked list in order of expiry |
| TimerRuns.RunIsExact | src/slam_timer_list.c:136-157 | a pass fires exactly the timers due on entry, once each and in order, except those an earlier callback removed; every survivor expires later; it takes no more firings than timers were due |
| TimerRuns.RunConserves | src/slam_timer_list.c:136-157 | after a pass exactly the timers listed before and those made meanwhile are listed, without the removed ones and the fired ones that do not repeat; so a repeating timer that fired is listed again |
| TimerRuns.LoopEnds | src/slam_timer_list.c:141-150 | without help from callbacks the loop reaches its end if and only if no due repeating timer would be listed again as due |
| TimerRuns.RearmsMeans | src/slam_timer_list.c:148-150 | a repeating timer is listed for later exactly if its interval is at least 1 and the 64-bit sum does not overflow |
| TimerRuns.StuckForever | src/slam_timer_list.c:141-150 | while a due repeating timer would be listed again as due and no callback removes it, the loop uses up every script of callbacks |
| TimerRuns.EndlessPass | src/slam_timer_list.c:141-150 | after any history, a new repeating timer of interval 0 makes the next pass endless |
| TimerRuns.HistoryKeepsOrder | src/slam_timer_list.c:60-157 | the list is ordered with unique timers after any history, overflows included |
| TimerRuns.NeverEarly | src/slam_timer_list.c:8-17 | over all the worker ever does no firing is early, the k-th firing comes at least k intervals after creation, and a timer that does not repeat fires once |
| TimerPromptness.NewIsListed | src/slam_timer_list.c:8-17 | a new timer is listed with what it was made with, to expire one interval after the clock was read, and nothing else changes |
| TimerPromptness.RemovedIsFirst | src/slam_timer_list.c:95-126 | of the timers with a reference exactly one that expires first is removed, none if there is none |
| TimerPromptness.AlwaysClocked | src/slam_timer_list.c:8-157 | over everything the worker does, every listed timer expires one interval after it was made or last fired, as a 64-bit sum |
| TimerPromptness.FiresOnTime | src/slam_timer_list.c:136-157 | a listed timer that nobody removes fires in the first pass that is not before its time, and in none before |
| TimerPromptness.FirstFiring | src/slam_timer_list.c:8-157 | a timer made at some clock fires in the first pass at or after that clock plus its interval |
| TimerPromptness.NextFiring | src/slam_timer_list.c:141-150 | a repeating timer that fired fires again in the first pass at or after that time plus its interval |
| TimerRuns.MinIntervalMeans | src/slam_timer_list.c:128-134 | with nothing due the wait is the least over all timers; it is -1 exactly if the list is empty or something is due |
| TimerRuns.CannotRemoveItself | src/slam_timer_list.c:142-151 | a callback that removes its own timer's reference, at any point of what it does, changes nothing by it, unless another timer has the same reference |
| TimerRuns.NothingStopsIt | src/slam_timer_list.c:148-151 | whatever a callback does, its repeating timer is listed again, one interval from now |
| LuaValues.ScalarRoundTrip | src/MessageBuilder/luaT_message_parser.cpp:57-72 | a scalar sent to Lua and back keeps its type, and its value exactly if it is a double or holds no NUL |
| Doubles.AsDoubleIsNearest | src/MessageBuilder/luaT_message_parser.cpp:245-252 | an integer becomes the nearest double |
| CodecMeaning.MessageShows | src/MessageBuilder/luaT_message_parser.cpp:176-369 | the decoded table has exactly one entry per field, at every depth: a boolean as a boolean, a number as the nearest double and itself within 2^53, a text up to its first NUL, a list under its indices from zero, an absent submessage as an empty table |
| CodecMeaning.EncodedKeeps | src/MessageBuilder/luaT_message_parser.cpp:15-133 | whatever table is encoded with success: any value but false is true, numbers and numeric strings wrap to the field's type, numbers become texts, texts end at the first NUL, lists keep their values in order, and a field without a value is empty, zero or absent |
| CodecMeaning.KeepsWhatFits | src/MessageBuilder/luaT_message_parser.cpp:57-72 | a number of the field's type and a text without NUL are kept as they are |
| CodecTheorems.RoundTrip | src/MessageBuilder/luaT_message_parser.cpp:122-133 | encoding what was decoded always succeeds, for every schema and message, and gives exactly the message with scalars passed through Lua and absent submessages present and empty |
| CodecTheorems.RoundTripMeaning | src/MessageBuilder/luaT_message_parser.cpp:352-369 | it is the message up to absence of submessages if and only if all scalars survive |
| CodecTheorems.ExactlyFaithful | src/MessageBuilder/luaT_message_parser.cpp:218-226 | it is the very message if and only if in addition no singular submessage is absent at any depth |
| CodecTheorems.TrappedIsNeverFaithful | src/MessageBuilder/luaT_message_parser.cpp:218-226 | types that lead back to themselves through singular fields, directly or not, have no message that comes back unchanged |
| CodecTheorems.RecursionNeverSettles | src/MessageBuilder/luaT_message_parser.cpp:218-226 | a type has a message that comes back unchanged if and only if it is in no set of types each of which has a singular field into the set |
| CodecTheorems.EmptyTableEncodes | src/MessageBuilder/luaT_message_parser.cpp:50-83 | an empty table encodes to a message with nothing set |
| CodecOrder.AnyOrder | src/MessageBuilder/luaT_message_parser.cpp:91-106 | encoding any reordering, at every depth, of a decoded message succeeds and gives the message up to absent submessages, scalars that do not survive and the order of repeated elements |
| CodecOrder.DecodingRenders | src/MessageBuilder/luaT_message_parser.cpp:352-369 | the table decoding builds is one of these reorderings |
| CodecOrder.OrderIsTraversal | src/MessageBuilder/luaT_message_parser.cpp:91-106 | repeated elements come back in the order the table is traversed |
| CodecOrder.OrderSurvives | src/MessageBuilder/luaT_message_parser.cpp:91-106 | a list comes back in its own order exactly if every place is visited with an element that converts alike; among elements that all convert differently, exactly if visited by index |
| CodecTheorems.MsgLeavesLittle | src/MessageBuilder/luaT_message_parser.cpp:86-133 | a failed encoding of any value leaves nothing or two values, the lower one a table |
| CodecFailures.StrayValuesHappen | src/MessageBuilder/luaT_message_parser.cpp:94-108 | for every schema, a wrong element anywhere but last, after elements that fit, leaves the list and the next key |
| CodecFailures.ItemsEndAt | src/MessageBuilder/luaT_message_parser.cpp:94-108 | how the first element that does not encode ends the list, from how it ends itself and whether it is the last |
| CodecFailures.EncodingEnds | src/MessageBuilder/luaT_message_parser.cpp:15-133 | for every schema and value, from the place of the first value that does not fit: success exactly if there is none, an exception exactly for a text, a clean failure, two stray values or a Lua error exactly by which list elements on the way are the last of their lists |
| CodecStack.DecodeDefault | src/MessageBuilder/luaT_message_parser.cpp:176-230 | sets the default of the field in the table on top and changes nothing else on the stack |
| CodecStack.DecodeRepeated | src/MessageBuilder/luaT_message_parser.cpp:232-277 | sets one element under its index and changes nothing else |
| CodecStack.DecodeSimple | src/MessageBuilder/luaT_message_parser.cpp:279-329 | sets a field that is set; the default branch is never taken |
| CodecStack.DecodeOneField | src/MessageBuilder/luaT_message_parser.cpp:331-350 | sets one field, repeated or not |
| CodecStack.DecodeDescriptor | src/MessageBuilder/luaT_message_parser.cpp:352-369 | fills the table on top with every field, leaves all below it and the height unchanged, and never fails |
| CodecStack.EncodeValue | src/MessageBuilder/luaT_message_parser.cpp:15-83 | converts the value on top and leaves the stack as it was on success |
| CodecStack.EncodeGivesUp | src/MessageBuilder/luaT_message_parser.cpp:94-108 | after a failed element the next pair is fetched first: a key and value stay behind, or the stray top is no key and Lua raises an error |
| CodecStack.EncodeElements | src/MessageBuilder/luaT_message_parser.cpp:91-106 | walks the whole table and leaves the stack as it was on success |
| CodecStack.EncodeOneField | src/MessageBuilder/luaT_message_parser.cpp:86-120 | encodes one field; success leaves the stack unchanged, failure exactly the stray values of the specification |
| CodecStack.EncodeDescriptor | src/MessageBuilder/luaT_message_parser.cpp:122-133 | encodes the table on top; on success the whole stack is unchanged, on failure it has grown by nothing or by two |
| LuaCalls.PCall | src/slam_lua.c:97-159 | removes function and arguments and nothing else for every argument count, with and without traceback, for every outcome; calls a function once with exactly these arguments and nothing otherwise; true exactly if it was a function that returned |
| LuaCalls.EventMessage | src/slam_lua_event.c:52-68 | calls the handler with descriptor, identifier and table; leaves the decoded table, and a handler that is no function, on the stack |
| LuaCalls.EventConnection | src/slam_lua_event.c:35-50 | calls the handler with the descriptor; leaves nothing, or a handler that is no function |
| LuaCalls.DeliverAll | src/slam_runnable.c:57-74 | draining the queue, messages of every kind included, calls the handlers in order, adds to the stack exactly what each message leaves and removes nothing |
| LuaCalls.OneStrayEach | src/slam_lua_event.c:35-68 | that is at least one value per decoded message, and exactly one if and only if every handler looked up is a function |
| LuaCalls.EventTimer | src/slam_lua_event.c:71-80 | calls the callback with reference and context and leaves an empty stack, unless its reference is no function |
| ByteBuffers.ByteBuffer.Reserve | src/slam_byte_buffer.c:21-34 | makes room for the request and keeps the bytes; grows by at most one request or chunk beyond it |
| ByteBuffers.ByteBuffer.Write | src/slam_byte_buffer.c:68-71 | appends; storage stays within the peak write cursor plus the larger of 512 and the largest request |
| ByteBuffers.ByteBuffer.Read | src/slam_byte_buffer.c:56-66 | removes the oldest bytes; an emptied buffer starts over |
| ByteBuffers.UseBuffer | src/slam_byte_buffer.c:16-106 | over any sequence of writes and reads, bytes come out in the order they went in, within that storage bound |
| Registries.Registry.RegMessage | src/slam_protocol.c:33-41 | registers in handler table and message cache, or in neither |
| Registries.Registry.FindName | src/slam_protocol.c:44-49 | a handler name exactly for the identifiers the cache holds |
| Registries.Registry.RegisteMessage | src/MessageBuilder/MessageParser.cpp:80-91 | caches a known type under a new identifier, refuses anything else |
| Registries.Registry.GetMessage | src/MessageBuilder/MessageParser.cpp:111-120 | answers from the cache and never inserts |
| Registries.Registry.Dispatch | src/slam_protocol.c:52-65 | a message decodes exactly if its identifier is registered and its payload is not empty and parses, and then it always has a handler name |

## Left out

- Socket creation, bind, connect, accept, fcntl and epoll itself: kernel calls, given as oracles. That a modification asking for writability raises one readiness event, at once or when space appears, is assumed in Wakeup.dfy.
- Races on the connection table between the worker and the I/O thread: each table operation is one step.
- Weak memory ordering: steps are sequentially consistent.
- Messages are values: that a queue holds pointers is not captured, so a write through the pointer `front` returns is a step of its own (`UpdateFront`). No two owners of one message exist, which IoThread.dfy shows by allocation number.
- EndToEnd.Exchange: requests of 2^32 bytes and more, whose length field wraps, are not submitted.
- IoThreads.IoThread.AcceptSocket: a descriptor the table already holds is passed over, where an assertion would abort; the kernel does not hand one out.
- Queue sizes of 2^32 and more, where the 32-bit indices themselves wrap.
- Releasing the worker's response when `slam_io_response` refuses it: the code neither queues nor frees it, and the send path is not part of the ownership account.
- Narrowing of the poll timeout from 64 to 32 bits.
- TimerRuns.RunIsExact: for callbacks that list timers already due the loop may go on; the exact condition for its end is given without callbacks in TimerRuns.LoopEnds.
- Floating-point fields, map fields and oneofs; protobuf serialization and descriptor import. How Lua turns strings into numbers and back is a parameter.
- CodecTheorems.RoundTrip: traverses tables in the order their keys were set; every other order, at every depth, is in CodecOrder.AnyOrder. RoundTripMeaning and ExactlyFaithful are about the same order.
- `slam_byte_buffer_clear` and direct use of the read and write cursors.
- MySQL, logging, signals, process control, scripts and build files.
