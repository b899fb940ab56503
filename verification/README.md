# Verified models of the qzjs protocols

qzjs runs JavaScript in threads and processes that talk through protocols of their own. This
project models those protocols, and the codecs they and the runtime rely on, in Dafny, and proves
what they guarantee. `dafny verify dfyconfig.toml` checks everything.

| files | what they model |
|---|---|
| `Wrappers`, `LittleEndian`, `BigEndian`, `Envelope` | shared values and byte accessors; the FlatBuffers envelope encoder and decoder |
| `Framing`, `Reader`, `Protocol` | the inter-process channel: length-prefixed frames, the receiving accumulator with a synchronous ping on the same stream, and both ends as one transition system |
| `ChannelBuffers`, `ChannelRuns` | the channel's spill buffer and accumulator as arrays updated in place, and both ends at work as a run of the transition system |
| `MsgQueue`, `MsgQueueCode` | the lock-free inbound queue with any number of producers, its consumer and its wake-up; first as atomic steps, then as the code |
| `Receipts`, `RemoteCommands`, `ReceiptsCode` | the control plane's receipt table on one node, on two nodes, and as the code |
| `Routing` | hop-by-hop routing of commands and receipts over the process tree |
| `StructuredClone`, `StructuredCloneCode` | the recursive copy of cyclic object graphs, as a function and as the code that fills containers in place |
| `Streams`, `StreamsCode` | the ReadableStream queue, as a state machine and as the code |
| `JsonEscape`, `LineProtocol`, `Utf8`, `WasmSections`, `Pkcs8`, `Sha256`, `Sha256Constants`, `Primes` | codecs against an inverse, a reader or a standard |

Where the source changes state, a class or a loop over arrays has the source's shape and is proved
against a function; the theorems are about that function and about every run of it.

Several things turned out to hold only under a condition. Each is stated exactly:

- A PONG in transit is lost when a ping reads it. A session of ordinary and ping reads does what
  the ordinary reader would if and only if no ping finds one at the head of what it reads
  (`Reader.PingTransparent`; a stream where one does is `Reader.TransitLostExample`).
- A command that an endpoint forwards to another node may execute after its origin answered
  TIMEOUT, because the target computes a deadline of its own: if and only if its timeout is
  positive (`RemoteCommands.MayStartLateIff`), and later by less than the time it travelled
  (`RemoteCommands.TargetFailsClosed`). A command that a node executes itself never does
  (`Receipts.ExecutesFailClosed`).
- A command for a missing node is dropped, leaves to the host or circulates for ever, depending on
  the first element behind the deepest node on its way (`Routing.RouteOfMissing`). A path longer
  than eight elements is cut, so its command runs on the node that the first eight name, if there
  is one (`Routing.CommandReachesNamed`).
- An endpoint that is not the root finds a node by its path if and only if it has a child at the
  slot that the path has at its depth (`Routing.EndpointReaches`), and a client hears NOT_FOUND
  at once only for relative targets (`ReceiptsCode.ControlNode.EndpointCommand`); otherwise it waits
  for its timeout (`ReceiptsCode.UnsentTimesOut`).
- A receipt finds the sender of its command if and only if the sender is the root and another node
  executed it, or the sender's parent did (`Routing.ReceiptReturnsIff`).
- A clone loses an own property called `__proto__` (`StructuredClone.LosslessIffNoProto`), and with
  it those properties behind it that the value, as a prototype, answers with a getter, such as
  `size` if it is a Map (`StructuredClone.PropertyKeptIff`).
- UTF-8 round trips hold if and only if every high surrogate is followed by a low one; lone low
  surrogates survive (`Utf8.RoundTripIff`).
- The unescaper inverts the escaper if and only if the string is empty or the output has three
  bytes more than the string (`JsonEscape.EscapeRoundTrip`).
- What the unescaper returns is UTF-8 if and only if no escape in the literal is a surrogate
  (`JsonEscape.UnescapesToUtf8Iff`).
- While a chunk is queued, a read answers "done" if and only if its reader has released its lock
  (`Streams.ReadWithChunkQueued`).
- Commands of the control client arrive if and only if the fields it copies unescaped hold no
  newline (`LineProtocol.CommandsArrive`).
- The encoder of the envelope leaves three padding bytes as they were; decoding does not depend on
  them (`Envelope.Encode`, `Envelope.DecodeEncode`). The header file says that any valid FlatBuffers
  envelope is accepted; the code accepts exactly those with the vtable at or before the table
  (`Envelope.DecodesIffVtableFirst`).

## Model

| member | source | states |
|---|---|---|
| LittleEndian.Rd32Bytes | src/le_bytes.h:17-21 | the 32-bit accessor is the little-endian value of its four bytes, with weights 1, 256, 256² and 256³ |
| LittleEndian.LeRd32 | src/le_bytes.h:17-35 | writing what was read gives back the same four bytes |
| LittleEndian.Wr16 | src/le_bytes.h:23-27 | the two bytes at the offset become the little-endian form of the value and no other byte changes |
| LittleEndian.Wr32 | src/le_bytes.h:29-35 | the four bytes at the offset become the little-endian form of the value and no other byte changes |
| Envelope.PayloadInBounds | src/ipc_envelope.c:58-104 | on every byte string, a payload the decoder reports lies inside the buffer; decoding is total and its length subtractions never underflow |
| Envelope.DecodeComplete | src/ipc_envelope.c:39-104 | any layout with the vtable at or before the table, with default fields left out or extra vtable slots present, decodes to the stored envelope |
| Envelope.DecodesIff | src/ipc_envelope.c:39-104 | on every byte string: the decoder succeeds if and only if the bytes store an envelope, and what it returns is that envelope; a field whose place is outside the buffer has its default |
| Envelope.DecodesIffVtableFirst | src/ipc_envelope.c:71-78 | of the layouts FlatBuffers allows, with the vtable on either side of the table, the decoder accepts exactly those with it at or before the table |
| Envelope.HoldsUnique | src/ipc_envelope.c:39-104 | a buffer stores at most one envelope, whichever layout is read into it |
| Envelope.Encode | src/ipc_envelope.c:11-37 | refuses a buffer that is too small without touching it; otherwise the canonical encoding stands in front and neither the padding nor anything behind it changes |
| Envelope.DecodeEncode | src/ipc_envelope.c:11-104 | decoding a canonical encoding returns every field and the payload, for all values and any padding |
| Framing.ChunkIndependence | src/ipc_process.c:912-1044 | however the stream is cut into reads, the same frames are handed over and the same bytes remain |
| Framing.ParseAppend | src/ipc_process.c:912-1011 | parsing the accumulator and then more bytes hands over what parsing all at once does, from any reader state |
| Framing.ParseHeld | src/ipc_process.c:912-1011 | frames handed over, serialised, followed by what is still held, are exactly the bytes held before |
| Framing.ParseSerialize | src/ipc_process.c:617-642 | the reader turns the serialisation of any frames within the limit back into those frames and holds nothing afterwards |
| Framing.PrefixCode | src/ipc_process.c:617-642 | the wire format is uniquely decodable: a serialisation that starts with some frames is one of frames starting with them |
| Framing.OversizedStops | src/ipc_process.c:918-930 | a frame above 16 MiB, and nothing before it, ends the channel: all earlier frames are handed over |
| Reader.PingIsPrefix | src/ipc_process.c:1130-1181 | what a ping consumes is an initial part of what the ordinary reader would, and the rest is left as it would be |
| Reader.PingTakesLeadingPongs | src/ipc_process.c:1130-1181 | a ping consumes only PONG and empty frames, and stops at the first other one |
| Reader.SessionIsParse | src/ipc_process.c:912-1181 | over every interleaving of ordinary and ping reads, the frames consumed so far and those still to come are the frames of the whole stream, in order |
| Reader.PingTakesRun | src/ipc_process.c:1147-1181 | one ping read consumes exactly the leading PONG and empty frames of what the ordinary reader would get |
| Reader.PingReadTransparent | src/ipc_process.c:940-1005 | one ping read has the ordinary reader's effects if and only if no PONG in that leading run is one in transit, to be passed on |
| Reader.PingTransparent | src/ipc_process.c:912-1181 | a whole session of ordinary and ping reads does what the ordinary reader would do with the stream alone, in order, if and only if no ping read finds a PONG in transit at the head of what it reads |
| Reader.PingsTakeOnlyPongs | src/ipc_process.c:1156-1175 | every frame a ping consumed in a session was a PONG or empty |
| Reader.PingsLeaveOthers | src/ipc_process.c:1082-1089 | all other frames of the stream reach the ordinary reader, in order, however pings and reads interleave |
| Reader.TransitLost | src/ipc_process.c:945-964 | a PONG in transit, in any encoding, goes up when the ordinary reader gets it and ends in the ping otherwise |
| Reader.TransitLostExample | src/rt_main.c:311-318 | such a stream, in bytes |
| Reader.ReactHandles | src/ipc_process.c:933-1003 | what the frame handler does with every frame: messages, empty payloads, system payloads and everything on a channel that does not route are delivered whole; commands are routed with their source, target and payload; failures and PONGs in transit go up; any other PONG answers its ping; what cannot be decoded is ignored |
| Reader.HandledOneWay | src/ipc_process.c:933-1003 | these cases leave no two ways to handle an envelope |
| Protocol.StepInv | src/ipc_process.c:559-876 | posts, partial and refused sends, timer flushes, blocking sends, pipe reads and ping reads all keep: consumed, held, in the pipe, spilled and being sent are together the frames posted |
| Protocol.LosslessFifo | src/ipc_process.c:559-1181 | in every reachable state the frames consumed are a prefix of those posted, and all the rest is still in flight |
| Protocol.EnvelopesArrive | src/ipc_process.c:617-655 | the receiver has decoded exactly a prefix of the envelopes that were posted, field for field |
| Protocol.EnvelopesHandled | src/ipc_process.c:617-1181 | in every run the receiver's effects are, one by one and in order, those that a prefix of the posted envelopes asks for; an envelope that a ping read was a PONG and answered it |
| Protocol.DeadMeansOversized | src/ipc_process.c:918-930 | the only frame that can kill a channel is an oversized one, and it is the first not consumed |
| Protocol.DrainedIsComplete | src/ipc_process.c:912-1044 | once the sender's buffers and the pipe are empty, one more pass leaves every posted frame consumed and nothing held |
| ChannelBuffers.TxBuffer.Flush | src/ipc_process.c:559-588 | a prefix of the spill buffer moves to the socket, the rest stays in order, and the timer stops exactly when nothing is left |
| ChannelBuffers.TakenIs | src/ipc_process.c:559-588 | how much a flush takes, from the outcomes alone: what the calls before the first would-block have room for, up to what is there |
| ChannelBuffers.TxBuffer.Send | src/ipc_process.c:596-615 | socket and spill buffer together grow by exactly the frame, after all older bytes; the timer runs while bytes remain |
| ChannelBuffers.TxBuffer.EmitSync | src/ipc_process.c:814-876 | succeeds if and only if there is a writable round, the rounds have room for all older bytes and the calls after them for the frame, a refused call counting for nothing; what goes out is exactly what there is room for, older bytes before the frame |
| ChannelBuffers.TxBuffer.Tick | src/ipc_process.c:590-594 | a timer tick only moves bytes from the buffer to the wire |
| ChannelBuffers.RxBuffer.ProcessRx | src/ipc_process.c:912-1011 | the array-backed loop hands over exactly the frames of the pure reader and leaves exactly its remainder |
| ChannelBuffers.RxBuffer.PingProcess | src/ipc_process.c:1130-1181 | the same for the parse loop inside a ping, on the same accumulator |
| ChannelBuffers.RxBuffer.OnRead | src/ipc_process.c:1013-1044 | appending a chunk in place, growing by doubling, and processing it is one read of the pure session |
| ChannelBuffers.FrameSend | src/ipc_process.c:617-642 | a post adds the length-prefixed canonical encoding of the envelope to the bytes on their way, or nothing when it cannot be framed |
| ChannelRuns.Link.Post | src/ipc_process.c:596-615 | a post on the arrays is a run of the protocol: the frame joins the posted ones, and arrays and state still agree |
| ChannelRuns.Link.EmitSync | src/ipc_process.c:814-876 | so is a blocking send, whether it succeeds, exactly when there is room for everything, or stops at any byte because the peer hung up |
| ChannelRuns.Link.Receive | src/ipc_process.c:1013-1181 | so is a read of any size at the other end, in the pump or in a ping |
| ChannelRuns.ArraysLossless | src/ipc_process.c:559-1181 | after any calls at both ends, the handler has got a prefix of the frames posted, and accumulator, wire and spill array hold exactly the bytes of all others |
| MsgQueue.StepInv | src/msgq.c:43-65 | the inductive invariant of the queue under every atomic step: exchange order with gaps, each gap owned by one suspended producer, the old head freed only once detached |
| MsgQueue.MemorySafe | src/msgq.c:43-65 | in any reachable state no next step of any producer or of the consumer touches a freed node, although addresses are reused |
| MsgQueue.PoppedIsPrefix | src/msgq.c:43-65 | the messages popped are a prefix of the order in which exchanges took effect |
| MsgQueue.PerProducerFifo | src/msgq.c:26-65 | of each producer a prefix of its pushes has arrived, in program order, none lost, repeated or invented |
| MsgQueue.NoLostWakeup | src/thread.c:88-111 | with no producer inside a push, no signal pending and no drain running, everything pushed has been consumed and all nodes but the head are freed |
| MsgQueueCode.Inbound.PushExchange | src/msgq.c:43-44 | claims the tail and remembers the predecessor in one atomic step, and changes nothing else |
| MsgQueueCode.Inbound.PushLink | src/msgq.c:45-45 | publishes the node behind the predecessor this producer claimed, and changes nothing else |
| MsgQueueCode.Inbound.PopMsg | src/msgq.c:51-65 | returns the message linked behind the head, advances to it and frees the old head unless it is the stub; or returns nothing |
| MsgQueueCode.Inbound.HasPending | src/msgq.c:67-72 | answers yes if and only if a message is linked behind the head; when it answers no although messages are queued, some producer is suspended before its link |
| MsgQueueCode.Inbound.Push | src/msgq.c:26-49 | run without interruption, the message becomes the newest one and a signal is pending |
| MsgQueueCode.Inbound.WakeCb | src/thread.c:88-111 | without a shutdown it takes exactly the nodes that were linked one behind the other when it began, hands their messages over in order and leaves nothing linked behind the head; that run ends with the queue or at a producer suspended before its link; at a shutdown it takes nothing |
| Receipts.StepInv | src/control.c:190-278 | every action keeps: entries registered are in the table or settled, submissions are on their way or completed, no entry dangles, and every logged line and start was in order |
| Receipts.RegisteredIsPendingOrSettled | src/control.c:96-117 | each registered command is in the table, or was answered or withdrawn: exactly one of these, once |
| Receipts.AtMostOneAnswer | src/control.c:478-500 | a command gets at most one of result, TIMEOUT, NOT_FOUND and withdrawal, over all interleavings with receipts from other nodes |
| Receipts.LinesGoToOpenOwners | src/control.c:121-159 | a line goes out only for a command registered before, and to its own connection only while that is open |
| Receipts.ConnectionHearsOnce | src/control.c:121-159 | over every run one connection receives at most one line for each of its commands and none for commands of others |
| Receipts.LogTellsSent | src/control.c:121-140 | in every action the receipts that leave the node are those the log records: each once, to the connection, else up or down the tree, else to the host |
| Receipts.NoEntryDangles | src/control_endpoint.c:96-106 | no table entry refers to a connection that has closed |
| Receipts.ExecutesFailClosed | src/control.c:249-278 | a command starts only on a node that accepted it for execution, before its deadline, with no answer sent, and with its connection still open |
| Receipts.ClaimsOnce | src/control.c:797-818 | a command is claimed for execution at most once |
| Receipts.DispatchedWasRegistered | src/control.c:797-818 | a command at the head of the queue was registered for execution on this node |
| Receipts.StartsIff | src/control.c:249-278 | a dispatched command starts if and only if nothing has settled it and its deadline lies ahead; if its deadline has passed unsettled, it is answered TIMEOUT then |
| Receipts.SettlesIff | src/control.c:96-278 | exactly which action settles a pending command, and how: its receipt, the reaper or the dispatcher after its deadline, a failed push, the closing of its connection |
| Receipts.TimeoutAfterDeadline | src/control.c:249-639 | TIMEOUT is answered only at or after the deadline of the command |
| Receipts.ReceiptGoesTo | src/control.c:121-140 | where the receipt of a command goes: to the connection that sent it, else along the tree to where it came from, else to the host, and to the host when the command is settled already |
| Receipts.ReapAnswersExpired | src/control.c:610-639 | after the reaper has run no registered command whose deadline has passed is left unsettled |
| RemoteCommands.BothAreNodes | src/control.c:502-600 | both ends of a forwarding are nodes of the one-node model, so its guarantees hold at each |
| RemoteCommands.TargetFailsClosed | src/control.c:413-436 | what the target executes it executes once and before its deadline; a forwarded command starts between its arrival and its sending plus its timeout plus the time it travelled |
| RemoteCommands.MayStartLateIff | src/control.c:549-609 | some run starts a forwarded command after its origin has answered TIMEOUT if and only if the command's timeout is positive |
| RemoteCommands.ForwardedRunsAfterTimeout | src/control.c:549-609 | such a run, for every command with a positive timeout |
| ReceiptsCode.ControlNode.EmitObj | src/control.c:121-140 | a receipt goes to exactly one outlet: an open connection first, then the tree, then the host |
| ReceiptsCode.ControlNode.TakeReply | src/control.c:96-117 | unlinks the first entry with the correlation id and reports its way back and its connection, or -1 and none |
| ReceiptsCode.ControlNode.LocalCommand | src/control.c:352-436 | registering before pushing, and taking back on a failed push, are the actions of the model |
| ReceiptsCode.ControlNode.EndpointCommand | src/control.c:549-609 | a client's command is executed, forwarded, left to the reaper or refused as `Routing.EndpointHop` says, with exactly that effect on the table; the connection hears NOT_FOUND at once if and only if the target is above 1, not the node's own id and no live child, no longer path is given, and the line fits its buffer |
| ReceiptsCode.UnsentTimesOut | src/control.c:567-639 | the entry of a command whose path could not be followed is answered TIMEOUT by the first reap after its deadline |
| ReceiptsCode.ControlNode.RemoteCommand | src/control.c:586-607 | in the branch without a path the entry stays until a receipt comes, or it is taken out and the connection is told NOT_FOUND at once, if the line fits its buffer |
| ReceiptsCode.ControlNode.Claim | src/control.c:249-278 | live exactly when the first entry with that id has its deadline ahead; an expired entry is removed and answered TIMEOUT |
| ReceiptsCode.ControlNode.ReapTimeouts | src/control.c:610-639 | one walk over the list unlinks exactly the expired entries and answers them in their order |
| ReceiptsCode.ControlNode.CloseConnection | src/control.c:208-224 | one walk removes exactly the entries of the closing connection |
| ReceiptsCode.ControlNode.DeliverReceipt | src/control.c:478-500 | a receipt from another node consumes its entry and goes to that entry's outlet, or to the host when there is none |
| Routing.RouteByPath | src/control.c:514-531 | the comparison loop decides here, down or up by the prefix relation of the two paths |
| Routing.ExtractPath | src/control.c:305-328 | the loop takes the first eight numbers of the array, passing over anything else, and nothing from a text that is empty or above 65536 bytes |
| Routing.HopCloserIff | src/control.c:438-532 | a hop brings the command one edge closer to the place it names, unless the next element is 1 or less: then, and only then, one edge further away |
| Routing.RouteDelivers | src/control.c:502-532 | from any node of a well-formed tree, a command for an existing node arrives there and nowhere else, first up to the lowest common ancestor and then down, in as many hops as the distance |
| Routing.RouteOfMissing | src/control.c:438-532 | a command for a missing node reaches the deepest node on its way; it is dropped there if and only if the element behind is above 1, leaves to the host if and only if it is not and that node is the root, and otherwise circulates for ever; nobody executes it |
| Routing.ZeroCirculates | src/control.c:438-462 | below a root with the one child 5, the path [5, 0] circulates and [0] leaves to the host |
| Routing.CommandReachesNamed | src/control.c:305-532 | for every command, with a path or without: a node executes it if and only if it exists and is what the numbers of the path name, or the first eight of more; without a number, or in a text too long, what the relative target names |
| Routing.EndpointReaches | src/control.c:549-609 | for every command of a client, whether the node it names exists or not, exactly where it executes: with a path longer than the endpoint's own, at that node if and only if the endpoint has a child at the slot the path has at its depth; otherwise as the relative target decides |
| Routing.RelayIs | src/control.c:400-462 | where every relative target leads: to the node itself, the root, the host, the child of that slot, or nowhere |
| Routing.ReceiptEnds | src/control.c:66-86 | where a receipt ends, for every source id |
| Routing.ReceiptReturnsIff | src/control.c:66-86 | exactly when a receipt finds the sender of its command |
| Routing.RootRoundTrip | src/control.c:502-547 | a command from the root executes on the named node after as many hops as its depth, and its receipt comes back to the root |
| StructuredClone.CloneIsIsomorphic | polyfill.js:3635-3749 | the clone throws if and only if a function or symbol is reachable; otherwise `seen` is an injective renaming of exactly the reachable objects onto fresh ones, every copy is its original renamed, in order, minus what `StructuredClone.Lost` says, and the source is untouched |
| StructuredClone.LosslessIffNoProto | polyfill.js:3730-3738 | a copy is its renamed original if and only if the original has no own `__proto__` property |
| StructuredClone.PropertyKeptIff | polyfill.js:3730-3738 | with an own `__proto__`, a property survives if and only if it stands before it, or behind it and its value is no Map, Set, buffer or typed array that answers the name with a getter |
| StructuredClone.BuiltIsImage | polyfill.js:3678-3738 | filling a fresh container member by member never merges two members, because different keys have different copies, and leaves out exactly what is lost |
| StructuredClone.CloneWithin | polyfill.js:3640-3749 | a call touches only objects of any reference-closed set it starts in, and fails only on an offender in it |
| StructuredCloneCode.Cloner.Clone | polyfill.js:3640-3749 | the code that updates the object store, `seen` and the allocator in place does what the recursive function describes |
| StructuredCloneCode.Run | polyfill.js:3636-3639 | a top-level call throws exactly on an uncloneable graph and otherwise leaves an isomorphic copy beside the source |
| Streams.CallKeeps | polyfill.js:2095-2251 | every call of controller, stream and readers keeps the invariant, whatever pull throws |
| Streams.CallActs | polyfill.js:2095-2251 | what each call does to every field in every reachable state: enqueue serves the oldest waiting read or queues the chunk; on a readable stream close settles every waiting read as done and error rejects it, and both leave the queue; cancel drops the queue and settles every waiting read as done; a pull that throws errors the stream; what is not named stays |
| Streams.ChunksInOrder | polyfill.js:2110-2168 | accepted chunks are those delivered, then those queued, then those a cancel dropped; reads wait only on an empty readable stream |
| Streams.FulfilledInOrder | polyfill.js:2149-2200 | reads that get chunks get them in the order of the calls |
| Streams.EachReadOnce | polyfill.js:2149-2210 | every read has settled once or is waiting once |
| Streams.DoneAfterAllChunks | polyfill.js:2149-2200 | a reader that still holds the stream hears "done" only after every chunk was delivered or dropped, and no chunk follows |
| Streams.HolderLearnsEnd | polyfill.js:2208-2218 | the holder's closed promise waits, is resolved or is rejected with the stored error exactly as the stream is readable, closed or errored |
| Streams.ReadWithChunkQueued | polyfill.js:2149-2174 | in every reachable state with a chunk queued, a read answers "done" if and only if its reader has released its lock; otherwise the first chunk, or the stored error |
| Streams.ReleasedReaderReadsDone | polyfill.js:2149-2174 | such a reader, for any chunk |
| StreamsCode.ReadableStream.NotifyReaders | polyfill.js:2192-2231 | the serving loop, the closed promise and a throwing pull together have the effect of the pure notification |
| StreamsCode.ReadableStream.Read | polyfill.js:2149-2168 | a read settles at once or waits, in the source's order of tests |
| StreamsCode.ReadableStream.Cancel | polyfill.js:2241-2251 | on a readable stream a cancel closes it, drops the whole queue and settles every waiting read as done, in order; otherwise nothing changes |
| JsonEscape.EscapeCli | src/cli.c:202-227 | writes the JSON literal of the string and its terminator inside the 6n+3 bytes it allocates |
| JsonEscape.EscapeCtl | src/ctl_cli.c:54-82 | the second escaper writes the same bytes inside the same bound |
| JsonEscape.UnescapeInto | src/cli.c:68-122 | stays inside literal and output on every input; returns the decoded length, or -1 exactly when the literal is malformed or does not fit |
| JsonEscape.NoControlCharacters | src/ctl_cli.c:54-82 | an escaped string holds no control character, so no raw newline and no NUL |
| JsonEscape.UnescapesLiteral | src/cli.c:68-122 | every literal of plain characters, short escapes and four-digit escapes in either case unescapes to what it means, or fails exactly when the room the loop keeps is not there |
| JsonEscape.UnescapesIff | src/cli.c:68-122 | on every C string: the unescaper returns a value if and only if the string starts with a literal of those forms that fits and has that meaning |
| JsonEscape.UnitBytesAreUtf8 | src/cli.c:98-109 | the bytes written for a four-digit escape are the octets RFC 3629 gives its code if that is a scalar value, and no UTF-8 if it is a surrogate |
| JsonEscape.UnescapesToUtf8Iff | src/cli.c:68-122 | a literal unescapes to UTF-8 if and only if no escape in it is a surrogate, given that its other characters are UTF-8 |
| JsonEscape.SurrogatePairEscaped | src/cli.c:98-109 | the two escapes of U+1F600 come out as six bytes and not as its four octets |
| JsonEscape.EscapeInjective | src/cli.c:202-227 | different strings have different literals |
| JsonEscape.EscapeRoundTrip | src/cli.c:68-227 | unescaping an escaped string returns it if and only if it is empty or the capacity is at least three more than its length; otherwise it fails |
| LineProtocol.ChunkIndependence | src/control_endpoint.c:116-152 | however the bytes are cut into reads, the same lines are handed over |
| LineProtocol.DeframeIs | src/control_endpoint.c:116-152 | every byte string, cut at its newlines: the lines that are not empty are handed over, in order, and what follows the last newline is kept |
| LineProtocol.LineArrivesIff | src/control_endpoint.c:138-147 | a line arrives as itself if and only if it is not empty and has no newline in it |
| LineProtocol.CommandsArrive | src/ctl_cli.c:215-261 | commands with escaped arguments, one per line, arrive exactly and in order for any chunking if and only if the fields copied unescaped hold no newline |
| LineProtocol.Connection.OnRead | src/control_endpoint.c:116-152 | the in-place scan and shift hand over the complete lines and keep the incomplete one |
| Utf8.EncodeLoop | polyfill.js:1825-1852 | the index loop, including its reading past a final high surrogate, produces the recursive encoding |
| Utf8.DecodeLoop | polyfill.js:1864-1887 | the index loop, with missing bytes read as zero and a RangeError above 0x10FFFF, produces the recursive decoding |
| Utf8.RoundTripIff | polyfill.js:1825-1887 | decoding an encoded string returns it if and only if every high surrogate is followed by a low one |
| Utf8.UnpairedHigh | polyfill.js:1837-1846 | at the first high surrogate without a low one the encoder swallows the next unit, and writes four octets that spell the number of that pair, or 0 at the end of the string |
| Utf8.EncodesToUtf8 | polyfill.js:1825-1852 | for every sequence of scalar values the encoder's output is their encoding by the table of section 3 of RFC 3629 |
| Utf8.DecodesUtf8 | polyfill.js:1864-1887 | the decoder returns the UTF-16 form of every valid UTF-8 byte string |
| Utf8.ThrowsIff | polyfill.js:1864-1887 | on every byte string: the decoder throws if and only if some character in it has the bits of a number above 0x10FFFF |
| Utf8.CutCharacter | polyfill.js:1864-1887 | a character that the end of the input cuts off is decoded as if zero bytes followed |
| WasmSections.ReadsWhole | src/ext_wasm3.c:775-788 | the decoding loop reads every valid LEB128 form of a 32-bit number, whatever follows |
| WasmSections.CustomSections | src/ext_wasm3.c:745-825 | the pointer loops end inside the buffer on any bytes and find what the recursive scan finds |
| WasmSections.ScanFindsCustomSections | src/ext_wasm3.c:762-820 | for any module made of well-formed sections the result is exactly the contents of the custom sections with the requested name, in order; if the module is cut off inside a section, those of the sections before |
| Pkcs8.DerLenBytes | src/ext_crypto.c:872-878 | the precomputed length is that of the length octets written |
| Pkcs8.DerWriteLen | src/ext_crypto.c:881-889 | the octets written are the definite form of the length, most significant first, and nothing else changes |
| Pkcs8.LengthReads | src/ext_crypto.c:881-889 | a DER reader, which refuses any length that is not minimal, reads the length back |
| Pkcs8.Pkcs8Wrap | src/ext_crypto.c:894-918 | the cursor that moves down lands on the start of the buffer, the wrapped key is in front and the bytes behind are untouched; a buffer that is too small is untouched altogether |
| Pkcs8.WrappedReads | src/ext_crypto.c:894-918 | reading the wrapped DER gives version 0, the rsaEncryption identifier and the original key, for keys of every length |
| Pkcs8.OidIsRsaEncryption | src/ext_crypto.c:897-902 | the identifier's octets spell 1.2.840.113549.1.1.1 |
| Sha256.PaddingIsMinimal | src/polyfill_load.c:166-172 | in bits, the padding has the fewest zeros that leave 64 bits of the last block, as section 5.1.1 of FIPS 180-4 asks |
| Sha256.FillTail | src/polyfill_load.c:166-172 | the one- or two-block tail buffer is the rest of the message with exactly that padding |
| Sha256.CompressBlock | src/polyfill_load.c:113-152 | the in-place schedule and rounds compute the compression of section 6.2.2, in another order of addition |
| Sha256.Hash | src/polyfill_load.c:154-182 | the one-shot form is the fold of the compression over the padded message, for every message |
| Sha256Constants.ConstantsAreRoots | src/polyfill_load.c:115-124 | the tables hold the fractional bits of the cube roots of the first 64 primes and of the square roots of the first eight, as sections 4.2.2 and 5.3.3 define |

## Left out

- Dead peer: the exit of the spill-buffer flush on a broken pipe, with its trim; runs end there, as they do at a frame above 16 MiB. `EmitSync` covers a hang-up only as giving up.
- Out-of-memory branches, integer wrap of sequence numbers, and weak memory order: atomic steps are sequentially consistent.
- Ping timeouts, sequence matching and polling: a ping is a sequence of reads on the accumulator. It may leave whole frames in the accumulator until the next read.
- The classifier of control payloads and all JSON parsing: which payloads are PONGs, receipts or commands, and the fields of a command, are parameters or fields of the model. The receipt classifier's 512-byte limit is not modelled.
- Envelope decoding returns its view as a value instead of filling a struct in place.
- The configuration modes that refuse commands altogether. Commands without a correlation id, interrupts (which take effect before registration), idle and shutdown messages, and the storage relay.
- `Receipts.AtMostOneAnswer`, and the other results that name distinct commands, assume that a correlation id is used once, as the protocol asks its clients; conservation does not.
- Deadlines are any numbers; how they are computed from a timeout appears only in `RemoteCommands` and `ReceiptsCode.ControlNode.EndpointCommand`.
- Framing.OversizedStops: after an oversized frame the source kills the peer but keeps its read callback and the length; what bytes still in the pipe would do is not modelled, because the model stops reading there.
- LineProtocol.CommandsArrive: the client formats a command into its argument's length and 192 bytes more; a command whose other fields need more is cut, which is not modelled.
- Routing leaves out processes that join or leave while a command travels, the host above the root, and numbers outside 32 bits in a path.
- Structured clone: class instances and objects with an own `constructor` property, Date, RegExp, Error, DataView, getters, sparse arrays, and the exhaustion of the stack. A typed array carries its own data instead of a buffer.
- StructuredClone.CloneIsIsomorphic: an own `__proto__` that holds a plain object with one of its own is excluded. The prototypes of such copies form chains that depend on how far each copy has got, and a cycle among them is a TypeError. Which names a prototype answers with a getter is taken from ECMA-262 (2024); a typed array as prototype also swallows names that spell numbers.
- `tee`, pipes, byte streams, asynchronous pull rejections (they are later calls of `Error`) and a pull that calls back into the stream.
- Sha256.Hash: the logical functions are a parameter, and `Sha256Constants.Sha256` applies it to those of the standard; FIPS 180-4 defines digests only below 2^61 bytes.
- WasmSections: a custom section too short to hold a name counts as one with the empty name; such a section is not well formed. Pointer sums are assumed not to wrap.
- Pkcs8.Pkcs8Wrap: keys within 64 bytes of the address space's size are excluded, because no such buffer exists.
- Base64, the context slot table, timers, breakpoints, the debugger, file and HTTP bridges and the command line.
