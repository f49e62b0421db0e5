# Verified model of ios-webkit-debug-proxy

The proxy sits between browsers and iOS devices. It is single-threaded: byte-stream engines are fed
whatever the sockets deliver, call back into the proxy, and write through a select loop. This project
models those engines, the structures beneath them and the records that tie descriptors, clients and
pages together, and proves what they promise over every input and every run.

What the outside world does is an arbitrary parameter: how a stream is cut into chunks, what a
callback answers (a fixed function of everything that was reported before), how much the kernel takes
of each write, in which order a hash table lists its entries, what `strtol` makes of a text, and the
plist codec, which is any encode/decode pair.

## How it is organised

- `Bytes`, `Incremental`: octets and numbers; a stream machine whose steps do not change when more
  input follows reaches the same state however its input is cut. Three protocol engines are
  instances of it.
- `CharBuffer`, `Utf8`, `Http`, `HttpLines`, `WsFrame`, `WsProtocol`, `WsTheorems`, `Websocket`, `Handshake`: the
  web socket engine. `WsProtocol` specifies one turn of the state machine, `WsTheorems` says what holds
  of every run of it, and the class `Websocket.Engine`, which has the fields and loops of the C code,
  is proved to do exactly these turns on a buffer that sometimes aliases the caller's memory.
- `WsAnswers`: what the application's answers and bad input do, over every run. `HttpOverrun`,
  `WsOverrun`, `WsReports`: for which requests the cut of the stream shows, in the state and in the
  callbacks. `WsSession`: connections that send and receive in turn. `WsEndpoints`: whole connections
  and the codec on `Websocket.Engine`.
- `WebInspector`, `DeviceListener`: the two length-prefixed framers, specified and refined likewise.
- `SocketManager`: send queues and descriptor sets.
- `ProxyRecords`, `CloseCascade`: the records behind the descriptors, and the re-entrant close.
- `Pages`, `PageHandlers`: which client inspects which page.
- `HashTable`, `Sha1`, `Base64`, `Dump`: the structures and arithmetic beneath. `Sha1Vector` works out a
  published digest, `Base64Table` says what the coder computes octet by octet.

Where the source updates fields or arrays the model is a class or a loop method, proved against a
function whose own properties are stated as lemmas. What a function and the code have in common is
fixed apart from both: opcodes, alphabets, limits and header names are written out as octets and
numbers in lemmas, and the handlers that change records state the new records field by field.

## Where the code and its documentation differ

The model follows the code.

- The length of a frame takes the 8-octet form from 65535 on, not from 65536 (src/websocket.c:299).
- Section 5.2 of RFC 6455 asks for the first bit of an 8-octet length to be 0. The code takes any length
  (src/websocket.c:533-551), and its sum with the header can wrap around: `WsFrame.WrappedLength`,
  `WsTheorems.WrappedFrameWaits`.
- UTF-8 is checked frame by frame and only against the error state, so an unfinished character at the
  end of a payload passes (src/websocket.c:282-297, src/websocket.c:624-638): `Utf8.AcceptsExactlyPrefixes`.
- Any final frame, a control frame included, drops the message under way (src/websocket.c:732-740),
  although section 5.4 of RFC 6455 allows control frames there: `WsTheorems.ControlFrameBreaksMessage`.
- Sending and receiving share `continued_opcode` (src/websocket.c:274, src/websocket.c:339,
  src/websocket.c:736-740). It holds what the last fragment of either direction opened
  (`WsSession.FieldFollowsBoth`), and what is sent is readable between messages exactly while it is 0
  (`WsSession.AcceptedIsReadable`). So a side that sends only final frames, as the proxy does, sends an
  unreadable one exactly inside a fragmented message of its peer (`WsSession.FinalIsReadable`,
  `WsSession.AnswerInsideMessage`), and a side that sent a fragment becomes readable again with the
  next final frame it receives, a ping for example (`WsSession.PingCloses`).
- A header line without a colon is copied past its end (src/websocket.c:411-443), so what it yields
  depends on how much input has arrived. `HttpOverrun.LocalExactly` says for which headers that shows:
  those in which the last line of a kind that the code looks at has no colon. An open Host line, or an
  open Connection line that decides about the upgrade, shows in the request callback
  (`WsReports.FirstCallbackExactly`); an open Protocol, Version or Key line in the upgrade callback of
  the same request (`WsReports.FirstRequestExactly`) or of a later one on a connection that is kept
  alive (`WsReports.ReportsExactly`). `WsOverrun.ChunkingDependence` is a stream that shows it.
- The comment at src/ios_webkit_debug_proxy.c:157-164 makes page ownership mutual. A listing that names
  another inspector breaks this in one direction: `Pages.ListingTwoWay` says exactly when. A client
  that closes after such a claim leaves its page pointing at freed memory, which is read and written
  when the page is next taken: `Pages.CloseDangles` says that this happens exactly then, and
  `PageHandlers.ClaimThenClose` is a run from a new table that gets there.
- `fd_to_sendq` is documented as the keys of `send_fds` (src/socket_manager.c:53). Removing a descriptor
  leaves its queue, so this holds for registered descriptors, and a number that is added again keeps it
  exactly when nothing is left of its earlier life: `SocketManager.AddedKeeps`.
- A client may make a second static request over a kept-alive connection while the first is under way,
  and then knows of the second only (src/ios_webkit_debug_proxy.c:983-1009). When it closes, the first
  stays registered and names a freed client: `ProxyRecords.RequestThenCloseDangles` says that this
  happens exactly then, `ProxyRecords.AfterDangles` which closes do it in any state, and
  `CloseCascade.RequestTwiceThenClose` is a run from a new proxy that gets there.

## Model

| member | source | states |
|---|---|---|
| Incremental.ChunkingIrrelevant | src/char_buffer.c:89-131 | an engine that carries its unread input from call to call reaches the state that the whole stream reaches in one piece, for every cut of the stream |
| Incremental.AnyTwoCutsAgree | src/char_buffer.c:89-131 | any two cuts of one stream lead to the same state and, without an error, the same unread input |
| CharBuffer.Buffer.EnsureCapacity | src/char_buffer.c:39-87 | the contents stay and `needed` octets are free afterwards; nothing is allocated if and only if the allocation is large enough once compacted, and the new capacity is at least 1024, then the demand or one and a half times what there was; `Valid` bounds the capacity by 1024 or 3/2 of the peak demand |
| CharBuffer.Buffer.BeginInput | src/char_buffer.c:89-111 | whether the chunk is shared or copied, what can be read is the pending input followed by the chunk |
| CharBuffer.Buffer.EndInput | src/char_buffer.c:113-131 | whether the input was shared or copied, exactly the unread part of it is pending afterwards, and there is no input window any more |
| CharBuffer.Buffer.Clear | src/char_buffer.c:34-37 | an emptied buffer starts at the beginning of its memory |
| Bytes.XorIsBitwise | src/websocket.c:331 | every bit of the octet that masking makes is the sum without carry of the two bits |
| Utf8.TableDecidesOctets | include/validate_utf8.h:119-256 | the table run ends in its start state exactly on UTF8-octets of section 4 of RFC 3629 |
| Utf8.AcceptsExactlyPrefixes | include/validate_utf8.h:32-42 | a run avoids the error state exactly on prefixes of UTF8-octets |
| Utf8.Check | src/websocket.c:624-638 | the loop lets through exactly what avoids the error state; the table index stays in range |
| Http.StrnstrExact | src/char_buffer.c:294-307 | the bounded search finds the first occurrence, if and only if no NUL precedes it |
| Http.FindString | src/char_buffer.c:294-307 | the search loop computes that occurrence |
| Http.ScanLine | src/websocket.c:411-443 | the in-place scan of a header line yields the key, the value and the rest that the specification of a line says |
| Http.ReadLineIsLocal | src/websocket.c:411-443 | a complete header line reads the same whatever follows, if and only if it has a colon or a NUL has already arrived |
| Http.ReadHeadersExtend | src/websocket.c:445-483 | a terminated header block whose lines have colons reads the same whatever follows |
| Http.ScanHeaders | src/websocket.c:445-483 | the header loop applies every line in order until one ends it |
| Http.EqualButCase | src/websocket.c:456-478 | names and values compare equal exactly when each two octets are the same or the two cases of one letter |
| Http.KindByName | src/websocket.c:456-473 | the six header names that count, octet for octet, in any case |
| Http.AnyCaseKind | src/websocket.c:456-473 | the case of a header name makes no difference |
| Http.AnyCaseValue | src/websocket.c:456-463 | nor does the case of the values that decide about the upgrade |
| Http.FoundInside | src/websocket.c:458 | a word is found inside a value in any case and at any place |
| Http.FoundIsInside | src/websocket.c:458 | and what is found is there |
| Http.HostUpToColon | src/websocket.c:473-478 | the host ends at its last colon |
| HttpLines.ThreeWords | src/websocket.c:381-400 | verb, resource and version are the first three words of the request line, however many spaces stand between them |
| HttpLines.VersionExactly | src/websocket.c:386-408 | a request line is accepted if and only if it has three words |
| HttpLines.FieldParts | src/websocket.c:411-443 | the key of a header is what stands before its first colon, the value what follows without the spaces on either side |
| HttpLines.OtherLines | src/websocket.c:421-428 | an empty line and one that starts with a space are no headers |
| HttpLines.FieldEffect | src/websocket.c:456-482 | each kind of header sets one field and leaves the others; what asks for an upgrade |
| WsFrame.MaskedTwice | src/websocket.c:593-601 | masking is its own inverse and an all-zero key is no mask; what it does to an octet is stated by `SentOctet` and `ReadOctet` |
| WsFrame.SentOpcode | src/websocket.c:248-297 | which frames are refused, by opcode numbers and the limit of 125 octets, and the opcode that goes on the wire |
| WsFrame.SentHeader | src/websocket.c:299-335 | the header octets of a sent frame: final bit and opcode, mask bit and the three forms of the length, then the key |
| WsFrame.SentOctet | src/websocket.c:322-334 | bit k of masked octet i on the wire is that of the payload and of key octet i % 4, added without carry |
| WsFrame.ReadHeader | src/websocket.c:485-555 | from the first octets alone: when a frame is rejected, how much more is needed to know its length, and the length |
| WsFrame.ReadFirst | src/websocket.c:573-577 | the final bit and the opcode that are reported, and that text is checked |
| WsFrame.ReadOctet | src/websocket.c:586-617 | bit k of octet i of a payload is that of the wire octet and of key octet i % 4, added without carry; without the mask bit it is the wire octet |
| WsFrame.WrappedLength | src/websocket.c:551 | a length whose sum with the header passes 2^64 is taken for one of less than 14 octets, which cannot be read |
| WsFrame.LengthRoundTrip | src/websocket.c:485-555 | the frame length read back is the number of octets the encoder wrote, in each of the three length forms |
| WsFrame.FrameRoundTrip | src/websocket.c:557-645 | an encoded frame reads back as the same fin flag, opcode and payload, consuming exactly what was written; masked if and only if the key is not zero |
| HttpOverrun.LocalExactly | src/websocket.c:411-483 | a terminated header block without a NUL yields the same request whatever has arrived behind it and however numbers are parsed, if and only if no last line of a kind that the code looks at lacks its colon; an open Connection line counts only where it decides about the upgrade |
| HttpOverrun.ParserExactly | src/websocket.c:445-483 | the same for one number parser: an open Version line counts if and only if some input behind it changes the number |
| HttpOverrun.WithStrtol | src/websocket.c:464-465 | for a parser that skips white space and stops behind the first word, as `strtol` does, that is if and only if nothing but white space follows the line in the block |
| HttpOverrun.Blanks | src/websocket.c:464-465 | the six octets that count as white space |
| HttpOverrun.ColonsAreLocal | src/websocket.c:411-483 | a block whose lines all have colons is of this kind |
| WsProtocol.ChunkingIndependence | src/websocket.c:648-809 | the callbacks made and the state reached do not depend on the cut of the stream, up to and including the first error, when every header block is local in this sense |
| WsOverrun.HeadersExactlyLocal | src/websocket.c:665-697 | in every state the turn that reads a complete header block does the same for every application whatever has arrived behind it, if and only if the block is local |
| WsOverrun.FirstStateExactly | src/websocket.c:648-809 | on a new connection that is ended at its first callback, the state left behind, private fields included, is the same whether what follows the request arrives with it or later, if and only if its headers are local |
| WsReports.FirstCallbackExactly | src/websocket.c:648-809 | the callback of this request is the same in both cuts for every such application, if and only if no last Host line lacks its colon and no open Connection line decides about the upgrade |
| WsReports.FirstRequestExactly | src/websocket.c:677-697 | for every application that ends the connection with its first request all callbacks are the same in both cuts, if and only if that holds and, when the request asks for an upgrade, no last Protocol, Version or Key line lacks its colon either |
| WsReports.ReportsExactly | src/websocket.c:648-809 | everything that a connection reports is the same in both cuts for every application, if and only if the headers of the first request are local; for headers read up to their blank line |
| WsReports.AnyCaseUpgrade | src/websocket.c:456-478 | headers that ask for an upgrade are understood in whatever case their names and values are written |
| WsOverrun.ChunkingDependence | src/websocket.c:411-443 | a new connection that gets one stream in two cuts reports different hosts, for every application |
| WsTheorems.EveryRun | src/websocket.c:648-809 | over every run that only receives one request at most asks for the upgrade, it is the last one, only frames follow; `continued_opcode` is 0, TEXT or BINARY and non-zero exactly inside a fragmented message |
| WsTheorems.NoWayBack | src/websocket.c:748-791 | no HTTP state is reachable after the upgrade, CLOSED and ERROR are never left, and the engine refuses input exactly there |
| WsTheorems.NoPartialRead | src/websocket.c:711-746 | in every state that receiving and sending can reach, a frame is read in full and exactly its announced length is consumed |
| WsTheorems.WrappedFrameWaits | src/websocket.c:699-709 | a frame of exactly 2^64 octets, header included, is never read: whatever follows, the engine keeps all its input and waits |
| WsTheorems.FramesArrive | src/websocket.c:244-351 | any sequence of final frames that the sender accepts arrives as the same opcodes and payloads, nothing left over, closed if and only if the last is a close frame |
| WsTheorems.FramesArriveInAnyCut | src/websocket.c:793-809 | the same for every cut of the octets |
| WsTheorems.FragmentsReassemble | src/websocket.c:711-746 | a message in any number of pieces without a control frame between them is reported with the first piece's opcode and all payloads joined, in any cut |
| WsTheorems.ControlFrameBreaksMessage | src/websocket.c:732-740 | a ping or pong between two pieces drops the data so far and makes the next piece an error |
| WsTheorems.ReadableByField | src/websocket.c:262-281 | a data frame accepted while `continued_opcode` has some value is readable for a peer between messages if and only if that value is 0 |
| WsAnswers.EveryAnswer | src/websocket.c:665-791 | over every run a callback that fails is the last one and leaves an error; the connection is closed exactly behind a close frame or a plain request that is not kept alive; the data of a message is kept from one fragment to the next exactly while the application asks for it |
| WsAnswers.BadRequestEnds | src/websocket.c:397-407 | a request line without three words is an error, taken up to its line end |
| WsAnswers.RejectedFrameEnds | src/websocket.c:699-704 | a frame whose first octets are wrong is an error, and nothing of it is taken |
| WsAnswers.InvalidTextEnds | src/websocket.c:619-638 | a text frame that no text starts with is an error, taken and not reported |
| WsSession.FieldFollowsBoth | src/websocket.c:244-351 | in every connection, however receiving and sending alternate, `continued_opcode` is until an error what the last fragment of either direction left open; the callbacks keep their shape and the length of an awaited frame is known |
| WsSession.EveryMove | src/websocket.c:748-791 | the same when control frames are sent from inside the callbacks |
| WsSession.SessionIsPlay | src/websocket.c:748-809 | every connection that receives chunks and sends between them is a sequence of single turns and sends |
| WsSession.AcceptedIsReadable | src/websocket.c:262-281 | in every connection an accepted data frame is readable between messages if and only if no fragment of either direction has left a message open |
| WsSession.FinalSendsKeepInv | src/websocket.c:262-281 | a side that sends only final frames keeps everything that holds of runs that only receive |
| WsSession.FinalIsReadable | src/websocket.c:732-740 | what such a side sends is readable between messages if and only if the last frame it received was final |
| WsSession.AnswerInsideMessage | src/websocket.c:732-740 | a text frame sent after a peer's fragment goes out as a continuation, which a peer between messages rejects |
| WsSession.PingCloses | src/websocket.c:732-740 | a ping received clears the field, whatever was sent before |
| WsSession.CloseSent | src/websocket.c:343-347 | in every connection the engine holds that it has sent a close frame exactly when one has been taken by `send_data` |
| WsSession.NothingAfterClose | src/websocket.c:249-251 | after that nothing is sent any more, whatever else happens, and asking for it changes nothing |
| Websocket.ReadFrameInto | src/websocket.c:557-645 | the in-place reading of a frame, mask and checks appends exactly the payload that the specification reads (`WsFrame.ReadOctet`), and nothing on an error |
| Websocket.PayloadFits | src/char_buffer.c:57-87 | a buffer that has grown has room for the payload behind the data of a message, in the arithmetic of `size_t`, if and only if the payload length has not wrapped around or the sum is out of reach for any allocation |
| Websocket.Engine.SendFrame | src/websocket.c:244-351 | a refused frame changes nothing; an accepted one is sent as its encoding (`WsFrame.SentHeader`, `WsFrame.SentOctet`), and `continued_opcode` and `sent_close` change as stated |
| Websocket.Engine.SendClose | src/websocket.c:353-369 | a close frame with a reason of at most 123 octets is sent once; any other is refused without a change |
| Websocket.Engine.RecvRequest | src/websocket.c:648-663 | the handler is the request turn of the protocol |
| Websocket.Engine.RecvHeaders | src/websocket.c:665-697 | the handler is the headers turn of the protocol, whose names and values count in any case (`Http.KindByName`, `WsReports.AnyCaseUpgrade`) |
| Websocket.Engine.RecvFrameLength | src/websocket.c:699-709 | the handler is the frame-length turn of the protocol |
| Websocket.Engine.RecvFrame | src/websocket.c:711-746 | the handler is the frame turn of the protocol, with the payloads collected in its buffer; they are unmasked as `WsFrame.ReadOctet` states |
| Websocket.Engine.RecvLoop | src/websocket.c:748-791 | the loop ends and has run the protocol on everything that can be read |
| Websocket.Engine.OnRecv | src/websocket.c:793-809 | a call runs the protocol on the pending input followed by the chunk and keeps exactly the unread rest |
| WsEndpoints.Connect | src/websocket.c:244-809 | the engine, from its start and through any acts of receiving and sending, ends in the state of the session |
| WsEndpoints.SendAll | src/websocket.c:244-351 | final frames sent one after the other leave as their encodings, one behind the other |
| WsEndpoints.Deliver | src/websocket.c:244-351 | what one engine sends is reported by the other end as the same frames, in whatever cut it arrives |
| Handshake.ComputeAnswer | src/websocket.c:87-123 | the upgrade answer is the base64 of the SHA-1 digest of key and identifier, 28 characters that decode to that digest |
| Handshake.MagicOctets | src/websocket.c:92-93 | the identifier behind the key, octet for octet |
| DeviceListener.EngineProgresses | src/device_listener.c:187-207 | the receive loop makes progress on every packet because lengths below 16 are rejected |
| DeviceListener.ScanUint32 | src/device_listener.c:177-185 | the shifting loop yields the number whose octets these are, least significant first |
| DeviceListener.HeaderOctets | src/device_listener.c:187-207 | a packet is well-formed when its first four octets spell its length, and a property list when the next eight are 1 and 8, least significant octet first |
| DeviceListener.DeliversTheStream | src/device_listener.c:285-315 | for every input and every cut the delivered packets are the stream cut at its own length fields up to the first error, which is a refused property list or a length below 16; no refusal is passed over; the rest is an incomplete packet and a known length is the one it announces |
| DeviceListener.PacketsArrive | src/device_listener.c:317-332 | any list of well-formed packets arrives as that list in any cut |
| DeviceListener.AnyCut | src/device_listener.c:317-332 | the cut of the stream makes no difference |
| DeviceListener.Listener.RecvLoop | src/device_listener.c:285-315 | the loop over the input refines the stream machine and ends |
| DeviceListener.Listener.OnRecv | src/device_listener.c:317-332 | a call handles pending input followed by the chunk and keeps the unread rest |
| WebInspector.EndToEnd | src/webinspector.c:235-312 | any list of messages sent in partials, concatenated and re-cut at will, is delivered as exactly that list with an empty reassembly buffer |
| WebInspector.OnePacket | src/webinspector.c:339-426 | what any packet in the stream does, whatever its body: a partial piece is collected, a final one completes the message, a message is delivered; what does not decode and what is refused is an error |
| WebInspector.LongBodyEnds | src/webinspector.c:436-442 | a length above 64 MiB is an error |
| WebInspector.FramedOctets | src/webinspector.c:235-263 | a packet is its body behind the four octets of its length, most significant first |
| WebInspector.LengthOctets | src/webinspector.c:318-337 | the length is read from the same octets and refused above 64 MiB |
| WebInspector.SentWhole | src/webinspector.c:265-280 | without partials a message is one packet, to a device followed by an empty one |
| WebInspector.SentInPieces | src/webinspector.c:281-312 | with partials pieces of 7596 octets go out in partial packets before the rest in the final one |
| WebInspector.AnyCut | src/webinspector.c:428-481 | messages delivered and state reached do not depend on the cut |
| WebInspector.Inspector.SendPlist | src/webinspector.c:265-312 | a message leaves as its sequence of packets; when a packet fails the sender stops behind it |
| WebInspector.Inspector.ParsePlistOf | src/webinspector.c:339-395 | pieces are collected until the final one and then decoded together, leaving the buffer empty |
| WebInspector.Inspector.RecvPacketOf | src/webinspector.c:397-426 | one packet is handled as specified and consumed with its prefix |
| WebInspector.Inspector.RecvLoop | src/webinspector.c:428-463 | the loop over the input refines the stream machine and ends |
| WebInspector.Inspector.OnRecv | src/webinspector.c:465-481 | a call handles pending input followed by the chunk and keeps the unread rest |
| SocketManager.Drained | src/socket_manager.c:496-576 | once a queue is empty, everything accepted has been written and every send has been reported once and in order |
| SocketManager.InItsPlace | src/socket_manager.c:389-457 | what is sent to a descriptor is all data addressed to it, each send in its place |
| SocketManager.NotAddressed | src/socket_manager.c:389-457 | a send to another descriptor adds nothing |
| SocketManager.CausedBy | src/socket_manager.c:596-616 | the sends of all arrivals up to and including the one that ends the reading |
| SocketManager.NamedIs | src/socket_manager.c:552-564 | a descriptor is named when some entry of some queue has it as its cause |
| SocketManager.BlockedKeeps | src/socket_manager.c:433-456 | queueing a send keeps conservation, FIFO order and the readiness of every descriptor, if and only if its descriptor is registered or has a queue already |
| SocketManager.ReleasedKeeps | src/socket_manager.c:544-575 | completing a send keeps them, and its cause becomes readable exactly when no other queued send names it |
| SocketManager.RemovedKeeps | src/socket_manager.c:357-385 | removing a descriptor, its queue left behind, keeps them and the maximum |
| SocketManager.AddedKeeps | src/socket_manager.c:308-336 | adding a descriptor keeps the invariants if and only if its number has no leftover queue and no queued send names it |
| SocketManager.ReuseLosesTheQueue | src/socket_manager.c:338-387 | a number added again over a leftover queue breaks them |
| SocketManager.Manager.AddFd | src/socket_manager.c:308-336 | a registered descriptor is refused, otherwise all sets and the maximum change as stated |
| SocketManager.Manager.RemoveFd | src/socket_manager.c:338-387 | the descriptor leaves every set, the maximum is that of the rest, and every queued send that named it keeps all but its cause |
| SocketManager.Manager.Send | src/socket_manager.c:389-457 | what the kernel takes is written, the rest is queued behind what is queued already, the descriptor being read is paused; written and queued bytes stay what was accepted; the invariants survive unless a first send has to wait on a descriptor that is not registered |
| SocketManager.Manager.Resend | src/socket_manager.c:496-576 | stops only when the queue is empty or the kernel takes no more, takes nothing back, touches no other queue, and removes the descriptor on a fatal error, which then changes nothing of other queues but the causes that named it |
| SocketManager.Manager.Complete | src/socket_manager.c:544-575 | the first send is reported once, dropped, and its cause is read again if nothing else names it |
| SocketManager.Manager.FindCause | src/socket_manager.c:552-564 | the search over all queues finds a send with this cause if there is one |
| SocketManager.Manager.SendAll | src/socket_manager.c:389-457 | the same for the sends of one handler |
| SocketManager.Manager.ReadAll | src/socket_manager.c:578-618 | the same for the reads of one descriptor |
| SocketManager.Manager.Recv | src/socket_manager.c:578-618 | every send that a handler asks for while a descriptor is read, up to the arrival that ends the reading, is made: what is accepted for each descriptor grows by exactly the data addressed to it, in order, and nothing written or reported before is lost; a send that has to wait names the descriptor and pauses it; it is removed exactly when a read fails, the stream ends or a handler refuses; the cause is reset |
| ProxyRecords.AfterKeeps | src/ios_webkit_debug_proxy.c:532-660 | whatever is closed, all links between the remaining records hold in both directions and lead to registered descriptors, if and only if no client that is freed had a static request it did not know of |
| ProxyRecords.AfterDangles | src/ios_webkit_debug_proxy.c:517-525 | and exactly otherwise a registered static request names a freed client afterwards |
| ProxyRecords.AfterRecorded | src/ios_webkit_debug_proxy.c:532-660 | while every client knows of all its static requests, every close keeps all links, and keeps this |
| ProxyRecords.RequestThenCloseDangles | src/ios_webkit_debug_proxy.c:983-1009 | a client that makes one more static request and then closes leaves a registered request without a client, if and only if it had one under way |
| ProxyRecords.PortTakesAll | src/ios_webkit_debug_proxy.c:532-569 | closing a listening port or its inspector takes the descriptors of the port, its inspector, its clients and the static requests that these know of, and no other descriptor or record |
| ProxyRecords.PairedReady | src/ios_webkit_debug_proxy.c:532-637 | in every such state each registered descriptor can be closed: no handler meets a freed record or a descriptor that is being closed |
| ProxyRecords.AcceptKeeps | src/ios_webkit_debug_proxy.c:477-486 | accepting a client keeps all links |
| ProxyRecords.AttachKeeps | src/ios_webkit_debug_proxy.c:437-457 | connecting the inspector of a port keeps all links |
| ProxyRecords.RequestKeeps | src/ios_webkit_debug_proxy.c:983-991 | starting a static request, a second one included, keeps the links on which closing relies |
| ProxyRecords.RequestRecorded | src/ios_webkit_debug_proxy.c:983-991 | every client still knows of all its static requests if and only if this one had none under way |
| ProxyRecords.StartKeeps | src/ios_webkit_debug_proxy.c:292-335 | a new or kept port that starts to listen, and one that cannot, keeps all links |
| CloseCascade.ClientDropped | src/ios_webkit_debug_proxy.c:571-597 | the steps of the client handler, its recursive removal included, amount to dropping the client with its static request |
| CloseCascade.FetchDropped | src/ios_webkit_debug_proxy.c:625-637 | closing a static request first leads to the same state as closing its client first, if and only if the client knows of the request |
| CloseCascade.SamePortDrop | src/ios_webkit_debug_proxy.c:599-623 | closing an inspector first leads to the same state as closing its port first |
| CloseCascade.ClosesTwice | src/socket_manager.c:338-387 | two nested removals close disjoint descriptors: each callback runs once over both |
| CloseCascade.Proxy.RemoveFd | src/socket_manager.c:338-387 | the re-entrant removal terminates, reaches the state that closing amounts to, and runs the close callback exactly once for each descriptor whose value is gone |
| CloseCascade.Proxy.Remove | src/socket_manager.c:338-387 | from every state without dangling requests, second requests included, and for every number: all links are kept, and no request is left without its client, if and only if no freed client had a request it did not know of |
| CloseCascade.Proxy.CloseFetch | src/ios_webkit_debug_proxy.c:625-637 | the handler of a static request refines its description |
| CloseCascade.Proxy.CloseClient | src/ios_webkit_debug_proxy.c:571-597 | the handler of a client refines its description |
| CloseCascade.Proxy.CloseInspector | src/ios_webkit_debug_proxy.c:599-623 | the handler of an inspector refines its description |
| CloseCascade.Proxy.ClosePort | src/ios_webkit_debug_proxy.c:532-569 | the handler of a port refines its description; a sticky port is kept without a descriptor |
| CloseCascade.Proxy.OnAttach | src/ios_webkit_debug_proxy.c:384-459 | an attached device has a listening sticky port paired with its inspector, exactly when nothing fails; otherwise every descriptor opened for it is closed again, a port that was attached once stays known without a descriptor, and one bound for the first time is forgotten; the records, descriptors and devices are written out for every outcome |
| CloseCascade.RefusedAgain | src/ios_webkit_debug_proxy.c:427-433 | closing the port of a failed attempt leaves what was there before, except that a port never attached is forgotten and a kept one has no descriptor |
| CloseCascade.RefusedLate | src/ios_webkit_debug_proxy.c:449-455 | with the inspector already registered the same is left |
| CloseCascade.Proxy.Listen | src/ios_webkit_debug_proxy.c:292-335 | the port of the device, new or kept, listens exactly when it did not before and can be bound; one that cannot stays known |
| CloseCascade.Proxy.OnDetach | src/ios_webkit_debug_proxy.c:461-471 | a detached device's listening port is closed with all that belongs to it; the links are kept under the same condition |
| CloseCascade.Proxy.Accept | src/ios_webkit_debug_proxy.c:488-497 | a port, and only a port, accepts a client |
| CloseCascade.Proxy.Request | src/ios_webkit_debug_proxy.c:983-991 | a static request is registered and its client knows of it, whether or not it had another |
| CloseCascade.RequestTwiceThenClose | src/ios_webkit_debug_proxy.c:983-1009 | a run of the handlers from a new proxy, with one port and one client, that ends with a registered request naming the freed client |
| Pages.OneOwner | src/ios_webkit_debug_proxy.c:157-164 | no page has two owning clients and no client owns a removed page |
| Pages.TakeOwns | src/ios_webkit_debug_proxy.c:1202-1235 | taking a page keeps ownership if and only if the page's recorded client has not gone to another page |
| Pages.TakeKeeps | src/ios_webkit_debug_proxy.c:1202-1235 | a client that takes its first page, from another client if need be, keeps every invariant; the code does this while no page names a closed client |
| Pages.StopKeeps | src/ios_webkit_debug_proxy.c:1237-1271 | letting a page go keeps every invariant and its recorded client has no page afterwards |
| Pages.CloseKeeps | src/ios_webkit_debug_proxy.c:571-597 | a client that disconnects keeps every invariant between pages and open clients |
| Pages.ClosedIsNamed | src/ios_webkit_debug_proxy.c:571-597 | a page still names the client that disconnected if and only if that client had lost it to a claim |
| Pages.CloseDangles | src/ios_webkit_debug_proxy.c:571-597 | a disconnect leaves a page that points at a freed client if and only if the client had lost a page to a claim |
| Pages.MutualNeverDangles | src/ios_webkit_debug_proxy.c:157-164 | while ownership is mutual no page names a closed client |
| Pages.ClaimThenCloseDangles | src/ios_webkit_debug_proxy.c:1382-1393 | a listing that claims a client's page, followed by the disconnect of that client, leaves such a page |
| Pages.NumbersLast | src/ios_webkit_debug_proxy.c:1376-1379 | a new page gets the next number, which is above 0 and its own if and only if the 32-bit counter does not wrap around to 0 |
| Pages.ListingKeeps | src/ios_webkit_debug_proxy.c:1339-1416 | after a listing ownership holds, numbers are given out once and every page's app is known; (app, id) pairs stay unique if and only if no page that the app did not have is listed twice |
| Pages.ListingReconciles | src/ios_webkit_debug_proxy.c:1339-1416 | afterwards the app has exactly the listed pages, survivors keep their numbers, new ones get numbers never used before, other apps' pages are untouched |
| Pages.ListingExactly | src/ios_webkit_debug_proxy.c:1339-1416 | a page that stays has the connection of the last line for it and is otherwise as it was, a new one is what its line says; a client whose page went has none and number 0, one whose page was claimed has none and keeps its number, any other is as it was |
| Pages.ListingConnections | src/ios_webkit_debug_proxy.c:1394-1396 | when no id is listed twice every page of the app, known before or new, has the connection of its line |
| Pages.ListingTwoWay | src/ios_webkit_debug_proxy.c:1382-1393 | ownership stays mutual over a listing if and only if no line names another inspector for a page that a client has |
| Pages.RemoveAppKeeps | src/ios_webkit_debug_proxy.c:1273-1297 | removing an app removes exactly its pages and keeps every invariant |
| Pages.RemoveAppClients | src/ios_webkit_debug_proxy.c:1273-1297 | the clients of its pages have none and number 0 afterwards, all others are as they were |
| PageHandlers.Devtools.StartDevtools | src/ios_webkit_debug_proxy.c:1202-1235 | the handler refines the taking of a page |
| PageHandlers.Devtools.StopDevtools | src/ios_webkit_debug_proxy.c:1237-1271 | the handler lets go exactly when page and client hold each other under both names: the page then names nobody and the client has no page and number 0 |
| PageHandlers.Devtools.OnDevtoolsRequest | src/ios_webkit_debug_proxy.c:759-781 | a number in the table, and no other, gives the client that page, and a client that the page named before has none but its number; all invariants hold over every run in which each client asks once; no page comes to name a closed client |
| PageHandlers.Devtools.CloseClient | src/ios_webkit_debug_proxy.c:571-597 | the page part of the client handler: the client is gone and its page, if it had one, names nobody; a page is left dangling if and only if the client had lost one to a claim |
| PageHandlers.ClaimThenClose | src/ios_webkit_debug_proxy.c:1382-1393 | a run of the handlers from a new table, with one page and one client, that ends with a page naming a closed client |
| PageHandlers.Devtools.RemoveAppId | src/ios_webkit_debug_proxy.c:1273-1297 | exactly the pages of the app are gone and their clients have none, whatever order the table lists them in |
| PageHandlers.Devtools.OnConnectedApps | src/ios_webkit_debug_proxy.c:1303-1337 | the known apps become the named ones, exactly the pages of the others go and their clients have none; an empty list changes nothing |
| PageHandlers.Devtools.OnListing | src/ios_webkit_debug_proxy.c:1339-1416 | the two passes over the listing and the table refine the reconciliation, connections included (`Pages.ListingExactly`), for every order of the table, and every invariant is kept if and only if no new page is listed twice; ownership stays mutual if and only if nothing is claimed |
| HashTable.KeyAt | src/hash_table.c:89-113 | where the search stops tells whether the map has the key, and its value |
| HashTable.DropHolds | src/hash_table.c:138-154 | without an entry the chains hold the map without its key |
| HashTable.PushHolds | src/hash_table.c:175-185 | with an entry in front the chains hold the map with its key |
| HashTable.ListingIsTheMap | src/hash_table.c:189-202 | the chains list every key of the map exactly once |
| HashTable.Table.Find | src/hash_table.c:89-113 | the walk stops at the first entry of the key, or at the end, and knows the entry before it |
| HashTable.Table.Get | src/hash_table.c:115-130 | yields the value of the map, leaves the map unchanged and the entry in front of its chain |
| HashTable.Table.Remove | src/hash_table.c:138-154 | the map without the key, and the value it had |
| HashTable.Table.Put | src/hash_table.c:156-187 | the map with the key, or without it for a null value, and the value it had |
| HashTable.Table.GetAll | src/hash_table.c:189-202 | every entry exactly once, as its key or its value, and a null at the end, in an array of one more than the number of keys |
| HashTable.Table.Clear | src/hash_table.c:46-59 | an empty table whose key count has come down to 0 |
| Sha1.NextWord | src/sha1.c:88-242 | the 16-word circular array, with the macros S and R of the code, yields word t of the 80-word schedule of FIPS 180-1 |
| Sha1.P | src/sha1.c:88-242 | the macro with its rotated registers is one round of section 7 of FIPS 180-1 |
| Sha1.Process | src/sha1.c:88-242 | a block is processed as FIPS 180-1 compresses it |
| Sha1.CarryCounts | src/sha1.c:247-286 | the two-word length with its carry test counts the octets |
| Sha1.BitCount | src/sha1.c:299-323 | the two words written at the end spell the number of bits |
| Sha1.PaddingFills | src/sha1.c:299-323 | the padding completes a block |
| Sha1.Context.Update | src/sha1.c:247-286 | absorbs a further part of the message whatever is buffered |
| Sha1.Context.Finish | src/sha1.c:299-323 | yields the FIPS 180-1 digest of everything absorbed |
| Sha1.HashPieces | src/sha1.c:76-323 | for every split of a message the result is the digest of the whole |
| Sha1.JoinedParts | src/sha1.c:325-337 | the whole is the parts one after the other |
| Sha1Vector.AbcDigest | src/sha1.c:456-480 | the digest of "abc" is a9993e36 4706816a ba3e2571 7850c26c 9cd0d89d, Appendix A of FIPS 180-1 |
| Base64.EncodedLengthIsExact | src/base64.c:79-100 | the computed size is four characters for each three octets begun |
| Base64.RoundTrip | src/base64.c:79-201 | what the encoder writes is accepted by the decoder and decodes to the input |
| Base64.WithinBound | src/base64.c:142-201 | for every accepted input the decoder stays within the bound it computes |
| Base64.EncodeInto | src/base64.c:79-137 | a destination that is too small is left alone and told the exact size; otherwise the encoding, a NUL and nothing else is written |
| Base64.DecodeInto | src/base64.c:142-201 | every error case and the exact octets written |
| Base64Table.LetterIs | src/base64.c:48-57 | the alphabet, letter by letter |
| Base64Table.EncodedCharacter | src/base64.c:102-131 | each character of an encoding is the letter for its six bits of the three octets it stands for, or a pad character where no bit of it does |
| Base64Table.AcceptedExactly | src/base64.c:146-168 | the decoder accepts an input if and only if it consists of letters, at most two pad characters behind all letters, LF anywhere and CR only before LF |
| Base64Table.BreaksIgnored | src/base64.c:183-184 | a CR or LF anywhere changes nothing of what is decoded |
| Base64Table.DecodedLength | src/base64.c:181-196 | three octets for each complete group, less one for each pad character in it, and none for what is left over |
| Base64Table.DecodedOctet | src/base64.c:181-196 | each octet is its eight bits of the number that the letters of its group spell |
| Base64Table.NeededOctets | src/base64.c:173-179 | the size asked for is the bits of all characters, rounded up to octets |
| Dump.ScanPrint | src/char_buffer.c:136-279 | scanning a dump gives the buffer back for every width |
| Dump.Sprint | src/char_buffer.c:136-227 | the measuring pass returns the count that the writing pass writes, which fits with its NUL |
| Dump.Sscan | src/char_buffer.c:250-279 | the cursor loops compute the scan, including its errors |
| Dump.LineReadBack | src/char_buffer.c:250-279 | one printed line reads back as its octets and the scan goes on behind it |
| Dump.LinePicture | src/char_buffer.c:178-205 | where everything stands in a printed line: the octets in hex, blanks, and the octets that can be shown, others as dots |
| Dump.LineEnds | src/char_buffer.c:178-190 | a line ends where the octets end, where it is full, or behind a newline |
| Dump.LineFits | src/char_buffer.c:153-156 | as many octets to the line as its width takes, and always one |
| Dump.HexDigits | src/char_buffer.c:239-248 | the digits in either case, and nothing else, have values |
| Dump.ScanPairs | src/char_buffer.c:259-269 | two digits and a space for each octet up to a space or a newline, anything else being an error |

## Left out

- Real sockets, `select` itself, SSL, `accept` and `connect`, and the Windows branches: only the outcome of each write is kept. `SocketManager.Manager.Select` copies and filters the sets.
- libplist, libimobiledevice and OpenSSL, and `src/rpc.c`: opaque or thin field access. The messages that the page handlers send to the device are not recorded.
- HTML and JSON texts, static files and MIME types, `src/port_config.c`, option parsing and the choice of a port in `iwdp_listen`: easy members only.
- Failure of an allocation, and allocations or frame lengths of 2^63 octets and more.
- Memory that is used after it was freed: identities are never reused, and a freed client keeps a zeroed record in `Pages`. The code is followed while no page points at a freed client, that is in states with `Pages.NoDangling`; what it does behind `Pages.CloseDangles` is not part of this model.
- `headers` and `headers_length` of the HTTP callback (src/websocket.c:681), which expose buffer internals, and the dead state KEEP_ALIVE.
- Callbacks that re-enter the engine they are called from, except control frames sent from inside a callback (`WsSession.EveryMove`); the callback for a completed send is only recorded.
- WsEndpoints.Connect: sends come between the calls of `OnRecv`; those from inside a callback are moves in `WsSession`.
- SocketManager.Manager.Recv: what a handler does besides sending on registered descriptors is left to the other modules.
- HMAC, the other vectors of the self-tests of `src/sha1.c` and `src/base64.c`, and the replacement headers for libc.
- The line limit of `cb_sprint` and its width when none is given, `cb_asprint` and `cb_asscan`.
- Page pointers while an inspector is closed before its clients (src/ios_webkit_debug_proxy.c:608-621): `CloseCascade` closes the descriptors, `Pages` keeps its inspector.
- SocketManager.Manager.RemoveFd: the close callback of line 351 runs before any of the sets changes, so its own calls are steps that come before this one; `CloseCascade` models the nesting.
- CloseCascade.Proxy.OnAttach: the descriptor numbers that the system hands out are taken to be new, as they are for the kernel, and `AddFd` is not refused.
- Http.ScanLine: the value of a line without a colon ends where the input that has arrived ends, or at a NUL before; the code reads on in its buffer until it meets a NUL.
- Websocket.ReadFrameInto: a payload length that wraps around is an error here. That is so in the code where the buffer cannot be made large enough; `Websocket.PayloadFits` says when it is taken for large enough without being so, and what follows then is not part of this model.
- Pages.ListingKeeps: is stated until 2^32 pages have been seen; `Pages.NumbersLast` says that the next one breaks it.
- Pages.ListingReconciles: the same.
- Pages.ListingTwoWay: the same.
- PageHandlers.Devtools.OnListing: page numbers are 32 bits wide and wrap around; this is stated until 2^32 pages have been seen.
- PageHandlers.Devtools.OnDevtoolsRequest: a client asks for a page once, since its connection is upgraded once (`WsTheorems.EveryRun`); `Pages.TakeOwns` says when a further request would be harmless.
- WebInspector.EndToEnd: is stated for partials or a simulator; to a device that knows no partials the sender appends an empty packet (src/webinspector.c:275-279), which this receiver does not take.
- WsProtocol.ChunkingIndependence: for streams with a header block that is not local it does not say which cuts agree; `WsReports.ReportsExactly` does for the first request.
- WsReports.ReportsExactly: is stated for headers that are read up to their blank line. A line that starts with a space ends the reading early, and what is left of the headers is then taken for a request line; `WsReports.FirstRequestExactly` covers these too.
- CloseCascade.Proxy.Remove: starts from states in which no request names a freed client; what the code does behind one that does is not part of this model.
- HashTable.Table.Put: keys are compared by value, so which of two equal key pointers an entry keeps is not modelled; the hash is an arbitrary function, which covers integer and string keys.
