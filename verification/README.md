# Local message transports, verified

The repository carries messages between processes on one machine over two
hand-written transports: a JSON-RPC client over a WebSocket (`codexmsg`) and a
newline-framed inbox over a unix socket (`udsmsg`). A delivery layer (`deliver`)
puts one front on both. This project models the logic of all three in Dafny and
proves what they are for: no caller hangs or is answered with someone else's
response, no frame is misread, no message arrives cut or altered, nothing is
delivered to a target other than the first, and no connection leaks.

`dafny verify dfyconfig.toml` checks everything.

| file | models |
|---|---|
| `RpcClient.dfy` | `codexmsg/client.go`, ids of `codexmsg/jsonrpc.go`: Calls, the reader, `fail` and `Close` as interleaved steps, and the locked blocks as a class |
| `WebSocket.dfy`, `WsConn.dfy` | the frame codec of `codexmsg/ws.go`, as functions and as the object with its header array and loops |
| `Reassembly.dfy` | `ReadMessage`: on bytes, on frames, and its acceptance set in closed form |
| `ReadLoop.dfy` | `ReadMessage` called until it fails, as `readLoop` does |
| `WireWriters.dfy` | who writes to the connection: two writes a frame, with and without `writeMu` |
| `Inbox.dfy` | `udsmsg/server.go`: line reader, connection loop, authentication gate; and a client against it |
| `Frames.dfy`, `Json.dfy`, `JsonText.dfy`, `Utf8.dfy`, `Decimal.dfy` | `udsmsg/frame.go` and the JSON it relies on |
| `Envelope.dfy` | `udsmsg/attrib.go`: wrapping, scrubbing, and the two patterns of `Unwrap` |
| `Delivery.dfy` | `deliver/deliver.go`, `deliver/claude.go`, `udsmsg/client.go`: composing, building and sending, end to end |
| `Sizes.dfy`, `Floor.dfy` | the exact length of a line, `Fits`, and `MaxIntactBytes` |
| `CodexBackend.dfy` | `deliver/codex.go`: the target latch and who owns a connection |
| `Uuid.dfy` | `codexmsg/uuid.go` and `newUUID` |
| `Bytes.dfy`, `Bits.dfy` | byte strings, big-endian integers, bitwise operators |

## Conventions

A Go `string` and a `[]byte` are both a sequence of bytes 0..255. Random bytes
and masks, the clock, the bytes a peer sends, how a buffered reader chops them,
and when a write fails are parameters, so every theorem holds for all of them.
Concurrency is a step system: a lock-protected block is one step, a channel
operation or an I/O call outside a lock is another, and a run is any sequence of
enabled steps. A send on a closed channel and a second close set `panicked`.

## Where the code differs from what one would expect

- `ReadMessage` refuses a data frame inside a fragmented message by looking at
  `len(buf) > 0`, so a fresh data frame after only empty fragments is delivered.
  `AcceptanceSet` gives the exact set; `EmptyFirstFragmentIsForgotten` is the
  smallest example.
- Pongs, close echoes and `Close` write without `writeMu`, so frames are not always
  whole. `WholeExactly` says for which writers they are, whatever the schedule: any
  two must both hold the lock or both have no payload; beside a request, everyone
  must hold it (`WholeBesideARequest`). `AdjacentIffNoClash` is the same for one
  schedule, and `StreamIsFrames` gives the bytes of a clean one. `PongInsideARequest`
  works out the bytes when a pong goes between a request's two writes, reached by
  `BetweenTheWritesIsReached`. At most one value of the request's first mask byte
  spares it (`OneMaskSpared`); `PongCorruptsThisRequest` is one it does not.
- `Fits` says it shares its construction with the send path so that the two
  cannot disagree, but leaves out the sender's mode. `FitsShortfall` gives the
  difference, `FitsAgreesExactly` when the answer is wrong, and `FitsIsWrong` a
  delivery for which it is. `Deliver` also
  refuses every text over `MaxIntactBytes`, whatever `Fits` said
  (`FitsIsNotEnough`). `FitsMatchesDeliver` says exactly when the two agree, and
  `FitsIsWrongWithinTheFloor` shows the mode's bytes alone making the difference.
- `MaxIntactBytes` is described as a number that holds for content nobody
  inspected. The sender's name has no length limit, so it holds for exactly the
  senders of `FloorExactly`: with a declared posture or none, any name of at most
  1220 bytes once scrubbed, and not every name of 1221 (`NameBoundIsTight`).
- The overheads reserve room for the cursor trailer, and the tests read
  `MaxIntactBytes` as a size of body. The cursor has no length limit either:
  `BodyFloorExactly` and `IntactBodiesFit` say for which cursors every such body fits
  the line and the daemon's limit. Claude's `Deliver` nevertheless holds the whole
  composed text to the number, so it refuses every body of that size
  (`IntactBodyRefused`); `DeliveredBodies` gives the size it does accept.
- A refused delivery is not always a silent one: `Dial` has sent the auth frame by
  the time `SendUser` looks at the reply address and the size. `InboxHears` says
  exactly when the inbox has read nothing, the auth frame alone, or both.
- The Codex `Deliver` checks `Available` and then reads the thread again under a
  second lock. `RereadExactly` says what it can find there;
  `EmptyTargetIsReached` shows a message queued for no thread.
- A version 7 id sorts by its 48-bit clock field. `V7OrderExactly` says when the order
  `NewUUIDv7` promises holds between two times whatever the random bits; an id sorts
  after those of every earlier millisecond if and only if its time is below 2^48
  (`V7Ordered`), and two ids of one millisecond are in no fixed order.

## Model

| member | source | states |
|---|---|---|
| RpcClient.KeySeparates | codexmsg/jsonrpc.go:42-47 | two ids share a pending key if and only if they are the same string, or both numbers and equal: the two kinds never collide |
| RpcClient.KeysDistinct | codexmsg/client.go:153-166 | no two calls share a key until the int64 counter has gone all the way round |
| RpcClient.Wrap64Is | codexmsg/client.go:153 | the counter stays within 64 bits and differs from the number of calls by whole laps |
| RpcClient.InvStep | codexmsg/client.go:91-222 | every step of Call, the reader, fail and Close keeps the ownership invariant |
| RpcClient.EveryRunIsSafe | codexmsg/client.go:91-140 | in every interleaving no channel is sent to after close or closed twice, `done` closes at most once, and a call's channel is in at most one of the map, the reader's hand and fail's snapshot |
| RpcClient.SendNeverBlocks | codexmsg/client.go:105-113 | whenever the reader holds a channel, its one-slot send is enabled and does not panic |
| RpcClient.ResponseDelivered | codexmsg/client.go:104-113 | at any point of any run, a response to a call still in the map goes into that call's channel and no other, is not discarded, and a caller waiting there returns it |
| RpcClient.DiscardedExactly | codexmsg/client.go:104-113 | a response is discarded if and only if it answers no call in the map |
| RpcClient.TakenIsNeverLost | codexmsg/client.go:104-113 | a response the reader has taken for a call is in its hand, in that call's channel or returned by it, ever after |
| RpcClient.CallAnswered | codexmsg/client.go:144-197 | a whole call: on an open client that is reading, the next call, written and answered under its own id, returns exactly that answer |
| RpcClient.WithdrawnCall | codexmsg/client.go:169-181 | a call whose write fails or whose caller gives up returns that reason and leaves the map, and everyone else in it |
| RpcClient.ClosedCalls | codexmsg/client.go:160-185 | on a closed client a new call is refused and registers nothing, and a waiting one returns the close unless its answer had come |
| RpcClient.FailTakesAll | codexmsg/client.go:122-140 | the first fail of a run closes the client, takes charge of exactly the calls in the map, and records the reader's error, none for a Close or an orderly end |
| RpcClient.CloseCloses | codexmsg/client.go:213-222 | Close on an open client goes through to a closed one, and on a closed one changes nothing |
| RpcClient.RunAwaited | codexmsg/client.go:160-185 | in every run an unsignalled caller has exactly one party that will signal it |
| RpcClient.NoLostWakeup | codexmsg/client.go:122-140 | once fail's loop is over and no send is in hand, every caller still expecting has its own response in its slot or a closed channel |
| RpcClient.FailIsFinal | codexmsg/client.go:122-134 | after fail the map stays empty, the client closed and the error as recorded, for ever |
| RpcClient.DebtNeverGrows | codexmsg/client.go:136-139 | what fail still owes never increases, whatever else runs |
| RpcClient.DebtIsPayable | codexmsg/client.go:136-139 | while anything is owed some step that pays part of it is enabled |
| RpcClient.FailSettles | codexmsg/client.go:105-140 | from every state after a fail, a schedule of only its own closes and the reader's send reaches the state of NoLostWakeup: no caller has to move |
| RpcClient.PayingStaysEnabled | codexmsg/client.go:105-140 | once fail has run, the reader's send and each of fail's closes stays enabled under every other step until it is taken |
| RpcClient.FairRunSettles | codexmsg/client.go:105-140 | every endless run that does not neglect those steps for ever reaches the state of NoLostWakeup |
| RpcClient.EveryCallerWakes | codexmsg/client.go:122-140 | in every such run from a new client, some time after a fail every caller still expecting has its own response in its slot or a closed channel |
| RpcClient.ResponsesCorrelate | codexmsg/client.go:104-113 | over every run what a call returns is a response carrying that call's own numeric id, and a call's channel takes at most one |
| RpcClient.SpentStays | codexmsg/client.go:160-181 | a call that has left the pending map never returns to it, in any run |
| RpcClient.LateResponseDiscarded | codexmsg/client.go:104-113 | a second, late or cancelled answer to a call changes nothing but the count of discards, at every later point of every run |
| RpcClient.ResponsesConserved | codexmsg/client.go:104-113 | responses looked up equal those discarded, those sent to a channel and the one in hand: none is duplicated or vanishes |
| RpcClient.Client.Lookup | codexmsg/client.go:106-109 | the reader's locked block returns the key's channel and forgets the key |
| RpcClient.Client.Enter | codexmsg/client.go:160-167 | Call's locked block registers a fresh channel unless the client is closed, and then changes nothing |
| RpcClient.Client.Fail | codexmsg/client.go:122-140 | exactly the channels that were pending are closed, each once, and a second fail is a no-op |
| WebSocket.MaskInvolution | codexmsg/ws.go:127-130 | masking twice with a key gives the payload back |
| WebSocket.MaskedHello | codexmsg/ws.go:185-189 | the masked text frame of section 5.7 of RFC 6455 reads as its "Hello" |
| WebSocket.HeaderDecodes | codexmsg/ws.go:147-170 | in each length form the header alone gives back opcode, FIN, mask bit and length |
| WebSocket.ReadEncoded | codexmsg/ws.go:147-191 | any well-formed frame, in any length form, masked or not, is read back with exactly its suffix left |
| WebSocket.FrameOrigin | codexmsg/ws.go:147-191 | conversely, every stream on which readFrame succeeds starts with the encoding of a well-formed frame with that opcode, payload and FIN |
| WebSocket.OversizedRefusedOnHeader | codexmsg/ws.go:171-173 | a length over the cap is refused whatever follows the header, which is left unread |
| WebSocket.WriteReadRoundTrip | codexmsg/ws.go:102-139 | for every opcode below 16, mask and payload, readFrame of writeFrame's bytes and a suffix gives them back, or the refusal when over the cap |
| WebSocket.ShortestIsShortest | codexmsg/ws.go:106-117 | the length form writeFrame picks is strictly shorter than any other that fits |
| WebSocket.FramesDelimitThemselves | codexmsg/ws.go:147-191 | two encoded frames that start one stream agree on opcode, payload, FIN and where they end |
| WsConn.BuildHeader | codexmsg/ws.go:103-118 | the header array filled in place is the section 5.2 header in the shortest form |
| WsConn.BuildFrame | codexmsg/ws.go:102-130 | the two pieces handed to the connection concatenate to the encoded frame |
| WsConn.MaskLoop | codexmsg/ws.go:127-130 | the masking loop computes the section 5.3 mask |
| WsConn.Unmask | codexmsg/ws.go:185-189 | unmasking in place leaves the array holding the mask of what it held |
| WsConn.SplitBits | codexmsg/ws.go:152-155 | the four bit tests recover FIN, opcode, mask bit and seven-bit length |
| WsConn.Conn.WriteFrame | codexmsg/ws.go:102-139 | appends exactly the encoded frame, or fails: the first failure leaves any proper prefix of its frame behind, a later one nothing |
| WsConn.Conn.ReadFrame | codexmsg/ws.go:147-191 | the reading method computes ReadFrame of the unread bytes and leaves the stream after the frame |
| WsConn.Conn.ReadMessage | codexmsg/ws.go:196-233 | the loop's answer, stream position and written replies are those of Reassembly.ReadMessage; it terminates on every stream |
| WsConn.Conn.ReadLoop | codexmsg/client.go:91-97 | reading until an error gives the messages, the error and the written replies of ReadLoop.ReadAll |
| Reassembly.ReadMessage | codexmsg/ws.go:196-233 | the loop as a function of the bytes; every completed message consumed at least two, and replied no more often than the connection allowed |
| Reassembly.ReadRefinesAssemble | codexmsg/ws.go:196-233 | reading encoded frames and any bytes after them is assembling the frames: stops at the same frame boundary, with the same replies |
| Reassembly.AssembleExact | codexmsg/ws.go:204-231 | with pings and pongs anywhere between, the loop completes at the last frame if and only if the data frames satisfy the closed form, and then returns their payloads in order with one pong a ping |
| Reassembly.AcceptanceSet | codexmsg/ws.go:215-231 | the data frames completed are exactly a section 5.4 message preceded by nothing or by unfinished empty fragments |
| Reassembly.ReadMessageExact | codexmsg/ws.go:196-233 | on any encoding of any such run, ReadMessage returns the payload, one pong per ping in order, and stops at the next byte, if and only if the run is in the acceptance set |
| Reassembly.MessageIsRun | codexmsg/ws.go:196-233 | conversely, whenever ReadMessage returns a message, on any bytes, it read the encoding of a run in the acceptance set, its payloads are the data and its pongs the replies |
| ReadLoop.ReadsInOrder | codexmsg/client.go:91-97 | a stream of accepted runs is read as their messages in order with every ping answered in order, and then as whatever follows |
| ReadLoop.EveryStream | codexmsg/client.go:91-97 | every stream whatever divides into accepted runs and a remainder from which the next read fails; what is read is exactly those runs' messages and that failure |
| Reassembly.RfcFragmentationRead | codexmsg/ws.go:196-233 | every section 5.4 fragmentation of every message, with control frames interleaved, is read whole |
| Reassembly.MisplacedIsRejected | codexmsg/ws.go:215-224 | the first data or continuation frame out of place is the matching error, after the pings before it were answered and with nothing after it looked at |
| Reassembly.MisplacedReadRejected | codexmsg/ws.go:196-233 | the same on the wire, for every encoding of the frames and whatever bytes follow |
| Reassembly.CloseEndsReading | codexmsg/ws.go:212-214 | after any unfinished run of frames a close frame is echoed with its payload, if the connection still takes a write, and reported as the close, with the pings before it answered and whatever bytes follow |
| Reassembly.RefusedPongEndsReading | codexmsg/ws.go:205-209 | likewise a ping whose pong cannot be written ends the reading with that failure |
| Reassembly.UnknownOpcodeEndsReading | codexmsg/ws.go:226-227 | likewise a frame of a reserved opcode is an error naming it |
| Reassembly.BrokenFrameEndsReading | codexmsg/ws.go:200-203 | likewise bytes that end within a frame are the end of the stream, and a frame over the cap an error with its length |
| Reassembly.FailureOrigin | codexmsg/ws.go:196-233 | conversely, on any bytes whatever, a reading that fails broke off after an unfinished run at bytes that give exactly that error |
| Reassembly.EmptyFirstFragmentIsForgotten | codexmsg/ws.go:216-220 | a second text frame after an empty first fragment is delivered although section 5.4 forbids it |
| WireWriters.AdjacentIffNoClash | codexmsg/ws.go:131-138 | over every run from a new connection, each frame's header and payload are adjacent on the stream and nothing follows a torn write, if and only if no write landed between another writer's two |
| WireWriters.WholeExactly | codexmsg/ws.go:131-138 | every schedule of a set of writers leaves whole frames if and only if any two of them both hold writeMu or both have an empty payload |
| WireWriters.WholeBesideARequest | codexmsg/client.go:199-203 | with a request among them, if and only if every one of them holds writeMu |
| WireWriters.ClashNeedsUnlocked | codexmsg/client.go:199-203 | whenever two writers clash, at least one of them does not hold writeMu |
| WireWriters.CallsNeverClash | codexmsg/client.go:199-203 | runs of Calls alone never clash |
| WireWriters.StreamIsFrames | codexmsg/ws.go:131-138 | in bytes: nothing open means exactly the encoded frames in order; one open or torn means those before it and a proper prefix of it |
| WireWriters.OneFrameEach | codexmsg/client.go:199-203 | on an unbroken connection every writer past its first write has exactly one frame on the stream, and no other has any |
| WireWriters.EveryoneFinishes | codexmsg/client.go:199-203 | no run deadlocks: from every state every writer can be brought to its end and the lock released, on a broken connection too |
| WireWriters.CallsWriteWholeFrames | codexmsg/client.go:199-203 | for every interleaving of Calls the stream is adjacent writes, in bytes whole request frames, one for each, at most the last incomplete |
| WireWriters.HeaderTakesWhatFollows | codexmsg/ws.go:147-191 | whatever bytes follow a header, the peer reads as many as it announces, unmasked; they are the payload if and only if they were its masked bytes |
| WireWriters.InterruptedStream | codexmsg/ws.go:131-138 | from any state reached without a clash and between a frame's two writes, another writer's whole frame can go out there, and the bytes are then the complete frames, the header, the other frame and the payload |
| WireWriters.OneMaskSpared | codexmsg/ws.go:120-138 | whatever the two frames, a frame between another's two writes leaves it readable for at most one value of its first mask byte |
| WireWriters.PongInsideARequest | codexmsg/ws.go:206 | for every request and pong so interleaved: what the peer reads, that it is the request if and only if pong and masked request together begin with the masked request, and that the bytes are the two whole frames if and only if those two commute |
| WireWriters.PongCorruptsARequest | codexmsg/ws.go:206 | every request whose first masked byte is not a pong's first byte is read as something else |
| WireWriters.PongCorruptsThisRequest | codexmsg/ws.go:206 | a concrete request and mask for which that happens |
| WireWriters.BetweenTheWritesIsReached | codexmsg/ws.go:206 | the state those runs start from, for every request and pong, is reached from a new connection |
| Inbox.SplitSpec | udsmsg/server.go:390-406 | the simple split: newline-free pieces that join back to the stream |
| Inbox.SplitUnique | udsmsg/server.go:390-406 | no other list of newline-free pieces joins to that stream |
| Inbox.Source.ReadLine | udsmsg/server.go:390-406 | for every buffering, the line, its completeness, the too-long verdict and the rest are those of the unbuffered FirstLine |
| Inbox.ServedIsSplit | udsmsg/server.go:298-321 | the lines served are the non-empty pieces of the simple split, a last unterminated one included, before the first over the cap |
| Inbox.ConnIsEvents | udsmsg/server.go:271-322 | the connection loop is dispatch over the served lines |
| Inbox.DispatchTo | udsmsg/server.go:333-374 | one line's event, the peer's Authed and the verdict on the connection are those of DispatchLine |
| Inbox.HandleConn | udsmsg/server.go:271-322 | whatever the buffering, the connection's record is Conn of its bytes |
| Inbox.EveryLineAccounted | udsmsg/server.go:298-374 | each line up to the end yields exactly one event, determined by it and the first line; the end is the last line or the first that destroys the connection |
| Inbox.AuthenticationGate | udsmsg/server.go:346-366 | under RequireAuth a frame is dispatched only if the first non-empty line was an auth frame with the right token, and then as authenticated; a first-line auth frame is never dispatched |
| Inbox.ProcessedExactly | udsmsg/server.go:298-366 | a line is processed unless authentication is required, the first line did not give it, and an earlier line held a typed frame |
| Inbox.HandlerCalled | udsmsg/server.go:368-384 | on a connection that serves it a user frame reaches OnUser if that is set; anything else typed reaches OnUnknown if that is; a frame is let go of only when neither takes it; each with the authentication the first line earned |
| Inbox.LineNotHanded | udsmsg/server.go:333-366 | every other processed line, each with exactly the condition for its record: unparsable, untyped, accepted, a wrong token either way, or not authenticated |
| Inbox.OverlongExactly | udsmsg/server.go:298-321 | a connection ends for an over-long line if and only if one of its pieces is over the cap and no typed frame had ended it before |
| Inbox.OpenStaysOpen | udsmsg/server.go:346-384 | once authenticated nothing closes the connection, every line is processed, and every user frame reaches OnUser as authenticated |
| Inbox.SentIsServed | udsmsg/frame.go:85-94 | every line encodeFrame emits passes the reader: the frames sent are the lines served |
| Inbox.SessionWithToken | udsmsg/client.go:52-74 | the right token gets every user frame dispatched in order as authenticated; a wrong one none where authentication is required and all, unauthenticated, where it is not |
| Inbox.SessionWithoutToken | udsmsg/client.go:52-74 | dialling without a token is cut off at the first frame or served unauthenticated, as the server requires |
| Inbox.SessionExactly | udsmsg/client.go:52-74 | the events of every session, for any token on either side, with or without authentication required, and any number of user frames, none included |
| Inbox.EveryFrameReachesUser | udsmsg/server.go:368-384 | in every session an inbox with OnUser hears, the events after the opening are the frames sent, each handed to OnUser in order, authenticated if and only if the token was right |
| Frames.EncodeFrame | udsmsg/frame.go:85-94 | an accepted line ends in its newline and is within the cap |
| Frames.FrameRoundTrip | udsmsg/frame.go:74-94 | every frame decodes to itself with each string's invalid UTF-8 replaced |
| Frames.ValidFrameRoundTrip | udsmsg/frame.go:74-94 | a frame of valid UTF-8 decodes to exactly itself |
| Frames.LineExactly | udsmsg/frame.go:74-81 | an object of plainly spelled members in any order, repeated and unknown ones included, is read if and only if each known one has its type, and each field is then the last one under its key |
| Frames.TrailingBytesRefused | udsmsg/frame.go:74-81 | a frame with anything but white space after it is refused |
| Frames.MarshalIsOneLine | udsmsg/frame.go:85-94 | a printed frame is never empty and holds no newline |
| Json.ParsePrinted | udsmsg/frame.go:74-94 | any printed string or object followed by anything, and any printed number followed by anything but a digit, parses back, strings sanitized, leaving exactly what followed |
| JsonText.QuoteRoundTrip | udsmsg/frame.go:74-94 | reading an escaped string gives the string with invalid bytes replaced and leaves what followed its quote |
| JsonText.PairRead | udsmsg/frame.go:74-81 | a character beyond the basic plane is read from its two escapes |
| JsonText.LoneHalfRead | udsmsg/frame.go:74-81 | half such a pair reads as U+FFFD and takes nothing that follows it |
| JsonText.AsciiCost | udsmsg/client.go:148-151 | what each ASCII character costs on the line: two bytes, six or one |
| JsonText.EscapeExpansion | deliver/claude.go:55-59 | escaping grows no byte string, valid or not, by more than a factor of six |
| Sizes.SixIsTight | deliver/claude.go:55-59 | the factor is attained at every length |
| Utf8.SanitizeFixes | udsmsg/frame.go:74-94 | a string survives the trip through JSON unchanged if and only if it is valid UTF-8 |
| Envelope.WrapBuilder | udsmsg/attrib.go:49-76 | the builder writes the envelope of the normalised attribution around the text |
| Envelope.UnwrapLoop | udsmsg/attrib.go:112-128 | the attribute loop computes Unwrap |
| Envelope.ScrubIdempotent | udsmsg/attrib.go:81-93 | scrubbing a scrubbed name changes nothing |
| Envelope.ScrubInert | udsmsg/attrib.go:78-93 | a scrubbed name is valid UTF-8 with no byte that could end the attribute, the tag or the line |
| Envelope.ScrubExactly | udsmsg/attrib.go:78-93 | for every name, what is left is exactly the characters that are no quote, angle bracket or control character and are outside the leading and trailing white space, in order |
| Envelope.ScrubSame | udsmsg/attrib.go:78-93 | a name is left as it is if and only if it is valid UTF-8, holds none of those and neither begins nor ends with white space |
| Envelope.SaidExactly | udsmsg/attrib.go:63-69 | the address is said as it is or left out, said exactly when it is up to 111 of its own characters; the mode exactly when it is prompting |
| Envelope.WrapReads | udsmsg/attrib.go:45-76 | the bytes of an envelope, its attributes in the order of a captured frame |
| Envelope.UnwrapExactly | udsmsg/attrib.go:95-119 | a content is taken for an attributed message if and only if it has the envelope's shape from end to end, and then in one way only |
| Envelope.ListedFound | udsmsg/attrib.go:102-128 | any list of attributes in a tag, unknown and empty ones included, is found as listed |
| Envelope.AttributesExactly | udsmsg/attrib.go:117-126 | each field is the last value under its own name, and other names are ignored |
| Envelope.EnvelopeRoundTrip | udsmsg/attrib.go:49-128 | for every attribution and text, envelopes and closing tags inside included, unwrapping gives the text and the normalised attribution |
| Envelope.RewrapSame | udsmsg/attrib.go:49-93 | wrapping with the normalised attribution gives the same bytes |
| Delivery.ComposeBuilder | deliver/deliver.go:246-271 | the builder writes body, gap and trailer |
| Delivery.ComposeReads | deliver/deliver.go:246-271 | the composed text begins with the whole body and ends with the bracketed trailer, which says the cursor or that there is none, and whether more waits |
| Delivery.BodyRecovered | deliver/deliver.go:246-271 | with the same trailer no two bodies make the same text |
| Delivery.AddressExactly | udsmsg/addr.go:20-34 | a reply address is the scheme and a path of one to 107 characters on one line |
| Delivery.OwnIdAccepted | udsmsg/client.go:120-130 | BuildUserFrame never refuses an id it generated: it fails exactly on a badly shaped reply address |
| Delivery.SanitizeWrapped | udsmsg/attrib.go:49-76 | invalid UTF-8 in a wrapped text is replaced inside the text and nowhere else |
| Delivery.FrameArrives | udsmsg/client.go:120-146 | the frame built for a delivery, once decoded, is version 1, of role user and priority next, without a token, and unwraps to the composed text and the normalised attribution |
| Delivery.UserFrameDecodes | udsmsg/client.go:120-146 | for every User, with or without id, priority and attribution, the fields the receiver decodes |
| Delivery.SendToInbox | udsmsg/client.go:31-118 | Dial and SendUser against any inbox under every buffering: a message whose frame encodeFrame accepts, however long its text, is dispatched exactly once where the sender is heard, to OnUser where there is one and else to OnUnknown, and its content unwraps to the normalised attribution and the composed text, byte for byte if and only if that is valid UTF-8; a refused message leaves the auth frame alone, and nothing is dispatched |
| Delivery.DeliverToInbox | deliver/claude.go:111-161 | the same of Deliver, which sends nothing at all without a token, over the floor or when its auth frame is too long |
| Sizes.FrameSize | udsmsg/client.go:152-163 | the exact line length of any frame, member by member |
| Sizes.WrapSize | udsmsg/attrib.go:49-76 | the exact escaped length of an envelope around any text |
| Floor.ExactSizes | deliver/claude.go:73-83 | the frame sent and the frame measured are refused together, and their lengths are given exactly |
| Floor.FitsShortfall | deliver/claude.go:77-81 | Fits measures the line exactly without a posture and exactly 24 bytes short with prompting |
| Floor.FitsAgreesExactly | deliver/claude.go:73-83 | Fits agrees with encodeFrame if and only if the line without its mode does not end within the mode member's length of the cap, and errs only by saying yes |
| Floor.FitsIsWrong | deliver/claude.go:73-83 | a delivery Fits accepts at exactly the cap and encodeFrame refuses |
| Floor.ComposedSize | deliver/deliver.go:246-271 | every composed text expands to at most six times its length less fifty |
| Floor.AddressBound | udsmsg/client.go:127-129 | no accepted reply address costs more than 656 bytes of line, in both its places |
| Floor.FloorExactly | deliver/claude.go:61-69 | every text within MaxIntactBytes is carried for every reply address if and only if the sender's name and mode cost at most the reserve |
| Floor.NameBound | deliver/claude.go:61-69 | with a posture declared or none, 1220 bytes of scrubbed name are within the reserve |
| Floor.NameBoundIsTight | deliver/claude.go:61-69 | a name of 1221 bytes, and the address and text within the floor, that do not fit a line |
| Floor.DeliverExactly | deliver/claude.go:111-157 | which of its five outcomes Deliver has, on every input, in sizes known before the call |
| Floor.InboxHears | deliver/claude.go:141-157 | what an inbox sharing the token has read when Deliver returns: nothing, the auth frame alone, or the message, each if and only if its size condition holds; no refusal dispatches anything |
| Floor.WithinTheFloorIsWritten | deliver/claude.go:111-157 | with a bounded name, a delivery is written if and only if its text is within MaxIntactBytes |
| Floor.WrittenFits | deliver/claude.go:71-83 | whatever Deliver writes, Fits accepts |
| Floor.FitsMatchesDeliver | deliver/claude.go:71-157 | on every input, when Fits says yes exactly if Deliver writes: in terms of the address, the dial and the line's length alone |
| Floor.FitsIsWrongWithinTheFloor | deliver/claude.go:71-157 | a delivery within the floor that Fits measures at exactly the cap and Deliver refuses after dialling |
| Floor.FitsIsNotEnough | deliver/claude.go:115-124 | prose under the cap, from a body of exactly MaxIntactBytes on, fits and is refused |
| Floor.BodyFloorExactly | deliver/claude.go:51-69 | every body of at most MaxIntactBytes bytes is within the cap, for a given sender, cursor and mode, if and only if everything around the body costs at most what six times MaxIntactBytes leaves |
| Floor.DeliveredBodies | deliver/claude.go:115-124 | every body of up to n bytes is written if and only if n, the trailer and its surroundings are within MaxIntactBytes |
| Floor.IntactBodyRefused | deliver/claude.go:115-124 | a body of exactly MaxIntactBytes is refused whatever its cursor |
| CodexBackend.IntactBodiesFit | deliver/codex.go:39-66 | every body of at most MaxIntactBytes bytes is within the daemon's limit in characters if and only if its trailer, in characters, is within the overhead reserved for it |
| CodexBackend.Backend.Adopt | deliver/codex.go:92-121 | Adopt's new state and which of its answers it gives |
| CodexBackend.Backend.Take | deliver/codex.go:123-127 | Close's locked block hands over the stored client and forgets it |
| CodexBackend.Backend.Store | deliver/codex.go:157-166 | connect's second block keeps the first client stored and tells the caller whose won |
| CodexBackend.IdIsTheText | deliver/deliver.go:225-238 | the thread id is the metadata's own text, untrimmed, if and only if that is a text with a character that is not white space; no value is no id |
| CodexBackend.FirstTextLatches | deliver/codex.go:92-113 | the first such text a run adopts is the thread it aims at |
| CodexBackend.CheckedExactly | deliver/codex.go:68-86 | over every run Available says yes if and only if the harness is reachable and exactly one id has been adopted |
| CodexBackend.EveryRunLatches | deliver/codex.go:92-121 | in every interleaving of Adopt, Deliver and Close: disabled if and only if two distinct valid ids were adopted; thread is the first id or empty; nothing is ever queued for any other, nor for none unless disabled |
| CodexBackend.LatchIsFinal | deliver/codex.go:92-121 | disabled never resets and a latched thread is never replaced by another |
| CodexBackend.RereadExactly | deliver/codex.go:180-187 | a delivery past Available re-reads the first id, or nothing if and only if a second id got in |
| CodexBackend.EmptyTargetIsReached | deliver/codex.go:181-207 | for any two distinct ids some run queues a message for no thread |
| CodexBackend.OwnStep | deliver/codex.go:123-167 | every step moves a client between the store, one goroutine's hand and closed, and never copies or drops one |
| CodexBackend.EveryClientIsPlaced | deliver/codex.go:123-167 | in every run each client dialled has exactly one place, and with no connect or Close in progress every one but the stored one has been closed exactly once |
| CodexBackend.EveryConnectionIsShared | deliver/codex.go:133-167 | in every run the client a delivery goes on with is the one the backend held when its connect last looked, found, stored or lost to, and never one its own goroutine closed |
| CodexBackend.LoserClosesItsOwn | deliver/codex.go:157-163 | a goroutine that lost the race closes its own client, once, and no other, and goes on with the winner's |
| CodexBackend.EverySubmission | deliver/codex.go:180-207 | the messages a run queues are exactly its Queue steps, each for the thread its goroutine last re-read and over the client its connect last saw |
| CodexBackend.DeliveryGoesThrough | deliver/codex.go:175-207 | a delivery told the thread is reachable can always be carried through, over the stored client or over one it dials and stores |
| CodexBackend.FailedDialLeavesNothing | deliver/codex.go:142-153 | a dial or an Initialize that fails ends the delivery with nothing stored or queued, and the client it dialled closed once |
| CodexBackend.FailedQueueDrops | deliver/codex.go:207-213 | after a failed queue a goroutine can do nothing before it has dropped the shared client |
| Uuid.FormatIsUUID | codexmsg/uuid.go:28-31 | sixteen bytes always format to the shape msgIDPattern accepts |
| Uuid.NewUUIDv7 | codexmsg/uuid.go:14-26 | the bytes overwritten in place are the version 7 layout of section 5.7 of RFC 9562 |
| Uuid.NewUUID | udsmsg/session.go:148-157 | the bytes masked in place are the version 4 layout, and the id matches msgIDPattern |
| Uuid.VersionShown | codexmsg/uuid.go:24-31 | the formatted id shows its version, 7 or 4, and the variant of RFC 9562, whatever the random bits |
| Uuid.SameIdExactly | codexmsg/uuid.go:14-31 | two ids are the same if and only if all the bits that were to go into them are: 48 of clock and 74 random ones, or 122 random ones |
| Uuid.V7OrderedByField | codexmsg/uuid.go:14-31 | ids sort as strings by their 48-bit clock field whatever the random bits |
| Uuid.V7OrderExactly | codexmsg/uuid.go:11-31 | ids of one time sort before ids of another whatever their random bits if and only if the first time is smaller modulo 2^48 |
| Uuid.V7Ordered | codexmsg/uuid.go:11-31 | ids of a time sort after those of every earlier millisecond if and only if the time is below 2^48 |

## Left out

- The HTTP upgrade of the WebSocket, its nonce, SHA-1 and base64 (`codexmsg/ws.go:49-97`): library calls.
- JSON beyond what a frame needs: white space, `null`, booleans, arrays, fractions, negative numbers, escaped or case-folded keys. Lines using them do not decode here, except that a case-folded key is taken for an unknown one. The theorems of `Inbox.dfy` about lines hold for any decoder.
- Frames.LineExactly: stated for members whose keys are no other spelling of a known one, which the decoder of the source would fold.
- Frames.TrailingBytesRefused: trailing white space, which the source accepts, is not read here.
- Frames.EncodeFrame: the `msgV` of a frame is a natural number, as every frame this code builds has.
- The copy of the line kept in a decoded frame (`Raw`), and the identity and address fields of a peer.
- The body of a request or response, and decoding a result: a message is its id, its method and an opaque payload.
- WireWriters.StreamIsFrames: a write that fails ends the stream for every later writer, as it does on a stream socket.
- Deadlines, contexts and real time: cancellation and failure are steps that may happen at any point, and a read error is the end of the stream.
- `closedErr` reading the error outside the lock (`codexmsg/client.go:205-210`): only that the recorded error never changes is proved.
- RpcClient.NoLostWakeup: stated, like EveryCallerWakes, for at most 2^64 calls on one client, after which the id counter has wrapped and a registration may displace an older one.
- Delivery.OwnIdAccepted: BuildUserFrame completing its argument in place is modelled by value.
- The socket checks of `Available` and process start times: a delivery here starts with the socket reachable. The token check is modelled.
- Comparing the Codex echo by SHA-256, and the texts of receipts and errors.
- Files, ownership checks, `/proc`, peer credentials, key files, the session registry, discovery, and opening and closing the listening server.
- The constant-time token comparison is equality.
- The two commands, the shell script and logging.
