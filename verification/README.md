# nerw-rpc: wire protocol, streaming calls and dispatch

This project models the RPC layer of nerw-rpc and proves what it promises: that the bytes one side writes are
the frames the other side reads, that a streaming call delivers its chunks exactly and in order under every
interleaving of its tasks, and that names, errors, vouchers, datagrams and permits keep their meaning.

`dafny verify dfyconfig.toml` checks everything.

## How it is laid out

The byte codec.

- `Bytes`, `Utf8`: bytes, text and results, and the validity check of texts against the definition of UTF-8.
- `Errors`, `ErrorTexts`: the error type, its display texts, and that they keep what the error holds.
- `Varint`: unsigned LEB128 (section 7.6 of the DWARF 5 standard) with the library reader and the hand-written
  streaming reader.
- `Postcard`: the Postcard wire format as shapes and values, so that every message shares one round trip.
- `Quic`: a stream half as an ordered byte stream (section 2.2 of RFC 9000) that ends cleanly or breaks anywhere.
- `Streaming`, `StreamingIo`, `FrameStreams`: frames, their readers and writers over mutable streams, and
  sequences of frames as bytes.

One streaming call as interleaved steps over real bytes. Every await of the caller, the client's two pumps, the
server task, its request pump and the handler is one action; any task may take the next one, the transport may
deliver any number of bytes, cut a write anywhere, or lose what is in flight.

- `CallWire`: one direction in transit. `Pumps`: what a pump does with one frame. `Call`: the state and the steps.
- `CallInvariants`, `CallResponse`, `CallResponseSteps`, `CallRuns`: what every step keeps.
- `CallClosing`: how the server's answer closes. `CallTheorems`: the promises in every reachable state.
- `CallFaults`: full channels, failing transports and departures, which the steps must not leave out.
- `Echo`, `EchoRuns`, `EchoBounds`, `EchoTheorems`: echo calls terminate and are exact.

The same loops as imperative code over the streams and channels they own.

- `PumpLoops`, `PumpTheorems`: pumps, drain and finalise, composed end to end and tied to the interleaved call.
- `Negotiation`: the opening handshake against the registry.

Everything else.

- `Wire`, `Unary`, `WireErrors`: prefixes, a unary call end to end, the error envelope over any number of hops.
- `Methods`, `Registry`, `Versions`: names, versioned lookup, and key order against version order.
- `Transit`, `Vouchers`: the strict transit codec and vouchers under any signature scheme.
- `Permits`, `Datagram`: permit-bounded tasks and the datagram table.

## Where the code and its documentation disagree

The model follows the code.

- src/method.rs:57 promises "the latest semver" for an unpinned name; src/method.rs:252-259 takes the greatest key
  byte by byte. `Versions.ResolvesHighestExactly` gives the exact condition for the result to be the highest
  precedence, and `Versions.NineBeatsTen` the registry in which it is not.
- src/method.rs:121 speaks of versions under the same triple; the filter at src/method.rs:252-258 also lets keys
  through whose method has a slash inside. `Registry.UnpinnedExact` gives the exact condition for that to change
  the result, and `Registry.MisreadResolves` the registry in which it does.
- src/datagram.rs:269 promises `DatagramTooShort` for a truncated prefix; only an empty frame gives it
  (src/datagram.rs:277-291), a truncated one is `MalformedFrame` (`Datagram.TooShortIsEmpty`).
- src/streaming.rs:225 promises `MalformedFrame` for a truncated varint; the code gives `TransportRead`
  (`StreamingIo.TruncatedLength`).
- src/transit.rs:408 sketches the signature of a reserve request as 64 bytes; the field is a byte vector and
  carries its length (`Transit.Layout`).
- src/server.rs:515-519 and src/datagram.rs:410-416 speak of not spawning unbounded tasks; tasks are spawned
  before they acquire a permit, so only running ones are bounded (`Permits.WaitersAreUnbounded`).

## Model

| member | source | states |
|---|---|---|
| Varint.U64RoundTrip | src/wire.rs:199-206 | the library reader inverts the encoder for every u64, in at most ten bytes, whatever follows |
| Varint.EncodeLayout | src/streaming.rs:362-366 | each group of an encoding holds the seven bits of its weight, the high bit marks all groups but the last, and there are no more groups than needed |
| Varint.HandInvertsEncode | src/streaming.rs:334-366 | the hand-written reader inverts the encoder for every u64 |
| Varint.HandAgreesWithStrict | src/streaming.rs:334-359 | on every terminated string of at most ten groups the hand-written reader yields the sum of the groups modulo 2^64, and agrees with the library reader exactly when the sum fits |
| Varint.FitsU64 | src/streaming.rs:346-351 | a string of at most ten groups fits a u64 if and only if its tenth group, if any, is 0 or 1 |
| StreamingIo.AccumulateNeverFails | src/streaming.rs:346-351 | both overflow errors of the reader are unreachable: each turn continues the sum modulo 2^64 |
| StreamingIo.ReadVarintU64 | src/streaming.rs:334-359 | the loop reads exactly one varint off the stream, or fails with what the bytes lack |
| StreamingIo.ReadLengthPrefixed | src/streaming.rs:308-326 | one body within 8 MiB is taken off the stream, or the matching error is returned, with the position it leaves |
| StreamingIo.ReadStreamingFrameAfterOpcode | src/streaming.rs:245-280 | the rest of a frame is read as the frame grammar says |
| StreamingIo.ReadStreamingFrame | src/streaming.rs:228-238 | a frame, the end before any byte of a clean stream, or an error, leaving what follows the frame |
| StreamingIo.TruncatedLength | src/streaming.rs:334-359 | a length that breaks off inside its varint is a transport failure, and one of more than ten groups malformed |
| StreamingIo.FailureKinds | src/streaming.rs:216-227 | a frame read fails with the transport while the bytes decide nothing, with the codec when a whole body does not decode, and is malformed otherwise |
| StreamingIo.WriteFrame | src/streaming.rs:396-442 | every frame writer leaves exactly the frame's encoding, or the prefix the transport still took |
| StreamingIo.WriteLengthPrefixed | src/streaming.rs:369-383 | opcode, length and body reach the stream whole or cut |
| Streaming.FrameRoundTrip | src/streaming.rs:228-280 | a written frame is read back exactly, whatever follows, if its body is within 8 MiB, and is refused otherwise |
| Streaming.FrameLayout | src/wire.rs:62-104 | the documented bytes of every frame: its opcode by value, and the body behind its length with its fields in order |
| Streaming.TrailingBytes | src/streaming.rs:250-277 | bytes after the value of a structured body are ignored, and a chunk is its whole body |
| Streaming.ParseExtends | src/streaming.rs:245-326 | once the bytes decide what the next frame is, more bytes do not change it |
| FrameStreams.ParseOfPrefix | src/streaming.rs:228-326 | a reader of any prefix of written frames sees the next frame or needs more bytes, never another frame or a malformed one |
| FrameStreams.SelfDelimiting | src/streaming.rs:228-303 | any truncation of any frames reads back as the frames that survived whole, then the end if and only if the cut is on a frame boundary |
| FrameStreams.ReadsBackExactly | src/streaming.rs:369-444 | concatenated writes read back as exactly those frames and then the end |
| Postcard.RoundTrip | src/transit.rs:483-485 | every value of every shape is read back exactly, whatever follows |
| Postcard.ProperPrefixRejected | src/transit.rs:499-506 | no proper prefix of an encoding decodes |
| Postcard.PrefixFree | src/transit.rs:483-506 | encodings of one shape are prefix-free, so the encoding is injective |
| CallWire.ReadInv | src/streaming.rs:228-303 | over bytes in transit a read yields the next logged frame, the end, or a transport failure |
| ErrorTexts.DisplayShows | src/error.rs:23-131 | every error's display is its documented rendering, with every payload in full |
| ErrorTexts.DisplayKeepsPayload | src/error.rs:23-131 | two errors of one variant with one payload display alike only if they are the same |
| ErrorTexts.DecimalDenotes | src/error.rs:98-116 | a number in a text is the decimal digits that denote it, without a leading zero |
| ErrorTexts.DebugItemsJoin | src/error.rs:43 | a list in a text is its items in quotes, in order, separated by commas |
| Utf8.ValidityIsUtf8 | src/wire.rs:162-163 | a text is valid if and only if it encodes some sequence of Unicode scalar values |
| CallRuns.StepInv | src/server.rs:685-733 | every step of every task of a streaming call keeps the invariants of both directions, whatever fails |
| CallTheorems.RequestConservation | src/client.rs:302-317 | in every reachable state without loss the sent chunks are, in order, those taken, queued at the server, in its pump's hand, on the wire as bytes, in the client pump's hand and queued at the client |
| CallTheorems.HandlerSeesPrefix | src/server.rs:817-852 | in every reachable state the handler has taken a prefix of the chunks sent |
| CallTheorems.EndFrameMeansAll | src/server.rs:830 | if the server's pump consumed the end frame it has handed over exactly all chunks that are and will be sent |
| CallTheorems.NoUnexpectedFrames | src/server.rs:831-845 | between this client and this server the unexpected-frame and non-terminal-error branches are unreachable |
| CallTheorems.ResponseEndExact | src/client.rs:325-361 | if the client's pump consumed the end frame, the handler returned Ok, sent no error, and all it sent was handed over |
| CallTheorems.ErrorExact | src/client.rs:340-346 | if it consumed a terminal error, exactly the chunks before the first in-band error were handed over, or all when the error is the result or a join failure, and then that error with its whole documented rendering |
| CallTheorems.CallerSeesPrefix | src/client.rs:325-361 | in every reachable state the caller has received a prefix of what the handler sent before its first error |
| CallTheorems.ServerLanguage | src/server.rs:685-917 | the bytes the server writes always begin a refusal, or an acceptance, chunks and one terminal frame; once its task is over they are exactly one such word, unless a write failed, bytes were lost, or it never read the open request |
| CallClosing.ClosesByItself | src/server.rs:723-733 | once the handler has returned and no write has failed, the server task reaches its close by a bounded number of its own steps, with exactly one terminal frame and that last |
| CallTheorems.OpeningIsTyped | src/client.rs:196-217 | opening succeeds only for a known method, a refusal names exactly the method asked for, and the acknowledgement carries the id of the request |
| CallFaults.ChannelsAreBounded | src/server.rs:711-713 | in every reachable state each of the four channels holds at most 16 items |
| CallFaults.RequestBytesMove | src/server.rs:822 | at any moment any number of bytes in flight may arrive in order, or the connection break behind them |
| CallFaults.ClientWritesFail | src/client.rs:306-312 | any chunk the client writes may be cut at any byte, and its pump then stops |
| CallFaults.ServerWritesFail | src/server.rs:867-870 | any item the server writes may be cut at any byte, and it then writes nothing more |
| CallFaults.PumpsAreAborted | src/client.rs:227-232 | the client can abort its request pump exactly once the responses have ended, and the server its own exactly once its answer is out |
| EchoRuns.EchoStep | src/client.rs:219-242 | every step of an echo call keeps its invariant and raises a count of progress |
| EchoBounds.ProgressBounded | src/client.rs:219-242 | that count never exceeds a bound that depends only on the request and the chunks |
| EchoTheorems.StuckOnlyAtTheEnd | src/server.rs:711-733 | an echo call in which nothing can happen has ended its responses, with nothing left to receive |
| EchoTheorems.EchoTerminatesExactly | src/client.rs:302-361 | every echo run is bounded, and one that can go no further has received exactly the chunks sent |
| PumpLoops.HandOverRequest | src/server.rs:822-850 | one turn of the server's loop hands over, drops or stops as the frame says |
| PumpLoops.HandOverResponse | src/client.rs:330-359 | one turn of the client's loop, likewise |
| PumpLoops.PumpInboundRequests | src/server.rs:817-852 | the loop hands over what all its reads amount to, until one stops it |
| PumpLoops.PumpInboundResponses | src/client.rs:325-361 | the client's loop, likewise |
| PumpLoops.PumpOutboundRequests | src/client.rs:302-317 | everything sent and then the end frame is written as far as the transport takes it, and finished if it takes all |
| PumpLoops.DrainHandlerResponses | src/server.rs:860-883 | chunks up to and including the first error are written, and the result says whether the closing frame is settled |
| PumpLoops.FinaliseStreaming | src/server.rs:890-917 | the closing frame of the handler's result is written |
| PumpLoops.AnswerStreaming | src/server.rs:723-733 | drain and finalise together write exactly one closing frame |
| PumpTheorems.RequestLoopsCompose | src/server.rs:817-852 | the two request loops end to end, for any truncation and any ending: the handler is handed the chunks in order, all and then the end exactly when all bytes arrived and it took all |
| PumpTheorems.ResponseLoopsCompose | src/server.rs:860-917 | the two response loops end to end, for any truncation, ending and listener: what the handler sent before its first error in order, all of it and then the end or that error exactly when all bytes arrived and the caller took all |
| PumpTheorems.InterleavedLikeTheLoops | src/server.rs:723-733 | after an orderly close the interleaved server has written what the loops run alone would have written |
| Negotiation.StreamingNegotiateOpen | src/server.rs:742-809 | the request read is looked up and acknowledged, the handler is returned only if the acknowledgement got through, and exactly a written refusal finishes the stream |
| Negotiation.SendOpen | src/client.rs:189-194 | the open request is written or the write error returned |
| Negotiation.AwaitAck | src/client.rs:200-217 | the acknowledgement becomes success, the unknown method, a handler error or the read error |
| Negotiation.HandshakeIsTyped | src/client.rs:196-217 | for every registry and name, opening succeeds if and only if the registry resolves the name to a streaming handler, and otherwise is UnknownMethod with that name; the acknowledgement echoes the request's id |
| Negotiation.HandshakeByRegistration | src/method.rs:225-230 | by the registrations alone: it succeeds, and runs that handler, if and only if what was registered last under the key the name stands for is a streaming handler |
| Wire.EncodeMethodName | src/wire.rs:116-127 | the length-prefixed name is appended to the buffer |
| Wire.NameRoundTrip | src/wire.rs:116-165 | a name and any tail come back exactly if and only if the name is at most 4096 bytes |
| Wire.DecodeSplits | src/wire.rs:138-165 | a successful decode of arbitrary input splits it into length prefix, UTF-8 name and rest |
| Wire.SplitDecodes | src/wire.rs:138-165 | every such split decodes, also when its length prefix is not the shortest |
| Wire.DecodeFailsMalformed | src/wire.rs:138-165 | every other input is malformed |
| Wire.EncodeStreamId | src/wire.rs:183-187 | the varint is appended to the buffer |
| Wire.StreamIdRoundTrip | src/wire.rs:183-206 | a stream-id and any payload come back exactly |
| Methods.ParsePrints | src/method.rs:73-113 | any string that parses is well formed and prints back to itself |
| Methods.PrintParses | src/method.rs:73-113 | a name prints to a string that parses back to it if and only if it is well formed |
| Methods.CanonicalText | src/method.rs:108-113 | the canonical text is `package[@version]/interface/method` |
| Registry.MethodRegistry.ValidateCanonical | src/method.rs:193-201 | it panics unless the name parses and pins a version |
| Registry.MethodRegistry.Register | src/method.rs:157-161 | the last registration of a name wins and a rejected one changes nothing |
| Registry.MethodRegistry.RegisterStreaming | src/method.rs:179-187 | likewise for streaming handlers, in the same table |
| Registry.TableIsLast | src/method.rs:157-187 | after any registrations the table holds exactly the pinned names registered, each with its last entry |
| Registry.MaxMatchGreatest | src/method.rs:252-258 | the filter and maximum pick a matching key that no other matching key exceeds |
| Registry.FilterExact | src/method.rs:252-257 | exactly which registered keys the prefix and suffix filter lets through |
| Registry.FilterMistake | src/method.rs:252-257 | every key with a slash inside its method also passes for another interface and method |
| Registry.MisreadResolves | src/method.rs:239-260 | with one such key registered the other request is answered with it, although nothing is registered for what was asked |
| Registry.PinnedIsExact | src/method.rs:239-250 | a pinned name resolves to itself or to nothing, without fallback; an unpinned one never hits the exact branch |
| Registry.UnpinnedExact | src/method.rs:239-260 | unpinned resolution yields the greatest key of the triple if and only if no misread key outranks them all |
| Registry.UnpinnedIsRight | src/method.rs:239-260 | with slash-free methods it always does |
| Registry.EveryRegistryResolves | src/method.rs:239-260 | in every registry that registrations with slash-free methods can produce, names resolve to the greatest key of their triple, or for pinned names to themselves or nothing, and to what was registered last |
| Registry.LookupsByKind | src/method.rs:212-230 | by the registrations alone: a unary lookup yields exactly a handler registered last as unary under the key the name stands for, a streaming lookup one registered last as streaming |
| Registry.OrderIrrelevant | src/method.rs:254-259 | the order in which the hash map enumerates makes no difference |
| Versions.KeyOrderExact | src/method.rs:252-258 | keys of one triple compare like their versions if and only if neither version continues the other below a slash |
| Versions.VersionIsDotted | src/method.rs:120-122 | a three-number version is its numbers in decimal between dots |
| Versions.KeyOrderIsPrecedence | src/method.rs:120-125 | for three-number versions, when exactly key order is semver precedence |
| Versions.NineBeatsTen | src/method.rs:239-260 | with 9.0.0 and 10.0.0 registered, under any names, the unpinned name resolves to 9.0.0 |
| Versions.ResolvesHighestExactly | src/method.rs:239-260 | among three-number versions an unpinned name resolves to the highest precedence if and only if every lower registered version has, where they first differ, a number not above the leading digits of the highest one's |
| Versions.ResolvesHighest | src/method.rs:116-125 | among single-digit versions it always does |
| WireErrors.EnvelopeRoundTrip | src/wire_error.rs:62-103 | every envelope survives its encoding |
| WireErrors.EnvelopeLayout | src/wire_error.rs:53-59 | one discriminant byte and the strings of the payload, each behind its length |
| WireErrors.HopPreserves | src/wire_error.rs:116-196 | one hop keeps the four structured errors and every handler text exactly and makes everything else a handler error |
| WireErrors.LocalErrorsRendered | src/wire_error.rs:144-155 | local failures become handler errors with their whole display text |
| WireErrors.HopsKeep | src/client.rs:401-404 | structured and handler errors cross any number of hops unchanged |
| WireErrors.HopsAreOne | src/wire_error.rs:116-196 | any number of hops gives the same error as one, if and only if the rendered text still fits a string with the prefix; otherwise the second hop is impossible |
| Unary.BuildUnaryRequestFrame | src/server.rs:1082-1095 | the frame is opcode, length-prefixed name and request |
| Unary.UnaryLayout | src/wire.rs:50-55 | the bytes of the request, response and error frames, with their opcodes by value |
| Unary.HandleInboundSubstream | src/server.rs:570-673 | the server writes the reply to what it dispatched, an error for a foreign opcode, or nothing when it cannot read, as far as the transport takes it, and finishes if it takes all |
| Unary.WriteResponse | src/server.rs:1029-1044 | the success frame is written and finished, or cut where the transport fails |
| Unary.WriteError | src/server.rs:1055-1070 | likewise the error frame |
| Unary.SendRequest | src/client.rs:254-280 | the request frame is written and finished, or cut and the write error returned |
| Unary.ReceiveResponse | src/client.rs:284-291 | the whole response is read within the limit and decoded |
| Unary.ReplyDecodes | src/client.rs:395-409 | the client decodes every reply of the server to the same bytes or the error one hop on |
| Unary.ResponseByOpcode | src/client.rs:395-409 | a response is a success exactly if it begins with 0x01, its envelope's error after 0x02, and malformed otherwise |
| Unary.CallEndToEnd | src/server.rs:626-673 | for every name and request the exchange yields the handler's answer, or exactly which error beyond which limit; over the request limit the write error if the server gave up first and the empty response otherwise |
| Unary.CallIsFaithful | src/client.rs:395-409 | within the limits success, unknown methods, structured errors and handler texts arrive as they were |
| Unary.DispatchByRegistration | src/server.rs:924-968 | by the registrations alone: the frame built for a name runs exactly the handler registered last, as unary, under the key the name stands for, on exactly the request, and otherwise answers UnknownMethod with that name |
| Unary.CallByRegistration | src/client.rs:248-292 | and so the whole call, errors one hop on |
| Transit.CodecExact | src/transit.rs:483-506 | decoding an encoding gives the frame back; every proper prefix and extension of it is malformed |
| Transit.DecodedIsValid | src/transit.rs:499-506 | whatever decodes is a well-formed frame, and its own encoding decodes to it |
| Transit.Layout | src/transit.rs:395-416 | the documented byte layout of the frames, one tag byte first |
| Transit.ConnectLayout | src/transit.rs:453-461 | the bytes of a request to connect, with or without a voucher |
| Transit.DeniedLayout | src/transit.rs:364-377 | the bytes of a refused reservation |
| Transit.DeniedBytes | src/transit.rs:163-191 | the code of every reason for a refusal, by value |
| Transit.ConnectedLayout | src/transit.rs:383-391 | the bytes of an answer to a request to connect |
| Transit.ByeLayout | src/transit.rs:469-474 | the bytes of a farewell, with or without a reason |
| Vouchers.ComposeSigningBytes | src/transit.rs:334-356 | the buffer holds tag, relay, peer and big-endian expiry |
| Vouchers.SigningLayout | src/transit.rs:334-356 | the 95 bytes by position: the tag by value, the two keys, and the expiry most significant byte first |
| Vouchers.ExpiresOnce | src/transit.rs:303-311 | a voucher is good before its expiry and never from it on |
| Vouchers.SigningBytesInjective | src/transit.rs:334-356 | no two relay, peer and expiry triples share a signing input, and each carries the tag |
| Vouchers.SignedVerifies | src/transit.rs:263-301 | a signed voucher verifies under its relay's key and under no other |
| Vouchers.VerifiedWasIssued | src/transit.rs:286-301 | in a run whose presented signatures are not forged, a presented voucher that verifies names a triple the relay issued in the run, and is good until exactly the expiry issued |
| Vouchers.HonestRunsVerify | src/transit.rs:263-301 | under a correct scheme a run that presents its own vouchers is unforged, and each of them verifies |
| Vouchers.IssuedArrives | src/transit.rs:483-506 | an issued voucher, sent in a frame and decoded, verifies for its relay |
| Vouchers.DecodedWasIssued | src/transit.rs:499-506 | the same for a voucher in any bytes that decode |
| Permits.StuckOnlyWhenDone | src/server.rs:509-529 | tasks that cannot go on are done, unless there are no permits at all |
| Permits.StepDoesWork | src/server.rs:509-529 | acquiring and ending use up a finite amount of work |
| Permits.PoolRunsEnd | src/datagram.rs:399-442 | over every run of one pool permits are conserved, each spawned task accounts for at most three actions, and a run that can go no further has ended all tasks with all permits back |
| Permits.WaitersAreUnbounded | src/server.rs:509-517 | any number of tasks can wait, since they are spawned before they acquire |
| Permits.ServerPermitsConserved | src/server.rs:470-537 | over every interleaving of connections and streams permits are conserved, running tasks bounded, and all permits back at the end |
| Datagram.DatagramDispatcher.Register | src/datagram.rs:228-241 | a free id is taken, a taken one reports a collision and changes nothing |
| Datagram.DatagramDispatcher.Unregister | src/datagram.rs:250-252 | the id is free afterwards and its handler returned |
| Datagram.DatagramDispatcher.Dispatch | src/datagram.rs:276-314 | the one mapped handler is called once with the rest of the frame, or the error says why not |
| Datagram.TableIsOwners | src/datagram.rs:228-252 | after any history an id maps to the handler first registered since it was last unregistered |
| Datagram.RouteIsOwner | src/datagram.rs:276-314 | an encoded id and any payload go to the id's owner with exactly that payload, or report that id as unknown |
| Datagram.RouteIsExpected | src/datagram.rs:276-314 | for every history and every frame the lookup answers with the owner and the payload, the id as unknown, or the frame as unreadable |
| Datagram.TooShortIsEmpty | src/datagram.rs:277-291 | a frame is reported too short if and only if it is empty; one that breaks off inside its prefix is malformed |
| Datagram.EveryRunRoutes | src/datagram.rs:399-442 | over every interleaving each lookup answers what the history up to it says, each task makes exactly one call if it was routed and none otherwise, and permits are conserved |

## Left out

- Endpoints, TLS, dialing, the accept loop and connection eviction: foreign to this layer; a stream is an ordered
  byte stream that may be cut or fail.
- Contexts, timestamps, tracing ids, peer metadata, logging, the application codec, the schema handler and
  `method_names`: plain data or thin wrappers.
- Wording of diagnostics: a message the framework words itself is given by its leading text; only the two
  prefixes that are stripped again, and `Display` where a streaming error carries it, are kept in full. The
  escaping of special characters in the `{:?}` list inside `VersionMismatch` is not modelled.
- Width of `usize`: taken as 64 bits, so the conversions from `u64` cannot fail.
- Frames over 8 MiB inside `Call`: the writers do not check the limit, so the steps carry it as a precondition,
  on error texts too; `Streaming.FrameRoundTrip` proves that such a frame is refused by the reader, and only such.
- Granularity of `Call`: reading one frame is one step, taken when the frame is complete or the stream has ended.
- Flow control: a direction holds any number of bytes in flight; only the four channels are bounded.
- Causes of write failures: any write of a call may fail at any time and at any byte.
- Cancelling the server task itself, as when a whole runtime shuts down: a run of `Call` then simply stops.
- Fairness of the scheduler and of the semaphores: any task may take the next step, so termination is stated as
  a bound on every run and as what holds when nothing more can happen.
- UTF-8 is validated as in section 3 of RFC 3629, without any normalisation.
- Pre-release and build parts of versions: `Versions` covers precedence of three-number versions, and texts in general.
- Ed25519: a scheme is a parameter. That signed messages verify, and that among the signatures presented in a run
  only those of signed messages do, are hypotheses; `Vouchers.HonestRunsVerify` shows that they hold together.
- Clones of the response sender: a handler can move one into a task that outlives it, and the drain then goes on;
  in `Call` the handler's return drops the sender.
- Registry and datagram handlers: opaque identities with a function from request to result.
