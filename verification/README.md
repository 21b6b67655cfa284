# otcat: the Modbus stack, verified

A Dafny model of otcat's Modbus TCP client, its mock server, the wire codec between them, the typed
codec and command-line writes above them, and three smaller stateful machines: the watch loop with its
backoff, the simulated tank and the Python alert engine. `dafny verify dfyconfig.toml` checks all of it.

## What is proved

**One call.** A typed client call over bytes is the direct operation on an abstract device of four
tables (`Device`), for every table state, address and legal request. It succeeds exactly when
address + count <= 65536; otherwise the one possible error is exception 2, with nothing changed
(`EndToEnd`). The server's methods work in place on real arrays and answer every PDU as
`Dispatch.Reply` says; the client's `Do` and the eight typed operations work on a connection object.

**Any number of connections.** `Interleaving` is a step relation: calls, reads, dispatches, replies,
drops, requests and replies cut short, deadlines at any byte, and direct `Set` calls. Every run is
equivalent to the sequential run in dispatch order; that order respects real time; a successful call
was dispatched exactly once, any call at most once, a dropped one never (`Linearizability`). What
happens on one connection never spoils these for another. A connection's next call gets its own reply
exactly when the earlier ones were answered (`Synchrony`), and its request is read as written exactly
when nothing of a request cut short lies in front of it (`CutRequests`).
`CodeAsSteps` ties the steps back to the server's loop, for every fate of a reply, and to the client's
`do`.

**Any bytes.** Whatever a client sends, the server answers each well-framed request once and in order
with a frame this client accepts (`Closure`); it takes a PDU for a request exactly when the PDU says
that request (`Dispatch.AcceptedExactly`), and every PDU either changes nothing and is answered by an
exception, or is carried out in full on its own range (`Dispatch.AllOrNothing`). Framing is
self-delimiting (`Mbap`); bit packing is a bijection up to padding (`Packing`).

**In numbers.** Each function between a call and its bytes is also fixed by what the bytes are:
requests, frames, every reply to every PDU, and for each operation exactly which response bytes the
client accepts and as which answer (`WireFormat`); where the bytes of each type go under each order
(`Convert.ShortLayout`, `Convert.LongLayout`).

**Above the wire.** Write then read through literal, codec, client, wire and server gives the values
back (`DriverRoundTrip`). A successful write stream did exactly what its dry run planned; any stream
carried out a prefix of its lines, each once; without confirmation nothing is sent (`CliApp`,
`DryRunAgreement`).

**The three machines.** The watch loop's outputs, attempt counter and total sleep are fixed by the
sequence of read outcomes (`Watch`); the tank's level stays below 1 m and, with the default setpoint,
rises at every step (`Tank`); the alert rules' incremental state is a function of the trailing samples,
and rules in one engine do not interfere (`Alerting`).

Layout: one module a file. A method specified by a function has that function beside it (`Handle` and
`Serve`, `Do` and `Exchange`); what the repository promises is then proved of the function.

## Where the code and its promises part

Each is stated for all inputs, with the exact condition under which the promise holds.

- Reply matching (internal/modbus/client.go:126-142). A call that times out leaves its reply on the
  way, and one that reports a mismatch leaves a PDU unread. A reply is returned, with nothing left
  over, if and only if no byte stands in front of it, unread or in flight
  (`OwnReplyExactlyWhenNothingAhead`, and for each id over all replies
  `ReadsOwnReplyExactlyWhenNothingAhead`). Over whole runs: a call begun with nothing under way is
  sequential however the run goes on (`CallFromClearIsSequential`), and in every continuation in which
  its reply is sent and arrives, a request within its table gets the answer of its own dispatch and
  leaves nothing behind if and only if nothing was under way when it began
  (`NextCallExactlyWhenClear`). A caller knows this
  beforehand: where every earlier call but perhaps the last was answered, by data or an exception or a
  wrong function code, that is so if and only if the last one was too (`NextCallExactlyAfterAnswers`).
  `StaleBytesForgeASuccess` gives a session in which leftover register data is taken for a reply and a
  read returns 0xAABB whatever the device holds.
- Writes that fail part way (internal/modbus/client.go:122-124). The connection stays open and the next
  call writes behind what got out. The server reads that call's request as it was written if and only
  if nothing had got out (`NextRequestReadExactly`). In `CutRequestOverwrites` a single-register write
  cut after ten bytes and a read behind it make the server store the read's transaction id; in
  `AlteredDispatch` the same happens in the system. Unaltered dispatch, at most once, is therefore
  stated of the connections on which nothing was written behind such a request; the others in the
  same run do not disturb it.
- Transaction-id wrap. The comment at internal/modbus/client.go:88-90 calls a collision after the wrap
  a non-issue. A late reply is refused if and only if the number of calls since its request is not a
  multiple of 65536 (`LateReplyRefusedExactlyWithinWrap`).
- Backoff overflow (internal/watch/poller.go:105-108). The guard meant to saturate works if and only
  if the product is below 2^64, or its low 64 bits are zero or at least the maximum
  (`UpperIsIdealExactly`). Bases up to 2^44 ns are safe and 2^44 + 1 is not. With a maximum of 2^63 - 1
  and a ceiling that reaches it, the generator's bound overflows and it panics.
- The coil write limit. The comment at internal/modbus/limits.go:28-30 derives 1968 from the PDU
  budget; the budget gives 1976, and 1968 is the specification's own figure (`LimitsAgainstBudget`).
- Dry run. It looks at neither the size limits nor the end of the table; `StreamSucceedsExactly` says
  what must be added. For any printed list of unsigned values the dry run succeeds, and the stream
  exactly when the list is within both (`PrintedLineExactly`); `1,2` written to `holding:65535` as
  16-bit values is the smallest failure (`DryRunMissesTableEnd`).
- Classic addressing. A printed spec reads back as itself in classic mode if and only if its address
  is outside its table's band; some addresses, such as coil 9999, cannot be named in classic mode at
  all (`ClassicReach`).
- Alert clearing. The class comment at python/otcat/alerting.py:95-97 promises N good samples before a
  clear; the code clears on the first. They agree on all histories if and only if the debounce is at
  most 1 (`ClearDebounceKeptExactlyWithoutDebounce`).

## Model

| member | source | states |
|---|---|---|
| Bytes.PutUint16 | internal/modbus/mbap.go:26-28 | stores a word high byte first and touches no other byte |
| Bytes.WordRoundTrip | internal/modbus/mbap.go:24-31 | a word and its two bytes determine each other |
| Bytes.StoreOneMore | internal/modbus/pdu.go:82-84 | one turn of the register loops of client and server extends the stored prefix by one register |
| Bytes.StoredIsRegisterBytes | internal/mock/server.go:233-235 | a finished register loop holds exactly the block's big-endian bytes |
| Bytes.RegisterRoundTrip | internal/modbus/pdu.go:154-156 | reading the stored bytes back gives the registers, for every block |
| Bytes.BytesRoundTrip | internal/mock/server.go:297-299 | storing the registers read from an even number of bytes gives the bytes back |
| Bytes.WithBitSets | internal/modbus/pdu.go:104 | setting bit k makes bit k true and leaves every other bit as it was |
| Bytes.BitIsMask | internal/modbus/pdu.go:137 | the arithmetic bit test is the masked `&` test on 8-bit vectors |
| Bytes.WithBitIsOr | internal/mock/server.go:212 | the arithmetic bit set is the bit-vector `or` with the mask |
| Bytes.SameByte | internal/modbus/pdu.go:102-106 | a byte is determined by its eight bits |
| Packing.PackOneMore | internal/mock/server.go:210-214 | one turn of the bit loops of client and server packs one more value, least significant bit first |
| Packing.PackIsPacked | internal/modbus/pdu.go:88-108 | bit j of packed byte k is value 8k + j, and padding is clear |
| Packing.PackIsUnique | internal/modbus/pdu.go:88-108 | there is only one such byte list, so both loops build the same one |
| Packing.UnpackPack | internal/modbus/pdu.go:123-140 | unpacking a packed list of any length gives the list back |
| Packing.PackUnpack | internal/mock/server.go:275-277 | packing unpacked bytes gives the bytes back if and only if the padding bits are clear |
| Mbap.EncodeMBAP | internal/modbus/mbap.go:24-31 | the seven bytes written in place are the four fields in order |
| Mbap.FieldsOfBytes | internal/modbus/mbap.go:33-43 | a header's fields are read back out of its bytes whatever follows |
| Mbap.HeaderRoundTrip | internal/modbus/mbap.go:33-56 | a header is accepted, unchanged, if and only if its protocol is 0 and its length is 2 to 254 |
| Mbap.AcceptedHeaderReproduced | internal/modbus/mbap.go:33-56 | re-encoding an accepted header gives the seven bytes it came from |
| Mbap.FramingIsSelfDelimiting | internal/mock/server.go:124-139 | any list of well-formed frames, concatenated, is read back as exactly that list |
| Mbap.FramesCoverStream | internal/mock/server.go:124-139 | every byte stream is the frames read from it followed by a rest with no frame |
| Pdu.EncodeReadRequest | internal/modbus/pdu.go:40-46 | the buffer built in place is function code, address and quantity |
| Pdu.EncodeWriteSingleCoil | internal/modbus/pdu.go:48-58 | on is 0xFF00 and off is 0x0000 |
| Pdu.EncodeWriteSingleRegister | internal/modbus/pdu.go:60-66 | the request PDU of a single register write |
| Pdu.EncodeWriteMultipleRegisters | internal/modbus/pdu.go:68-86 | refuses none and more than 123 values, else builds the request with the register block |
| Pdu.EncodeWriteMultipleCoils | internal/modbus/pdu.go:88-111 | refuses none and more than 1968 values, else builds the request with the packed block |
| Pdu.RequestPdu | internal/modbus/limits.go:11-32 | every legal request fits 5 to 253 bytes |
| Pdu.DecodeReadBitsResponse | internal/modbus/pdu.go:123-140 | the loop unpacks exactly the requested bits after three length checks |
| Pdu.DecodeReadRegistersResponse | internal/modbus/pdu.go:142-161 | the loop reads exactly the requested registers after three length checks |
| Pdu.LimitsAgainstBudget | internal/modbus/limits.go:11-32 | 125 and 123 are the exact register maxima of the 253-byte budget; the coil limits lie eight below it |
| Dispatch.AcceptedExactly | internal/mock/server.go:164-304 | a PDU is taken for a request if and only if it is that request's encoding, up to the padding bits of packed coils |
| Dispatch.RefusalCodes | internal/mock/server.go:164-304 | every other PDU is refused: exception 3 when its code is one of the eight functions, exception 1 when not |
| Dispatch.AnswerPdu | internal/modbus/limits.go:11-24 | the size only: every reply has 2 to 252 bytes, within the PDU budget |
| Dispatch.RequestRoundTrip | internal/modbus/pdu.go:40-111 | the server reads back exactly the request the client encoded, for all eight operations |
| Dispatch.ApplyChangesOnlyItsRange | internal/mock/server.go:239-304 | inside its range a write stores the values, elsewhere and in read-only tables nothing moves |
| Dispatch.AnswerFlag | internal/mock/server.go:162-192 | a reply carries the exception bit if and only if the device refused, else the request's function code |
| Dispatch.AllOrNothing | internal/mock/server.go:164-304 | for every PDU: an exception and all tables unchanged, or the decoded request carried out on its range only |
| Dispatch.SmallCodesAreClear | internal/modbus/pdu.go:116-121 | the exception bit is set if and only if the code is 0x80 or more |
| Network.Conn.ReadFull | internal/mock/server.go:126-128 | exactly n bytes, or none after consuming what there was |
| Network.Conn.Write | internal/modbus/client.go:122-124 | all the bytes, or on failure any proper part of them from the front |
| Server.Server.constructor | internal/mock/server.go:39-55 | four tables of 65536 entries, all clear |
| Server.Server.ReadBits | internal/mock/server.go:194-216 | the reply the specification function gives, tables untouched |
| Server.Server.PackRange | internal/mock/server.go:206-215 | the in-place bit loop packs exactly the addressed range |
| Server.Server.ReadRegs | internal/mock/server.go:218-237 | the reply the specification function gives, tables untouched |
| Server.Server.StoreRange | internal/mock/server.go:229-236 | the in-place loop stores exactly the addressed registers |
| Server.Server.WriteSingleCoil | internal/mock/server.go:239-250 | new tables and reply are those of parse, apply and answer |
| Server.Server.WriteSingleRegister | internal/mock/server.go:252-260 | new tables and reply are those of parse, apply and answer |
| Server.Server.WriteMultipleCoils | internal/mock/server.go:262-282 | new tables and reply are those of parse, apply and answer, errors included |
| Server.Server.UnpackInto | internal/mock/server.go:275-277 | the loop splices the unpacked bits into the table |
| Server.Server.WriteMultipleRegisters | internal/mock/server.go:284-304 | new tables and reply are those of parse, apply and answer, errors included |
| Server.Server.LoadRange | internal/mock/server.go:297-299 | the loop splices the decoded registers into the table |
| Server.Server.Dispatch | internal/mock/server.go:164-192 | on the arrays, for every PDU, the three abstract stages: parse, apply, answer |
| Server.Server.Respond | internal/mock/server.go:148-156 | tables after dispatch, and the reply frame with the request's ids |
| Server.Server.Handle | internal/mock/server.go:120-160 | tables and bytes sent over a whole connection are those of `Serve` on everything received |
| Server.TurnOfServe | internal/mock/server.go:124-158 | one turn of the reading loop is one frame of the abstract service |
| Server.Server.SetHolding | internal/mock/server.go:308-312 | one register changes |
| Server.Server.SetHoldingRange | internal/mock/server.go:314-320 | the values are spliced in, the rest stands |
| Server.Server.GetHolding | internal/mock/server.go:322-326 | the register's value |
| Server.Server.SetInput | internal/mock/server.go:328-332 | one input register changes |
| Server.Server.SetCoil | internal/mock/server.go:334-338 | one coil changes |
| Server.Server.GetCoil | internal/mock/server.go:340-344 | the coil's value |
| Server.Server.SetDiscrete | internal/mock/server.go:346-350 | one discrete input changes |
| Closure.ServeIsFrameByFrame | internal/mock/server.go:124-159 | serving bytes is serving the list of frames they hold |
| Closure.RepliesInOrder | internal/mock/server.go:124-159 | the k-th reply belongs to the k-th request, up to the first dropped or unsent one, of which at most a part got out |
| Closure.ServerClosure | internal/mock/server.go:120-304 | for any byte stream: one reply a request, in order, with its ids, code, at most 252 bytes, accepted by the client, and no stray byte but part of a reply whose write failed |
| Client.Client.Connect | internal/modbus/client.go:56-74 | takes the dialled connection, keeps the old one when dialling failed |
| Client.Client.Close | internal/modbus/client.go:76-85 | afterwards there is no connection |
| Client.Client.NextTxID | internal/modbus/client.go:87-92 | the 32-bit counter steps with wrap-around and its low half is the id |
| Client.Client.Send | internal/modbus/client.go:113-124 | the frame with the next id is written, whole or, on failure, in part |
| Client.Client.Await | internal/modbus/client.go:126-158 | outcome and bytes left unread are those of `Receive` |
| Client.Client.Do | internal/modbus/client.go:97-159 | outcome, counter, bytes sent and bytes left unread are those of `Exchange` |
| Client.Client.ReadCoils | internal/modbus/client.go:163-172 | a bad quantity touches nothing; otherwise outcome, counter and bytes are those of one exchange, decoded in kind |
| Client.Client.ReadDiscreteInputs | internal/modbus/client.go:174-183 | a bad quantity touches nothing; otherwise outcome, counter and bytes are those of one exchange, decoded in kind |
| Client.Client.ReadHoldingRegisters | internal/modbus/client.go:185-194 | a bad quantity touches nothing; otherwise outcome, counter and bytes are those of one exchange, decoded in kind |
| Client.Client.ReadInputRegisters | internal/modbus/client.go:196-205 | a bad quantity touches nothing; otherwise outcome, counter and bytes are those of one exchange, decoded in kind |
| Client.Client.WriteSingleCoil | internal/modbus/client.go:207-217 | outcome, counter and bytes are those of one exchange, its echo checked |
| Client.Client.WriteSingleRegister | internal/modbus/client.go:219-225 | outcome, counter and bytes are those of one exchange, its echo checked |
| Client.Client.WriteMultipleRegisters | internal/modbus/client.go:227-237 | a value list of illegal length touches nothing; otherwise outcome, counter and bytes are those of one exchange, its echo checked |
| Client.Client.WriteMultipleCoils | internal/modbus/client.go:239-249 | a value list of illegal length touches nothing; otherwise outcome, counter and bytes are those of one exchange, its echo checked |
| Client.CallAnswersInKind | internal/modbus/client.go:163-249 | whatever bytes come back, a success is an answer of the right kind and length |
| Client.ClearFlagClears | internal/modbus/client.go:149 | clearing the top bit undoes setting it |
| EndToEnd.ReceiveWholeFrame | internal/modbus/client.go:126-158 | on a whole frame: its checked PDU if the ids match, else a mismatch with the PDU left unread |
| EndToEnd.ReceivePartOfFrame | internal/modbus/client.go:126-142 | any proper prefix of the awaited frame ends in a timeout |
| EndToEnd.AnswerUnderstood | internal/modbus/client.go:147-158 | the client decodes every device answer to that answer, and a refusal to the matching exception |
| EndToEnd.ServeOneRequest | internal/mock/server.go:120-160 | the server's loop on one request frame is one device operation and one reply frame |
| EndToEnd.RemoteCallRefinesDevice | internal/modbus/client.go:97-249 | a call over bytes changes the tables and reports as the direct operation, and leaves nothing unread |
| EndToEnd.RemoteCallSucceedsExactlyInRange | internal/mock/server.go:203-205 | success exactly when address + count <= 65536; otherwise only exception 2 and the tables as before |
| EndToEnd.Transact | internal/modbus/client.go:97-159 | the same on objects: the client writes, the server serves those bytes, the client reads what came back |
| Interleaving.StepKeepsInv | internal/mock/server.go:120-160 | every step of every connection and every `Set` keeps the system invariant |
| Interleaving.RunKeepsInv | internal/mock/server.go:99-160 | the invariant holds after every run |
| Interleaving.OthersKeepInv | internal/mock/server.go:168-170 | a dispatch or `Set` does not disturb any other connection |
| Interleaving.TakeReadsNext | internal/mock/server.go:124-139 | the frame a goroutine reads is the client's next unread request |
| Interleaving.FinishInTurn | internal/modbus/client.go:126-158 | with nothing else under way, a call ends with its own dispatch's answer and nothing left, or out of time |
| Linearizability.TablesAreReplayed | internal/mock/server.go:164-170 | the shared tables are those of the sequential run in log order |
| Linearizability.CompletedCallIsSequential | internal/modbus/client.go:97-159 | while the calls before it were answered, a call runs out of time, or returns the answer of its request carried out alone at one point between its start and end |
| Linearizability.DispatchedAtMostOnce | internal/mock/server.go:120-160 | on every connection on which nothing was written behind a request cut short, no request is dispatched twice, early or altered |
| Linearizability.DroppedIsNeverDispatched | internal/mock/server.go:141-143 | a request dropped by fault injection is never dispatched, on every such connection |
| Linearizability.OrderRespectsRealTime | internal/mock/server.go:164-170 | a call that ended before another began comes first in the log, across connections |
| Linearizability.RunIsLater | internal/mock/server.go:120-160 | over any run the log only grows and finished calls stand |
| CodeAsSteps.TurnStep | internal/mock/server.go:124-158 | for each fate, answered, dropped or cut short, the matching steps of the system are one turn of the server's loop |
| CodeAsSteps.LoopAsSteps | internal/mock/server.go:120-160 | whatever the fates, a connection served alone by steps ends with the tables, bytes and stop of the whole loop |
| CodeAsSteps.CallAsSteps | internal/modbus/client.go:97-159 | beginning and finishing a call in the system is the client's exchange on the bytes that arrived |
| CodeAsSteps.CutCallAsStep | internal/modbus/client.go:122-124 | a call whose request is cut short is one step, with the client's counter, outcome and bytes out |
| CodeAsSteps.SetAsStep | internal/mock/server.go:308-350 | a Set changes the named entries of its own table and nothing else |
| CodeAsSteps.CallEdges | internal/modbus/client.go:101-124 | without a connection a call touches nothing; one cut short costs an id and leaves what had arrived |
| CodeAsSteps.StepsAvailable | internal/mock/server.go:120-160 | when each step of the system can be taken |
| CodeAsSteps.DropAsStep | internal/mock/server.go:141-143 | a drop is of the request last read, ends the connection and touches neither tables nor log |
| ReplyMatching.IdSteps | internal/modbus/client.go:87-92 | the k-th id from here, across both wraps |
| ReplyMatching.EveryReplyMatches | internal/modbus/client.go:97-159 | over a session of any length each call starts with nothing unread and returns the reply to its own request |
| ReplyMatching.SilentCallsOnlyCount | internal/modbus/client.go:113-129 | calls that time out before any byte write their requests, each with its id, step the counter and change nothing else |
| ReplyMatching.LateReplyRefusedExactlyWithinWrap | internal/modbus/client.go:87-136 | a late whole reply is reported as a mismatch if and only if the calls since are no multiple of 65536 |
| ReplyMatching.OwnReplyExactlyWhenNothingAhead | internal/modbus/client.go:126-158 | any reply but an exception is returned with nothing left over if and only if no byte stands in front of it |
| ReplyMatching.ReadsOwnReplyExactlyWhenNothingAhead | internal/modbus/client.go:126-158 | for each id: every reply is returned and nothing left over if and only if no byte stands in front, unread or in flight |
| ReplyMatching.StaleBytesForgeASuccess | internal/modbus/client.go:134-142 | a concrete session in which a leftover PDU passes as a reply |
| WireFormat.HighByteFirst | internal/modbus/mbap.go:24-31 | a word is v / 256 then v % 256, and is read as 256 times the first byte plus the second |
| WireFormat.FlagByte | internal/mock/server.go:162 | the exception bit adds 0x80 to a code below 0x80 |
| WireFormat.RequestFrameBytes | internal/modbus/client.go:113-120 | the request frame, byte by byte: id, protocol 0, length, unit id, PDU |
| WireFormat.ReplyFrameBytes | internal/mock/server.go:150-156 | the reply frame, byte by byte |
| WireFormat.ShortRequestBytes | internal/modbus/pdu.go:40-66 | the five bytes of each of the six short requests, in numbers |
| WireFormat.WriteCoilsBytes | internal/modbus/pdu.go:88-108 | the bytes of a multiple coil write: bit k of byte 6 + k / 8 on is coil k, padding clear |
| WireFormat.WriteRegistersBytes | internal/modbus/pdu.go:68-86 | the bytes of a multiple register write: word k from byte 6 + 2k on |
| WireFormat.BitReadByBytes | internal/mock/server.go:194-216 | for any five bytes with code 1 or 2: the exception, or each bit of the answer is the addressed table's own entry |
| WireFormat.RegisterReadByBytes | internal/mock/server.go:218-237 | for any five bytes with code 3 or 4: the exception, or each word of the answer is the addressed table's own entry |
| WireFormat.SingleWriteByBytes | internal/mock/server.go:239-260 | for any five bytes with code 5 or 6: the tables and the echo, or exception 3 |
| WireFormat.CoilsWriteByBytes | internal/mock/server.go:262-282 | for any six or more bytes with code 15: the exceptions, or every coil of the table afterwards |
| WireFormat.RegistersWriteByBytes | internal/mock/server.go:284-304 | for any six or more bytes with code 16: the exceptions, or every register of the table afterwards |
| WireFormat.RefusedByBytes | internal/mock/server.go:162-192 | every other PDU: both bytes of the refusal |
| WireFormat.ReceiveByBytes | internal/modbus/client.go:126-158 | for any bytes at all: which check of `do` decides, with which error, and what stays unread |
| WireFormat.PduByBytes | internal/modbus/client.go:147-157 | an exception by its top bit and second byte; a wrong function code by name; otherwise the PDU |
| WireFormat.BitsResponseByBytes | internal/modbus/pdu.go:123-140 | which responses decode as n bits, each bit's place, and the error of every other |
| WireFormat.RegistersResponseByBytes | internal/modbus/pdu.go:142-161 | which responses decode as n words, each word's place, and the error of every other |
| WireFormat.EchoByBytes | internal/modbus/pdu.go:163-176 | for every PDU: when an echo is short, has the wrong address or the wrong value, or is accepted |
| WireFormat.ResponseAcceptedExactly | internal/modbus/client.go:163-249 | for each of the eight operations: which response bytes are accepted, and as which answer |
| WireFormat.ResponseRefused | internal/modbus/client.go:147-157 | what is told of an exception and of another function's code |
| WireFormat.ResponseUndecodable | internal/modbus/pdu.go:123-176 | what is told of a response of the right function that does not decode |
| WireFormat.RemoteReadReturns | internal/modbus/client.go:163-205 | each remote read returns the named range of its own table |
| Synchrony.RunOwes | internal/modbus/client.go:97-159 | over any run: while earlier calls were answered, the last call was too or its reply is still under way |
| Synchrony.AnsweredExactlyWhenClear | internal/modbus/client.go:97-159 | where all calls but perhaps the last were answered, the last was if and only if nothing is under way |
| Synchrony.CallFromClearIsSequential | internal/modbus/client.go:97-159 | a call begun with nothing under way, whatever the history and the continuation and whenever it ends: out of time, or the sequential answer of its one dispatch and nothing left |
| Synchrony.NextCallExactlyWhenClear | internal/modbus/client.go:97-159 | for a request within its table, in every continuation in which the reply is sent and arrives: the call returns the answer of its own logged dispatch and leaves nothing if and only if nothing was under way when it began |
| Synchrony.NextCallExactlyAfterAnswers | internal/modbus/client.go:97-159 | the same told from the caller's own results: where all but perhaps the last call were answered, if and only if the last was |
| Synchrony.ReplyCanBeSent | internal/mock/server.go:120-160 | such continuations exist: the server, left alone on an open connection, always gets to send the reply |
| CutRequests.NextFrameReadExactly | internal/mock/server.go:124-139 | behind a proper part of one frame, another with a different id is read as written if and only if the part is empty |
| CutRequests.NextRequestReadExactly | internal/modbus/client.go:113-124 | after a call whose request was cut short, the server reads the next call's request as written if and only if nothing got out |
| CutRequests.GluedFrame | internal/modbus/client.go:122-124 | ten bytes of a write followed by a read are, byte for byte, a write of the read's transaction id |
| CutRequests.CutRequestOverwrites | internal/mock/server.go:252-260 | on any device those bytes put the transaction id into register 5 and nothing else |
| CutRequests.AlteredDispatch | internal/mock/server.go:120-160 | a run of the system whose one dispatch is of neither request |
| Text.DecimalValue | internal/modbus/address.go:146-151 | the value of a printed decimal is the number |
| Text.AtoiOfDecimal | internal/modbus/address.go:119-122 | printing and reading a number within 64 bits gives it back |
| Text.AtoiTooBig | internal/modbus/address.go:119-122 | a number past 64 bits is none |
| Text.AtoiSigned | internal/modbus/address.go:119-122 | the two signs and their ranges |
| Text.AtoiRefuses | internal/modbus/address.go:119-122 | nothing, a sign alone, and any other character are not numbers |
| Text.SpaceCodes | internal/cliapp/actions.go:85 | white space by code point |
| Text.TrimExactly | internal/cliapp/actions.go:85 | white space around a text is removed, and nothing else |
| Text.TrimShape | internal/cliapp/actions.go:85 | every string is its trimmed text with white space around it |
| Text.AnyCaseLowers | internal/modbus/address.go:57-58 | every spelling of a word with capitals lowers to it |
| Text.LowersExactly | internal/modbus/driver.go:233 | and for a word without i and k no other does |
| Text.SplitAt | internal/modbus/address.go:111 | splitting at a separator undoes joining |
| Address.ReparsedPrint | internal/modbus/address.go:110-151 | re-reading a printed spec resolves its address in the given mode and keeps the rest |
| Address.RawRoundTrip | internal/modbus/address.go:110-151 | in raw mode every spec reads back as itself |
| Address.ClassicRoundTripExactlyOutsideBand | internal/modbus/address.go:124-130 | in classic mode it does if and only if the address is outside its table's band |
| Address.ClassicReach | internal/modbus/address.go:92-130 | which addresses any classic numeral can name |
| Address.CoilBeyondClassicReach | internal/modbus/address.go:92-130 | coil 9999 is one that none can |
| Address.AcceptedExactlyWithinRange | internal/modbus/address.go:119-133 | a numeral is accepted exactly when the resolved offset fits 16 bits, and resolves to n - base inside the band only |
| Address.NamesOfCoil | internal/modbus/address.go:57-60 | every name of the table, in capitals or not and with white space around it |
| Address.NamesOfDiscreteInput | internal/modbus/address.go:57-62 | every name of the table, in capitals or not and with white space around it |
| Address.NamesOfHoldingRegister | internal/modbus/address.go:57-64 | every name of the table, in capitals or not and with white space around it |
| Address.NamesOfInputRegister | internal/modbus/address.go:57-66 | every name of the table, in capitals or not and with white space around it |
| Address.NoOtherNames | internal/modbus/address.go:57-70 | and there are no others |
| Address.SpecByAnyName | internal/modbus/address.go:110-118 | a spec means the same by any name of its table |
| Address.ClassicNumbers | internal/modbus/address.go:77-130 | 1, 10001, 30001 and 40001 on, over the whole band, are the offsets from 0 on |
| Address.OutsideClassicNumbers | internal/modbus/address.go:123-130 | outside its band a number is the offset itself |
| Address.CountsAndSigns | internal/modbus/address.go:119-142 | which counts are accepted, and that a negative address is not |
| Address.ShapeExactly | internal/modbus/address.go:110-118 | two or three parts, and the table before the number |
| Convert.Codec.Normalize | internal/modbus/convert.go:128-140 | the in-place swaps give the registers in standard order |
| Convert.Codec.Denormalize | internal/modbus/convert.go:142-155 | the in-place swaps give the registers in wire order |
| Convert.Codec.Decode | internal/modbus/convert.go:157-181 | the value of the standard-order words, or a width error |
| Convert.Codec.Encode | internal/modbus/convert.go:183-227 | the wire words of the literal's value, or an error when there is none in range |
| Convert.ValueOfWords | internal/modbus/convert.go:183-227 | every value of every type survives encode then decode |
| Convert.WordsOfValue | internal/modbus/convert.go:157-181 | every register block survives decode then encode |
| Convert.OrdersAreInverse | internal/modbus/convert.go:128-155 | normalise and denormalise undo each other both ways under all four orders |
| Convert.CodecIsBijective | internal/modbus/convert.go:157-227 | for each type and order the codec is a bijection between values and register blocks |
| Convert.ShortLayout | internal/modbus/convert.go:118-227 | the two bytes of a 16-bit value on the wire: AB, or BA with little-endian bytes |
| Convert.LongLayout | internal/modbus/convert.go:118-227 | the four bytes of a 32-bit value on the wire: ABCD, BADC, CDAB or DCBA, by the two orders |
| Convert.DecodedExactly | internal/modbus/convert.go:157-181 | a block decodes to a value if and only if its bytes are that value's layout |
| Convert.EncodedExactly | internal/modbus/convert.go:183-227 | which reader and range each type has, and that everything else is refused |
| Driver.CollectStops | internal/modbus/driver.go:219-225 | a list whose prefix fails to convert fails with the same error |
| Driver.CollectOneMore | internal/modbus/driver.go:219-225 | one piece more appends its values, or is the first error |
| Driver.ParseBoolList | internal/modbus/driver.go:229-246 | every piece converted in order, or the first bad piece |
| Driver.Driver.EncodeWrite | internal/modbus/driver.go:200-227 | spec, table and literal checks in order, then the payload |
| Driver.Driver.EncodeRegisters | internal/modbus/driver.go:217-226 | the register words of all pieces in order, or the first error |
| Driver.Driver.Connect | internal/modbus/driver.go:47-50 | a fresh client with the configured unit id on the dialled connection |
| Driver.Driver.Write | internal/modbus/driver.go:158-174 | exactly one request, that of the payload, or nothing sent when input or size is bad |
| Driver.Driver.ExplainWrite | internal/modbus/driver.go:178-195 | the plan of the payload `Write` would send, with its driver, address and type |
| Driver.Driver.Read | internal/modbus/driver.go:59-69 | one read of the spec's table, decoded and labelled; nothing sent when spec or count is bad |
| Driver.Driver.ReadBits | internal/modbus/driver.go:71-99 | one bit read, scalar for a count of one, with address, type, quality and time |
| Driver.Driver.ReadRegisters | internal/modbus/driver.go:101-156 | one register read, decoded by the type's width, with address, type, quality, time and wire words |
| Driver.Driver.DecodeAll | internal/modbus/driver.go:115-156 | one value, or one for each chunk in order, or a width error |
| DriverRoundTrip.PiecesGiveBlocks | internal/modbus/driver.go:217-226 | the words of a literal are the blocks of the values its pieces denote |
| DriverRoundTrip.BlocksReadBack | internal/modbus/driver.go:117-145 | chunked decode of the blocks gives the values back |
| Journeys.DeliveredIsRemoteCall | internal/modbus/driver.go:158-174 | a write delivered both ways is one call over bytes, carried out once |
| DriverRoundTrip.RegistersRoundTrip | internal/modbus/driver.go:101-227 | write then read returns the list for every type and order, and nothing else changed |
| DriverRoundTrip.SplitJoined | internal/modbus/driver.go:219 | splitting a comma-separated list of decimals gives its pieces back |
| DriverRoundTrip.PrintedRoundTrip | internal/modbus/driver.go:101-227 | the same, frame included, with specs and literal as a program prints them, for every list of unsigned values and raw address where it fits |
| DriverRoundTrip.CoilsRoundTrip | internal/modbus/driver.go:71-99 | write then read returns every coil list, and nothing else changed |
| DriverLaws.BoolPieceExactly | internal/modbus/driver.go:232-240 | which words are on and off, in any capitals and spacing, and that no other is |
| DriverLaws.SplitJoinedBits | internal/modbus/driver.go:230 | splitting a list of zeros and ones gives them back |
| DriverLaws.PrintedCoilsRoundTrip | internal/modbus/driver.go:71-246 | every printed coil list, written then read at any raw address where it fits, comes back, and nothing else changed |
| DriverLaws.WriteUsesFunction | internal/modbus/driver.go:163-173 | one entry is written by function 5 or 6, several by 15 or 16 |
| DriverLaws.ReadOnlyRefused | internal/modbus/driver.go:205-207 | a read-only table is never written, and nothing is sent |
| DriverLaws.BitReadSays | internal/modbus/driver.go:71-99 | reading either bit table, with or without a count: its own entries, labelled, or the error and its bounds |
| DriverLaws.RegisterReadSays | internal/modbus/driver.go:101-156 | reading either register table, with or without a count: its own words decoded by the type's width, or the error and its bounds |
| DriverLaws.ReadingSays | internal/modbus/driver.go:115-145 | any block: one value, one for each width in order, or the width error |
| DriverLaws.BlockLayout | internal/modbus/driver.go:217-219 | the driver lays a value out by its own type and its own two orders |
| DriverLaws.WriteStores | internal/modbus/driver.go:158-227 | after a write the i-th value lies at its place among the registers, byte by byte in that layout |
| CliApp.GateWrite | internal/cliapp/actions.go:130-174 | passes if and only if there was explicit confirmation |
| CliApp.ConfirmedExactly | internal/cliapp/actions.go:130-174 | which answers at the prompt stand for the flag, letter by letter, and when there is a prompt |
| CliApp.OneMoreLine | internal/cliapp/actions.go:83-89 | a line is a write unless, trimmed, it is empty or begins with # |
| CliApp.LineIsLiteral | internal/cliapp/actions.go:83-89 | each such line is the literal at its place among them |
| CliApp.RunWrite | internal/cliapp/actions.go:62-78 | without confirmation nothing is sent and the exit code is a refusal |
| CliApp.RunWriteStream | internal/cliapp/actions.go:80-105 | the loop over the lines is the stream of their non-blank, non-comment literals, stopping at the first failure |
| CliApp.RunDryRun | internal/cliapp/actions.go:176-222 | the plans in order and the exit code, going on after a bad line; a single value has its own exit codes |
| DryRunAgreement.WriteInWorld | internal/modbus/driver.go:158-174 | success means carried out exactly once; delivery, legal size and range mean success; never carried out twice |
| DryRunAgreement.WriteTells | internal/modbus/driver.go:158-174 | what a write that does not succeed tells, by what became of it |
| DryRunAgreement.StreamDispatchesPrefix | internal/cliapp/actions.go:80-105 | however the stream ends the device carried out a prefix of its literals, each once, in order |
| DryRunAgreement.LinesDispatchedInOrder | internal/cliapp/actions.go:80-105 | over the lines: what the device carried out are the writes of a prefix of the lines, in order, each once; of all of them on success |
| DryRunAgreement.StreamStops | internal/cliapp/actions.go:80-105 | where a stream stops and with which exit code |
| DryRunAgreement.DryRunReportsAll | internal/cliapp/actions.go:176-222 | the dry run succeeds if and only if every literal encodes, and plans each one |
| DryRunAgreement.DryRunAgreesWithStream | internal/cliapp/actions.go:80-222 | after a successful stream the dry run succeeds too and its plans are the dispatched requests in order |
| DryRunAgreement.LinesPlannedInOrder | internal/cliapp/actions.go:176-222 | over the lines: each write of a successful stream has its plan at its place |
| DryRunAgreement.DryRunGoesOn | internal/cliapp/actions.go:203-213 | one line more adds its plan if it has one, whatever went before |
| DryRunAgreement.DryRunOkExactly | internal/cliapp/actions.go:203-221 | it succeeds if and only if every line has a plan and every plan was printed |
| DryRunAgreement.DryRunExit | internal/cliapp/actions.go:214-221 | the exit code in each case |
| DryRunAgreement.PlanSays | internal/modbus/driver.go:178-195 | each field of a plan |
| DryRunAgreement.StreamSucceedsExactly | internal/cliapp/actions.go:80-222 | an undisturbed stream succeeds if and only if its dry run does and every request is legal and fits its table |
| DryRunAgreement.PrintedLineExactly | internal/cliapp/actions.go:80-222 | for any printed list of unsigned values the dry run succeeds, and the stream if and only if the list is within the write limit and the table |
| DryRunAgreement.DryRunMissesTableEnd | internal/cliapp/actions.go:176-222 | with any reader of decimals, `1,2` to `holding:65535` passes its dry run and fails as a stream |
| Backoff.FullJitterBackoff | internal/watch/poller.go:96-113 | a delay between 0 and the ceiling, or the generator's panic exactly when the ceiling is 2^63 - 1 |
| Backoff.UpperIsIdealExactly | internal/watch/poller.go:105-108 | the exact condition under which the wrapped ceiling is the documented one |
| Backoff.SafeBaseIsIdeal | internal/watch/poller.go:96-108 | it always is for bases up to 2^44 ns |
| Backoff.SafeBaseIsTight | internal/watch/poller.go:96-108 | and is not for 2^44 + 1 from the 21st failure on |
| Backoff.CeilingIsMonotone | internal/watch/poller.go:96-108 | for safe bases the ceiling never falls with the attempt |
| Backoff.UpperWithinMax | internal/watch/poller.go:106-108 | whatever overflows, the ceiling is positive and within the maximum |
| Backoff.WrapIsCongruent | internal/watch/poller.go:105 | the 64-bit product: in range, and equal modulo 2^64 |
| Backoff.CeilingByAttempt | internal/watch/poller.go:96-111 | the ceiling of attempt 1, its doubling up to attempt 21, and that it then stays |
| Backoff.CeilingOfAttempt | internal/watch/poller.go:96-108 | for every base, the ceiling of attempts 1 to 21 |
| Watch.EveryTurnCounts | internal/watch/poller.go:42-71 | every turn is a success or a failure, so turns are values plus failures |
| Watch.DelaysBounded | internal/watch/poller.go:52-55 | one delay a failure, in total at most failures x MaxBackoff |
| Watch.OneMoreTurn | internal/watch/poller.go:42-71 | one turn more: what is emitted, reported, counted and waited for |
| Watch.DefaultSettings | internal/watch/poller.go:31-36 | one second and thirty seconds stand for settings that are not positive |
| Watch.Run | internal/watch/poller.go:30-72 | emits the successes, reports the failures, counts attempts since the last success, returns nil if and only if Count was reached, within Count + F turns and the sleep bound |
| Tank.TankProcess.constructor | internal/mock/process.go:47-59 | the built plant and start state |
| Tank.TankProcess.SetSetpoint | internal/mock/process.go:61-65 | only the setpoint changes |
| Tank.TankProcess.Step | internal/mock/process.go:69-86 | the new state is the Euler step of the controller and the outflow |
| Tank.TankProcess.PercentX100 | internal/mock/process.go:92-104 | the published number, always a 16-bit value |
| Tank.PublishedExactly | internal/mock/process.go:92-104 | the percentage times 100 to within a half, clamped to 16 bits |
| Tank.DefaultStepInNumbers | internal/mock/process.go:69-86 | one step of the built tank in its own constants |
| Tank.TankProcess.Drive | internal/mock/process.go:108-120 | under any schedule of ticks and setpoint changes, what the driven register reads after each; no other register moves |
| Tank.LevelCapped | internal/mock/process.go:79-84 | a step never raises the level above max(level, (maxInflow/outletK)^2), given the step-size condition |
| Tank.LevelCappedForever | internal/mock/process.go:61-86 | nor is it above that at any moment of any schedule of steps and setpoint changes |
| Tank.DefaultTankBounds | internal/mock/process.go:47-104 | at every moment of any schedule the built tank is within [0, 1] m and [0, 4000], so the upper clamp never acts |
| Tank.ClimbingStep | internal/mock/process.go:69-86 | the hidden invariant: unclamped output above a line in the level; with it each step strictly raises the level, below 1 m |
| Tank.ClimbsForever | internal/mock/process.go:69-86 | the invariant and the rise hold at every step of a run of any length |
| Tank.DefaultRunClimbs | internal/mock/process.go:47-104 | from the default start the level rises at every step, 1.5 m is never reached, and the register never falls |
| Alerting.Rule.constructor | python/otcat/alerting.py:25-42 | no samples counted, not active, no callback made |
| Alerting.Rule.Evaluate | python/otcat/alerting.py:145-163 | the rule's memory moves by one sample, or not at all when the predicate raises |
| Alerting.StateIsDeclarative | python/otcat/alerting.py:145-163 | after any history: counter is the trailing run, active exactly when it is at least max(1, debounce), callbacks at exactly the samples that complete or end such a run |
| Alerting.ActiveExactly | python/otcat/alerting.py:133-163 | over any readings and the predicate: active if and only if, of those read and judged, the last max(1, debounce) exist and all breach |
| Alerting.CallbackExactly | python/otcat/alerting.py:145-163 | a trigger at exactly the reading with which that begins, a clear at exactly the one with which it ends |
| Alerting.TrailingRunOfReadings | python/otcat/alerting.py:145-163 | the counter is the number of breaching readings since the last that was judged not to breach |
| Alerting.TrailingRunIsMaximal | python/otcat/alerting.py:153-158 | the trailing run breaches throughout and cannot be extended backwards |
| Alerting.CallbacksAlternate | python/otcat/alerting.py:153-163 | triggers and clears alternate, beginning with a trigger |
| Alerting.NoClearCallback | python/otcat/alerting.py:162-163 | without a clear callback the same triggers and nothing else |
| Alerting.RunStartsAreMaximalRuns | python/otcat/alerting.py:153-158 | a counted start is exactly the beginning of one maximal breaching run of the needed length |
| Alerting.TriggersCountRuns | python/otcat/alerting.py:153-158 | there are as many triggers as maximal breaching runs of at least the needed length |
| Alerting.CodedImpliesDocumented | python/otcat/alerting.py:93-97 | the code never holds an alert the comment would have cleared |
| Alerting.OneGoodSampleClears | python/otcat/alerting.py:159-163 | with a debounce above 1, a history on which code and comment differ |
| Alerting.ClearDebounceKeptExactlyWithoutDebounce | python/otcat/alerting.py:93-97 | they agree on every history if and only if the debounce is at most 1 |
| Alerting.FailedReadIsAbsent | python/otcat/alerting.py:137-151 | a failed read or raising predicate anywhere in the readings is as if absent |
| Alerting.AlertEngine.AddRule | python/otcat/alerting.py:112-114 | the rule comes last |
| Alerting.AlertEngine.PollOnce | python/otcat/alerting.py:133-143 | each rule moves as if polled alone, once for each place it has in the list |
| Alerting.AlertEngine.Run | python/otcat/alerting.py:165-174 | however many rounds, bounded or endless, each rule is where its own readings alone put it; sleeps between rounds only |
| Alerting.RulesDoNotInterfere | python/otcat/alerting.py:133-174 | for distinct rules those are the rule's own column of readings |

## Left out

- Sockets, dialling, deadlines and keep-alive: represented by byte queues, by the bytes that arrive in time, and by drop, delay and failure steps.
- A refused deadline, like an unsuccessful dial, is an error before anything is sent and is not a separate outcome of `do`.
- The empty-PDU check of the client's `do` (internal/modbus/client.go:144-146): the header check before it makes it unreachable.
- Interleaving.StepKeepsInv: goroutines move by the steps listed there; the Go memory model, the listener's life and shutdown are not modelled, and a client is not reconnected after a broken connection. On a connection on which something was written behind a request cut short nothing is claimed of its own calls, because it fails for them (`CutRequests`); the others keep every guarantee.
- Linearizability.CompletedCallIsSequential: says nothing of calls after one that did not end in a reply on the same connection, because it fails for them; `CallFromClearIsSequential` covers those begun with nothing under way, and `NextCallExactlyWhenClear` shows that these are exactly the ones.
- Synchrony.NextCallExactlyWhenClear: for a request past the end of its table, whose answer is an exception, only that nothing under way is enough (`CallFromClearIsSequential`); an exception is told by two bytes, so stray bytes in front can read as the same one.
- Synchrony.NextCallExactlyAfterAnswers: the same restriction; and of the calls after two unanswered ones only what `NextCallExactlyWhenClear` says, which is exact but not visible to the caller.
- DriverRoundTrip.RegistersRoundTrip: numeral syntax is a parameter (`Numerals`), for any reader at all, and a float32 is its bit pattern; strconv and decimal floats are not modelled.
- Lower-casing covers ASCII and the two other code points that fold onto ASCII letters; other letters never match an ASCII word.
- The clock: the time a reading is stamped with is a parameter.
- CliApp.RunWriteStream: exit codes chosen by `classifyErr` stay symbolic (`ExitFor`), and diagnostics on stderr are dropped.
- Backoff.FullJitterBackoff: the jitter is any value from 0 to the ceiling; its distribution is not modelled.
- Watch.Run: the loop over an endless context is every finite prefix of its turns; elapsed time is only the sum of the sleeps asked for.
- Tank.TankProcess.Step: exact reals instead of float64, with the square root given as the non-negative number whose square is the level.
- Tank.TankProcess.Drive: the ticker; a schedule says which tick or setpoint change comes when.
- Alerting callbacks that raise are not modelled.
- Threshold rules, logging, the Python clients, table lookup and audit scanner: thin wrappers that would add only easy members.
- The EtherNet/IP, S7 and BACnet stubs, the output encoders, flag parsing, validation and help text.
