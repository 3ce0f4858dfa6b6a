# adb-daemon-rs: the transport, verified

A Dafny model of the transport of adb-daemon-rs and of the small protocols around it, with proofs that hold
for every input, every run and every interleaving of the model. `dafny verify dfyconfig.toml` checks it.

## What is modelled

**Sockets over one connection.** Two endpoints run the same code over one FIFO message wire in each
direction. `SocketModel` says what one socket does on each message and each poll; `Link` is one connection
alone: an opener, an acceptor and two wires; `Multiplex` is the whole: two endpoints with any number of
sockets, whose frames share the wires. A step is one lock section of the code. The asynchronous parts are
separate steps: a message of `write_message_async` is put on the wire some time after it was made,
`poll_shutdown` takes three lock sections between which messages may arrive, `open_socket` and `accept` may be
cancelled by dropping them, and a transport may fail and lose the tail of what is in flight. Waiting answers
(a flush that is not complete, the write throttle) change nothing and are not steps.

The main result is a refinement: what any run of the whole does to one connection is a run of that connection
alone (`Runs.RunRefines`). The invariant of one connection (`LinkInvariant.Inv`) is a ledger of send credit and
a text equation for each direction, the close protocol of each end, and the handshake; `Guarantees` reads off
what users rely on, and `Progress` and `Completion` say that a live connection always gets to its end.

`Socket` and `Transport` hold the objects themselves, with fields that are updated in place. Their contracts
use the same functions (`Handle`, `Drain`, `ReadReply`, `WriteLen`) that the step systems are made of.

**The connection lock and the wakers.** `ConnectionLock` has any number of tasks share one connection: who may
write when, and which wake-ups there are. `SocketWakers` has the two wakers of one socket: who is woken by a
message, a close or a transport error.

**USB framing.** `Usb`, `UsbOut` and `UsbConnection` cut messages into bulk transfers and packets. A bulk
transfer ends when its buffer is full or a packet is short (section 5.8.3 of the USB 2.0 specification).
`WireOverUsb` puts the two together: USB is the FIFO wire that the sockets assume.

**Keys, authentication, forwards, strings.** `PublicKey` is the Android encoding of an RSA key with its
Montgomery parameters, for any number of 32-bit words (the transport uses 64); `Handshake` is the
authentication; `Forward` the forward tables; `ProtocolString` and `Banner` the small texts.

## What was found

- A shutdown may trip the assertion in `write_message`: it flushes under one lock section and writes under
  another. `ConnectionLock.ShutdownCanFail` is a schedule with two tasks. `ConnectionLock.CleanShutdownsAreSafe`
  says that the assertion holds in exactly those runs in which every shutdown finds the connection as a complete
  flush left it when it writes; no other write can fail it.
- A socket dropped before the OKAY to its OPEN arrived sends CLSE to id 0, which nobody has: its peer is not
  closed. `Guarantees.CloseCanBeLost` is a run in which everything arrives, nothing fails, and the peer stays open;
  however a run goes on from there, the peer is never closed by it (`Guarantees.CloseIsLostBeforeOkay`). With
  everything delivered and nothing failed, the peer is closed exactly if the dropped socket knew its peer's id or
  the peer's own owner closed it; a shutdown always reaches the peer (`Guarantees.CloseArrives`).
- A socket that shut itself down may lose data that its peer had not heard to stop writing: the table forgets it
  at the next message and drops what comes after, and its next read is an end of file all the same.
  `HalfClose.DataCanBeDropped` is a run in which everything arrives, nothing fails, and a byte is lost. A drained
  reader got everything exactly if nothing arrived after its socket had left the table
  (`HalfClose.DrainedMeansComplete`).
- A shutdown wakes no reader: a task that waits in a read while the other half of the socket is shut down sleeps
  on, although its next poll would end at once (`SocketWakers.ShutdownWakesNoReader`). This is the only way to be
  passed over (`SocketWakers.WaiterIsWoken`).
- The connection accepts a packet size of 24, but then a header fills its packet and the device cannot tell
  where it ends: for every non-empty sequence of messages the framing works exactly if the packet size is not
  24 (`UsbOut.WriterIsExact`).
- `rr` is not padded: the encoded key has the fixed layout exactly if rr needs all its bytes
  (`PublicKey.LayoutIsExact`); `PublicKey.UnpaddedKey` is a key for which it does not.
- A forward command is understood as it was meant exactly if its parts can be written, the first has no semicolon,
  and it does not begin like a norebind (`Forward.CommandRoundTrip`).
- Protocol strings are read back exactly if they are shorter than 65536 bytes (`ProtocolString.ReadWrite`).
- Local ids are good exactly for the first 2^32 - 1 sockets (`Guarantees.IdsAreUnique`).

## Model

| member | source | states |
|---|---|---|
| Runs.RunRefines | packages/transport/src/transport.rs:162-173 | Multiplexing refines independent byte pipes: in every run with fewer than 2^32 ids per end, the steps that one connection sees are a run of that connection alone and lead to exactly its part of the whole state |
| Runs.RunHolds | packages/transport/src/transport.rs:134-178 | In every reachable state frames are routed to the socket they were meant for and every connection satisfies its invariant |
| Refinement.ActSimulates | packages/transport/src/transport.rs:134-178 | Every action of the whole is one step of a connection or leaves everything that connection sees unchanged |
| LinkSteps.StepKeeps | packages/transport/src/socket.rs:82-318 | Every step of either end of a connection, and every delivery, refusal, drop or failure, keeps the credit ledger, the text equation, the close protocol and the handshake |
| Guarantees.OthersAreUntouched | packages/transport/src/transport.rs:162-173 | A frame or poll for one local id never changes another connection |
| Guarantees.StreamsArePrefixes | packages/transport/src/socket.rs:105-108 | What each reader received is a prefix of what its peer wrote, through partial reads, shutdown, drop, removal and loss |
| Guarantees.CreditIsConserved | packages/transport/src/socket.rs:88-108 | Credit at the writer, payload on the wire, queued bytes, returning credit and forfeited credit always add up to the window; nothing is forfeited while both ends are open |
| Guarantees.WindowBounds | packages/transport/src/transport.rs:23 | Credit never exceeds 32 MiB, no queue holds more than 32 MiB, and casting the acknowledged count to 32 bits loses nothing |
| Guarantees.FlushIsExact | packages/transport/src/socket.rs:286-303 | When a flush is ready on an opened socket its peer's owner has received every byte written |
| Guarantees.ShutdownNeverOvertakes | packages/transport/src/socket.rs:306-318 | Between the lock sections of a shutdown the peer has still received everything, so its CLSE overtakes no data |
| Guarantees.EofIsExact | packages/transport/src/socket.rs:205-220 | On a socket closed first by its peer, a successful read of nothing into a non-empty buffer means that all bytes ever written were received, and the peer is closed |
| HalfClose.DrainedMeansComplete | packages/transport/src/transport.rs:164-172 | With an empty queue and nothing in flight or lost, the reader received all that was written exactly if nothing arrived after its socket had left the table |
| HalfClose.DataCanBeDropped | packages/transport/src/transport.rs:164-172 | A run in which the opener shuts down, the acceptor then writes two bytes, everything is delivered, nothing fails, and the opener sees the end of file after the first |
| Guarantees.WaitingIsListed | packages/transport/src/transport.rs:384-385 | As long as `open_socket` waits and was not refused, its socket is in the table |
| Guarantees.OkayIsNotMissed | packages/transport/src/transport.rs:399-412 | The first OKAY to arrive opens the waiting socket with the full window |
| Guarantees.EndsNameEachOther | packages/transport/src/socket.rs:93-98 | Ids are non-zero, sockets are kept under their own id, and opened ends name each other |
| Guarantees.EverySocketHasItsConnection | packages/transport/src/transport.rs:243-258 | Every socket opened a connection or is the accepting end of the one its remote id names |
| Guarantees.PeerIsForever | packages/transport/src/socket.rs:93-98 | A remote id, once known, never changes, however the run goes on |
| Guarantees.IdsAreUnique | packages/transport/src/transport.rs:381 | The ids handed out are non-zero and pairwise different exactly if there are fewer than 2^32 |
| Guarantees.ClseIsLast | packages/transport/src/socket.rs:65-80 | Among all frames a socket ever sends CLSE occurs at most once and is the last, and every WRTE is at most 1 MiB |
| Guarantees.CloseArrives | packages/transport/src/socket.rs:65-80 | With nothing more to send or under way and no failure: the accepted peer of a dropped opener is closed exactly if the opener knew its id or its own owner closed it; the peer of a socket that was shut down, and of an acceptor, is closed |
| Guarantees.CloseCanBeLost | packages/transport/src/socket.rs:121-135 | A run in which the opener is dropped before its OKAY arrives, everything is delivered, nothing fails, and the acceptor stays open |
| Guarantees.RefusalArrives | packages/transport/src/transport.rs:260-264 | An opener whose request was refused is closed once everything is delivered, and has no peer |
| Guarantees.CloseIsLostBeforeOkay | packages/transport/src/socket.rs:121-135 | A socket dropped before it learned its peer never closes that peer, however the run goes on |
| Progress.NeverStuck | packages/transport/src/socket.rs:193-303 | If no write, read or delivery of a live connection is possible, everything is written, received and acknowledged and both flushes are ready |
| Progress.WorkIsProgress | packages/transport/src/socket.rs:193-303 | Every write of a non-empty buffer, read into room and delivery decreases a measure over unwritten, travelling, queued and returning bytes |
| Progress.WorkEnds | packages/transport/src/socket.rs:193-303 | Every run of such work, in buffers of any size, is finite and loses no byte; when it cannot go on, each reader received exactly what was to be written |
| Completion.WorkEndsInTheWhole | packages/transport/src/transport.rs:180-188 | However a run of the whole goes on from a live connection, with whatever other sockets do: its own work takes at most as many steps as the measure says, and when none is left it is finished |
| Completion.CanAlwaysFinish | packages/transport/src/transport.rs:180-188 | From every reachable state of the whole a live connection can be finished, whatever other sockets have in flight |
| Completion.AloneMeansPossible | packages/transport/src/transport.rs:134-178 | The converse of the refinement: whatever steps of its owners and deliveries a connection could make alone, from every reachable state the whole can make it do, whatever other sockets have in flight |
| Completion.FrameCanArrive | packages/transport/src/transport.rs:180-188 | In every reachable state the next frame of a connection can be delivered, after those of other connections ahead of it |
| SocketModel.DrainSplits | packages/transport/src/socket.rs:205-216 | A read splits the queued bytes and takes as many as fit |
| SocketModel.WriteIsFull | packages/transport/src/socket.rs:269-280 | A write sends one WRTE with the front of the buffer and pays for it: as long as the buffer, the credit and 1 MiB allow, and no shorter |
| FlowLemmas.ReadMoves | packages/transport/src/socket.rs:205-235 | A read keeps what has arrived, and what it acknowledges is what it took |
| Socket.SocketBackend.constructor | packages/transport/src/socket.rs:144-181 | A new socket has the given ids and window, and nothing queued |
| Socket.SocketBackend.HandleMessage | packages/transport/src/socket.rs:82-118 | OKAY, WRTE and CLSE act as `Handle` and notify the wakers of the halves they concern; an OKAY without four bytes is an error and changes nothing; the answer is whether the socket is closed |
| Socket.SocketBackend.Fill | packages/transport/src/socket.rs:205-216 | The loop of a read takes what `Drain` takes |
| Socket.SocketBackend.Shutdown | packages/transport/src/socket.rs:65-80 | Closes an open socket of a live transport and yields its CLSE, otherwise nothing |
| Socket.SocketBackend.PollRead | packages/transport/src/socket.rs:193-239 | Takes what `Drain` takes, acknowledges it unless closed, waits if there was nothing, and does nothing while the flush waits or fails |
| Socket.SocketBackend.PollWrite | packages/transport/src/socket.rs:244-283 | Writes exactly as much as buffer, credit and 1 MiB allow and takes the credit; fails when closed; waits for credit, flush and throttle |
| Socket.SocketBackend.PollFlush | packages/transport/src/socket.rs:286-303 | Ready exactly when all credit is back; fails when it cannot come back because the socket is closed |
| Socket.SocketBackend.PollShutdown | packages/transport/src/socket.rs:306-318 | Waits for the flush, then closes once and sends one CLSE |
| Transport.TransportBackend.constructor | packages/transport/src/transport.rs:297-308 | The table is empty and ids start at 1 |
| Transport.TransportBackend.HandleMessage | packages/transport/src/transport.rs:134-178 | A message acts on the table as `Dispatch`: only its socket changes, and a closed socket leaves the table; OPEN queues a request |
| Transport.TransportBackend.OnError | packages/transport/src/transport.rs:190-210 | The first error is kept, takes the connection away, stops the reader task and notifies both wakers of every socket once; a later one changes nothing |
| Transport.TransportBackend.OpenSocket | packages/transport/src/transport.rs:376-397 | A fresh socket is in the table under the next id before its OPEN is written; if that fails, it leaves the table |
| Transport.TransportBackend.Accept | packages/transport/src/transport.rs:243-258 | A fresh socket with the window of the OPEN is in the table before its OKAY is written; if that fails, it leaves the table |
| Transport.TransportBackend.Close | packages/transport/src/transport.rs:260-264 | A refusal is a CLSE from id 0; a failed write is the transport's error |
| Transport.TransportBackend.DropSocket | packages/transport/src/socket.rs:184-189 | Dropping a socket removes it from the table and closes it once |
| Transport.ReceiveIsDispatch | packages/transport/src/transport.rs:162-173 | The step system's delivery and the table's dispatch agree on every message |
| Transport.AddedSockets | packages/transport/src/transport.rs:243-255 | The step system's open and accept put exactly the same state into the table under the same id, and have an OPEN with its service, or an OKAY, to send, each with a window of 32 MiB |
| Transport.DroppedSockets | packages/transport/src/socket.rs:121-135 | The step system's drop removes exactly that socket from the table and leaves the same state and message |
| Transport.ReadIsStep | packages/transport/src/socket.rs:200-238 | After a complete flush `poll_read` gives the state, bytes and messages of the model's read; it waits, changing nothing, exactly where the model has none and where the wake-up model calls its task unserved |
| Transport.WriteIsStep | packages/transport/src/socket.rs:251-282 | After a complete flush `poll_write` gives the state, bytes and message of the model's write; it is not ready exactly where the model has none, and waits exactly where its task is unserved |
| Transport.FlushIsStep | packages/transport/src/socket.rs:286-303 | The flush of a shutdown is ready exactly if the model's shutdown can go on, and waits exactly where its task is unserved |
| Transport.FinishIsStep | packages/transport/src/socket.rs:65-80 | The close of a shutdown gives the model's state, and its message is what the model then has to send |
| Messages.DecodeEncode | packages/transport/src/message.rs:37-66 | Every header is decoded from its 24 bytes, whatever follows |
| Messages.EncodeDecode | packages/transport/src/message.rs:37-66 | Bytes that decode are the encoding of what they decode to |
| Messages.FrameRoundTrip | packages/transport/src/transport.rs:144-163 | Every OPEN, OKAY, WRTE and CLSE is understood by the receiver as it was meant |
| Messages.HeaderBytes | packages/transport/src/message.rs:91-103 | In the bytes of every new message the command is spelled in ASCII, the last four bytes are its complement, the checksum is zero, and arguments and length can be read |
| Messages.FrameBytes | packages/transport/src/transport.rs:249-254 | Each frame's message has the command, the ids or window, and the payload of its kind |
| Messages.ToFrameIsExact | packages/transport/src/transport.rs:144-156 | Any OPEN loses one zero byte at its end if there is one; an OKAY without four bytes and every other command are no frames |
| Messages.ToVec | packages/transport/src/message.rs:53-66 | Writes the header word by word as `Encode` says |
| Messages.ReadHeader | packages/transport/src/message.rs:37-51 | Reads it word by word as `Decode` says, with both errors |
| Messages.Cursor.GetU32Le | packages/transport/src/message.rs:43-49 | Reads one little-endian word and advances |
| ConnectionLock.NoLostWakeUp | packages/transport/src/transport.rs:76-86 | In every interleaving a task that waits for a flush holds a wake, or is in the collection that an outstanding completion will wake |
| ConnectionLock.ParkedExactly | packages/transport/src/transport.rs:76-86 | The tasks that this is about are exactly those whose last poll found a transfer outstanding |
| ConnectionLock.CompletionWakes | packages/transport/src/transport.rs:32-41 | That completion is possible and wakes the task |
| ConnectionLock.AssertionFailsExactly | packages/transport/src/connection/usb.rs:173-174 | Over all interleavings, a write after a flush in the same lock section finds nothing pending; the assertion fails exactly if a shutdown writes after a use that left the connection unclean |
| ConnectionLock.CleanShutdownsAreSafe | packages/transport/src/socket.rs:309-313 | The assertion holds in a run exactly if every shutdown finds the connection clean |
| ConnectionLock.ShutdownCanFail | packages/transport/src/socket.rs:309-313 | A schedule of two tasks in which the assertion fails |
| ConnectionLock.AsyncWritesOnce | packages/transport/src/transport.rs:96-109 | No asynchronous message is sent twice or forgotten |
| ConnectionLock.AsyncDoneMeansSent | packages/transport/src/transport.rs:96-109 | An asynchronous write that ends has sent its message |
| SocketWakers.WaiterIsWoken | packages/transport/src/socket.rs:82-118 | A parked reader, writer, flusher or opener without a wake was told nothing, and what it waits for has come exactly if its own socket was shut down since; on the write half this cannot be, so it has a wake once credit, a peer, a close or a told error came |
| SocketWakers.ShutdownWakesNoReader | packages/transport/src/socket.rs:65-80 | A schedule in which a shutdown leaves a parked reader asleep |
| Usb.ReaderIsExact | packages/transport/src/connection/usb.rs:124-171 | Under every schedule of arrivals and polls the reader returns exactly the device's messages in order and never fails, for every packet size of at least 24 |
| Usb.FaultEndsPoll | packages/transport/src/connection/usb.rs:130-150 | A fault among packets that do not yet end the transfer ends the poll in an error, and its buffer is gone |
| Usb.BadHeaderEndsPoll | packages/transport/src/connection/usb.rs:150-170 | A transfer that is no header ends the poll with the reason; an empty one is such a transfer |
| Usb.ReadsInStep | packages/transport/src/connection/usb.rs:130-170 | One poll returns the next message or waits for packets of it; the queue is [header] or [payload, header] |
| Usb.PayloadCompletes | packages/transport/src/connection/usb.rs:158-162 | A buffer rounded up to packets takes exactly the packets of its payload |
| UsbOut.WriterIsExact | packages/transport/src/connection/usb.rs:173-187 | Cutting the packets after each short one recovers all transfers and messages exactly if the packet size is not 24 |
| UsbOut.TransfersRecovered | packages/transport/src/connection/usb.rs:173-187 | For every larger packet size the device sees each header and payload as its own transfer, with nothing left over |
| UsbOut.MessagesParsed | packages/transport/src/message.rs:91-103 | Decoding those transfers gives back the messages |
| UsbOut.ZeroLengthPacketIsExact | packages/transport/src/connection/usb.rs:181-183 | The device sees payload and next header exactly if the empty transfer is sent for multiples of the packet size and only for them |
| WireOverUsb.FramesComeIn | packages/transport/src/connection/usb.rs:124-171 | For every list of frames that fit their messages, under every schedule the reader returns those frames in order and never fails |
| WireOverUsb.FramesGoOut | packages/transport/src/connection/usb.rs:173-187 | The packets of every such list give back exactly those frames |
| WireOverUsb.OnlyServicesAreLong | packages/transport/src/transport.rs:387-396 | In every run all frames fit their messages, except an OPEN whose service name is too long |
| WireOverUsb.UsbIsTheWire | packages/transport/src/connection/usb.rs:124-187 | What an endpoint has sent in any run crosses USB in both directions as it crosses the wire of the model |
| UsbConnection.UsbConnection.PollReadMessage | packages/transport/src/connection/usb.rs:124-171 | The loop does what `Usb.PollRead` says to the queue, the header and the packets |
| UsbConnection.UsbConnection.TakeHeader | packages/transport/src/connection/usb.rs:155-168 | A header queues the buffers for what follows and is kept until its payload is there |
| UsbConnection.UsbConnection.WriteMessage | packages/transport/src/connection/usb.rs:173-187 | With nothing pending, submits exactly the transfers and packets of one message |
| UsbConnection.UsbConnection.PollFlush | packages/transport/src/connection/usb.rs:190-197 | Reaps completed transfers in order; ready exactly when none is pending; stops at a failed one |
| PublicKey.ModInverseIsTheInverse | packages/transport/src/auth.rs:22-28 | The inverse modulo 2^32 exists exactly for odd numbers and is the only one |
| PublicKey.NInvIsMinusInverse | packages/transport/src/auth.rs:23-29 | For every odd n, ninv exists, fits 32 bits and n * ninv is -1 modulo 2^32 |
| PublicKey.MontgomeryConverts | packages/transport/src/auth.rs:33 | With these parameters word-wise Montgomery reduction of x * rr gives x * R mod n for all x below n |
| PublicKey.EncodesOddKeys | packages/transport/src/auth.rs:15-36 | A key is encoded exactly if it has the right size, is odd and has a 32-bit exponent |
| PublicKey.LayoutIsExact | packages/transport/src/auth.rs:19-36 | The blob has the fixed length, and decodes to ninv, n, rr and e, exactly if rr needs all its bytes |
| PublicKey.LowestFirst | packages/transport/src/auth.rs:31-34 | The bytes of a number come lowest first |
| PublicKey.UnpaddedKey | packages/transport/src/auth.rs:33-34 | For n = R - 1 rr takes one byte and the layout fails |
| PublicKey.EncodePublicKey | packages/transport/src/auth.rs:14-36 | Appends the fields one by one, with every error, as `Encode` says |
| Handshake.HandshakeIsExact | packages/transport/src/transport.rs:316-355 | For every stream the first challenge gets its signature, the second the public key, a third is a rejection, and otherwise the handshake ends with the first CNXN |
| Handshake.AnswersAreRight | packages/transport/src/transport.rs:327-345 | What both attempts send: for the first challenge an AUTH of type 2 with the key's signature of it, for the second one of type 3 with the public key, and nothing else |
| Handshake.AttemptSends | packages/transport/src/transport.rs:327-345 | One attempt sends a signature with an existing key, or the public key of a new one, for its first challenge, and nothing else |
| Handshake.AuthTransport.Auth | packages/transport/src/transport.rs:316-355 | One attempt: uses its mode once and hands over the challenge it cannot answer |
| Handshake.AuthTransport.Connect | src/connection/usb.rs:51-63 | The existing key first, then the offer of the key |
| Forward.EveryKeyOwnsItsListener | src/forward.rs:134-195 | In every run each key is tcp:p with p not 0 and owns one listener bound to p |
| Forward.CommandIsExact | src/forward.rs:146-227 | A port is returned exactly for port 0; a refusal only cleans up; an Add changes one entry and keeps a live listener; a kill removes its key and dead entries |
| Forward.AddSucceedsExactly | src/forward.rs:151-195 | An Add succeeds exactly for a local port, with a connection, and if it gives a live entry a new target and may do so, or else could bind |
| Forward.OthersAreExact | src/forward.rs:197-217 | A kill keeps exactly the other live entries as they are; a kill of all keeps none; a list shows exactly the live entries with their targets |
| Forward.NotACommand | src/forward.rs:42-69 | Exactly what has none of the four forms is no forward command, and that is not an error |
| Forward.ProtoIsExact | src/forward.rs:25-33 | After "tcp:" exactly the decimal numbers below 65536, with an optional plus sign and leading zeros, are ports and anything else is an error; every other text is a name |
| Forward.ForwardingMgr.HandleForward | src/forward.rs:146-227 | Updates the table in place as `Handle` says |
| Forward.ForwardingMgr.CleanForwards | src/forward.rs:139-144 | Keeps exactly the entries whose connection and task are alive |
| Forward.ProtoRoundTrip | src/forward.rs:17-33 | A value parses back from its printed form exactly if it can be parsed from anything |
| Forward.CommandRoundTrip | src/forward.rs:42-69 | A command asked for in its textual form parses back to itself exactly if its parts can be written, its first part has no semicolon, and it is not mistaken for a norebind |
| Forward.ReverseTableIsHistory | src/forward.rs:239-253 | The reverse table holds exactly what was set and not taken away since |
| Forward.AcceptsOnlyWhatWasForwarded | src/forward.rs:258-269 | A device's socket is connected exactly to local ports that a reverse forward still names |
| Text.DecimalIsSpelled | src/forward.rs:19 | A port is printed in decimal ASCII digits, the highest first |
| ProtocolString.ReadWrite | src/util.rs:5-23 | A text is read back, leaving the rest, exactly if its length is below 65536 |
| ProtocolString.ReadIsExact | src/util.rs:5-15 | Exactly a length, so many bytes and a text are read; an early end, another length and bytes that are no text are errors |
| ProtocolString.LengthIsExact | src/util.rs:8-10 | A length is four hexadecimal digits, or a plus sign and three, the highest first |
| ProtocolString.HexValueIsExact | src/util.rs:8-10 | A hexadecimal digit is one of the sixteen characters, in either case, and means its place |
| ProtocolString.LengthIsSpelled | src/util.rs:18 | A written length is spelled in lower-case hexadecimal digits, the highest first |
| ProtocolString.ReadWriteMany | src/util.rs:5-23 | Texts written in a row are read back in order |
| ProtocolString.Stream.ReadProtocolString | src/util.rs:5-15 | Reads length and text from the stream, with every error |
| ProtocolString.Stream.WriteProtocolString | src/util.rs:17-23 | Appends the length in at least four hexadecimal digits and the text |
| Banner.FeaturesStr | packages/transport/src/banner.rs:27-31 | The loop builds the features with commas between them, in the order of the set |
| Banner.FeaturesSurvive | packages/transport/src/banner.rs:27-62 | For every parsed banner and iteration order, splitting the printed features gives the same set |
| Banner.BannerIsUnderstood | packages/transport/src/banner.rs:39-62 | For every kind and list of pairs a device prints: the last value of each key counts, no other key is there, the features are the comma-separated pieces of the last "features" or one empty text, and it is a device exactly if the kind says so |
| Banner.ColonsMislead | packages/transport/src/banner.rs:43 | For a kind that ends in a colon or has two in a row another kind is read |

## Left out

- USB device discovery, claiming, reset and the transfer layer of nusb: an endpoint is a queue of transfers with the completion rule above, and a resubmitted buffer keeps its requested size.
- Timers: the write throttle and the read timeout only delay an answer.
- RSA signing, SHA-1, key files and base64: library code; the encoding stops at the bytes before base64, and a signature is any function of the challenge.
- Task scheduling inside tokio and the shard locks of the socket table: steps are the lock sections of the state and the connection.
- Wake-ups of tasks that wait in an asynchronous write, or on a socket already removed from the table, when the connection is dropped.
- The bound of three on queued OPENs: the reader task may then wait, which only delays deliveries.
- Peers that break the protocol: both endpoints run this code, so a second OPEN with the same id does not occur.
- Overflow of the credit counter, a machine word in the program: it is bounded by the window in every run.
- Validity of UTF-8: a parameter of the string readers.
- The listening and copying tasks of a forward, and smart sockets, configuration and logging: I/O around the parts above.
- Completion.CanAlwaysFinish: says that a finish is always possible and `Completion.WorkEndsInTheWhole` that work cannot go on forever; that a scheduler does every enabled step some time is not stated.
- Socket.SocketBackend.PollShutdown: makes one call of its three lock sections; what may happen between them is in the step systems (`SocketModel.After`, `ConnectionLock.Do`, `SocketWakers.Do`).
