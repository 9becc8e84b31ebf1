# Verified models of the protocol code under `ios/Pods`

Gift-Genie itself is a thin Flutter shell; the protocol logic it ships is vendored under `ios/Pods`. This
project models the hardest parts of that code in Dafny and proves what they are for. Code that updates
state is modelled by classes, arrays and loops, each method proved against a function of the old state;
the properties are then proved about those functions and about whole runs.

## What is modelled

**DTLS handshake transport** (RFC 6347, sections 4.1.2.6, 4.2.2, 4.2.3, 4.2.4 and 4.2.6).

- `Bytes`, `Handshake`: integers on the wire, the fragment header and its parser.
- `Reassembly`, `DtlsReceiver`: one partly received message with its byte-wise bitmap, and the ring of seven.
- `ReplayWindow`, `DtlsRecord`: the anti-replay window and the reading side of the record layer.
- `DtlsReader`: records, ring and ChangeCipherSpec together, as the handshake sees them.
- `DtlsEncrypted`: any record at all, plain or sealed (`OpensIff`), and the one message that comes in the encrypted
  epoch, from its sealed fragments to the application (`EncryptedDelivered`).
- `DtlsSealing`: sequence numbers, epochs and sealing.
- `DtlsFlight`, `DtlsSender`: cutting a flight into full packets (`PacketIsFull`), resuming after a refused write,
  retransmitting, and exactly when a call sends the whole flight (`FlightWriter.SendFlight`).
- `DtlsConnection`: serializing and numbering messages, and dropping an answered flight.
- `DtlsNetwork`, `DtlsEndToEnd`: a sender with its counters, a network that loses, duplicates and reorders, and
  the receiver as one state machine. Main results: `DeliveredExactly`, `AvailableWhenArrived`, `CountedIff`,
  `FailsIffTooLong`.
- `DtlsProgress`: from every reachable state one loss-free retransmission delivers the rest
  (`RetransmissionDelivers`, `PlaintextFlightArrives`, `PlaintextPlanEnds`).
- `DtlsLateRecord`: a run in which a record is overtaken and lost.
- `DtlsNonces`: no nonce is used twice in an epoch, over any records and key changes (`NoncesUsedOnce`).

**nanopb** (the Protocol Buffers wire format, compiled with 32-bit field descriptors).

- `PbWire`, `PbSchema`, `PbCodec`: varints, tags and windows; descriptor tables and struct layout; the wire
  form of a struct and the reading of it, as functions.
- `PbStream`, `PbEncoder`, `PbIter`, `PbDecoder`: the streams, encoder, field iterator and decoder as they run.
- `PbRoundTrip`, `PbRestore`: decoding undoes encoding, and exactly when the struct comes back the same.
- `PbUnknown`, `PbFraming`: unknown fields, required fields, and several messages in one stream.
- `PbForward`, `PbMerge`: a reader that does not know a message skips it (`ForwardCompatible`), and messages behind
  each other merge (`MessagesMerge`, `LastWins`).
- `PbRequired`, `PbScalars`, `PbVarintExact`: exactly which messages, values and varints are accepted, over every input
  (`AcceptedIff`, `EntriesAcceptedIff`, `DecodeVarintIff`, `DecodeVarint32Iff`).
- `PbDecoded`: what is accepted fits the struct, can be sent on and comes back (`MessageSound`, `AcceptedComesBack`).
- `PbExamples`: the worked examples of the Protocol Buffers encoding guide, byte by byte.
  Main results besides those: `MessageRoundTrip`, `RestoredIffKept`, `MessageIgnoresUnknown`,
  `StreamRoundTrip`, and the contracts of `EncSubmessage` and `GetEncodedSize`.

**TLS and BoringSSL cores.**

- `TlsMachines`, `TlsComposition`, `TlsRuns`: the client and server machines of TLS up to 1.2 (RFC 5246,
  sections 7.3 and 7.4; RFC 5077, section 3), joined by channels. Main results: `NoUnexpectedMessage`,
  `TranscriptsAgree`, `DoneAgree`, `NeverStuck`, `CanComplete`.
- `TlsOneSided`, `TlsOneSidedServer`: one machine against a peer that sends anything. Unless it has failed it keeps to
  the order of the protocol, and once done it has checked the peer's Finished and certificate (`ClientStaysInOrder`,
  `ClientDoneVerified`, `CertificateWasVerified`, `ServerStaysInOrder`, `ServerDoneVerified`).
- `HandshakeStream`: handshake messages over records (RFC 5246, section 6.2.1). `RecordBoundariesDoNotMatter`.
- `TlsWire`, `TlsDriver`, `TlsSession`: the machines as they run, over a buffer of bytes and records cut anywhere:
  one method a `do_` function, the loops over them, and the driver that resolves a wait. A call is shown to be a
  run of the machines above (`RunClient`, `RunServer`).
- `TlsAnyPeer`: what the one-sided results say about the bytes hashed (`ClientOnBytes`, `ServerOnBytes`).
- `TlsConversation`: a client and a server at the two ends, for every schedule of calls (`Converse`,
  `TranscriptBytes`), and from every state to the end of the handshake (`Finish`).
- `AppData`: application data over a transport that stalls, with the layers below that seal and send it.
- `AeadContext`: nonces and additional data. `OpenUndoesSeal`, `NoncesDistinct`, and the four constructions byte by
  byte (`SealsGcm`, `SealsChaCha`, `SealsTls13`, `SealsMac`).
- `CipherChoice`: which ciphers the server can use (`UsableIff`), and its choice with equal-preference groups.
- `Refcount`: the compare-and-swap reference count against the locked one. `StepRefines`, `ZeroReportedOnce`.

## What turned out not to hold everywhere

The code is kept as it is in each case; the lemma says exactly when it meets the expectation.

- Across the wrap of the 16-bit message number a fragment of an unread message is dropped silently
  (`DroppedIffWrapBetween`, `WrapLosesFragment`). The next retransmission still delivers it
  (`RetransmissionDelivers`).
- A record that was never seen is lost if its number is 64 or more behind one that was (`LateRecordLost`
  in `DtlsLateRecord`, a run that ends there).
  Together with the wrap this is all that keeps an opened fragment from being counted (`CountedIff`).
- A fragment numbered exactly seven ahead passes the filter and is then an error; any other outside the window
  is ignored (`OutsideIgnoredIff`, `SevenAheadFails`). No flight of at most seven messages contains one
  (`WindowCases`).
- With an MTU above 16397 and a body above 16372 bytes a plaintext fragment can exceed the receiver's limit
  (`OversizedIff`). Up to 16704 bytes that is a failure, and beyond it the rest of the datagram is dropped
  (`FailsIffTooLong`, `UnreadableDropsRest`, `LongRecordsLost`).
- A sealing failure in the middle of a packet leaves the position ahead of what was sent, exactly when the
  packet's first entry had been sealed whole (`FailureMovesIff`, `FailureLosesMessage`); a call then continues
  in step if and only if the sender was in step before it (`FlightWriter.SendFlight`). A retransmission starts
  from a known place again.
- A proto3 field that is zero, with a declared default that is not, is not written and comes back as that
  default; a union selector that names no member comes back as 0 (`RestoredIffKept`, `DeclaredDefaultLost`, `SelectorLost`).
- The 32-bit varint decoder reads overlong inputs as other values: bits above 32 in a fifth byte are lost when a byte
  follows, and behind 37 bytes its position counter has wrapped (`DecodeVarint32Iff`, `HighBitsLost`, `CounterWraps`).
- Decoding two messages behind each other is decoding the second onto the first, but an array without a count
  cannot be sent again (`MessagesMerge`, `ArrayTwice`).
- A receiver stops at the 33rd empty handshake record in a row, wherever they fall
  (`RecordBoundariesDoNotMatter`).
- A repeated write shorter than the bytes already done is refused, and the count of those bytes is lost
  (`AppWriter.Write`).
- With a last group flag of 1 the last group is never closed, and a match in it is not chosen
  (`ChooseCipher`; `Negotiate` assumes the flag is 0).

## Model

| member | source | states |
|---|---|---|
| `Handshake.ParseEncoded` | ios/Pods/BoringSSL-GRPC/ssl/d1_both.cc:459-473 | a serialized fragment parses back to its own header and body, and whatever follows it in the record is left over untouched |
| `Handshake.EncodeParsed` | ios/Pods/BoringSSL-GRPC/ssl/d1_both.cc:459-473 | a parsed fragment serializes to exactly the front of the input: the parser drops, adds and reorders nothing |
| `Handshake.HeaderLayout` | ios/Pods/BoringSSL-GRPC/ssl/d1_both.cc:459-473 | where type, length, number, offset and fragment length stand in the header, most significant byte first, for every header |
| `Reassembly.BitRangeBits` | ios/Pods/BoringSSL-GRPC/ssl/d1_both.cc:201-205 | of the eight bits of the mask, exactly those from `start` inclusive to `end` exclusive are set |
| `Reassembly.SetRange` | ios/Pods/BoringSSL-GRPC/ssl/d1_both.cc:226-236 | every byte of the bitmap, whether first, middle, last or outside, is or-ed with its own part of the range; all accesses are in bounds |
| `Reassembly.OrRangeMarksAll` | ios/Pods/BoringSSL-GRPC/ssl/d1_both.cc:226-236 | or-ing those parts adds exactly the positions of the range to the set of marked positions, also when ranges overlap or repeat |
| `Reassembly.AllSet` | ios/Pods/BoringSSL-GRPC/ssl/d1_both.cc:238-248 | the byte-wise test with its masked last byte answers yes exactly when every one of the `n` positions is set |
| `Reassembly.HmFragment.constructor` | ios/Pods/BoringSSL-GRPC/ssl/d1_both.cc:152-199 | a new message knows its rebuilt header (offset 0, whole length) and none of its body; an empty message has no bitmap and is complete at once |
| `Reassembly.HmFragment.Mark` | ios/Pods/BoringSSL-GRPC/ssl/d1_both.cc:207-251 | after any sequence of marks, overlapping, repeated or empty, bit i is set exactly when byte i was covered, bits past the length stay clear, and the bitmap is gone exactly when the ranges cover the message; a range out of bounds changes nothing |
| `Reassembly.HmFragment.ReleaseIfComplete` | ios/Pods/BoringSSL-GRPC/ssl/d1_both.cc:238-250 | the bitmap is released exactly when all positions are covered |
| `Reassembly.HmFragment.Copy` | ios/Pods/BoringSSL-GRPC/ssl/d1_both.cc:399-401 | copying changes the bytes of the fragment's range and no other byte of the buffer, the rebuilt header included |
| `Reassembly.HmFragment.Fill` | ios/Pods/BoringSSL-GRPC/ssl/d1_both.cc:399-402 | copy and mark together overlay the known body with the fragment's bytes: known where covered, as sent, and unknown elsewhere |
| `Reassembly.FilledBody` | ios/Pods/BoringSSL-GRPC/ssl/d1_both.cc:399-402 | the invariant behind `Fill`: a patched buffer read through the grown bitmap is the overlay of the body read through the old one |
| `Reassembly.HmFragment.CompleteIffNoBitmap` | ios/Pods/BoringSSL-GRPC/ssl/d1_both.cc:393-396 | a null bitmap means that every byte of the body is known, and only that |
| `ReplayWindow.DtlsBitmap.ShouldDiscard` | ios/Pods/BoringSSL-GRPC/ssl/dtls_record.cc:138-150 | a number is discarded exactly when it was accepted in this epoch or is 64 or more behind the largest accepted |
| `ReplayWindow.DtlsBitmap.Record` | ios/Pods/BoringSSL-GRPC/ssl/dtls_record.cc:152-175 | bit i of the word stays set exactly when the number i below the maximum was accepted, whether the window shifts, is cleared by a jump, or stands still |
| `ReplayWindow.DtlsBitmap.Reset` | ios/Pods/BoringSSL-GRPC/ssl/dtls_method.cc:89-90 | a new epoch starts with nothing accepted |
| `DtlsRecord.ParseWire` | ios/Pods/BoringSSL-GRPC/ssl/dtls_record.cc:196-208 | a record laid out by the writing side parses back to its type, version, epoch and number, and body, leaving the rest of the datagram |
| `DtlsRecord.RecordLayout` | ios/Pods/BoringSSL-GRPC/ssl/dtls_record.cc:196-208 | where type, version, epoch, number and length stand in a record, most significant byte first, for every record |
| `DtlsRecord.WireParsed` | ios/Pods/BoringSSL-GRPC/ssl/dtls_record.cc:196-208 | exactly the inputs that begin with a record of at most the largest size are parsed, and what is parsed is that record and everything behind it |
| `DtlsRecord.RecordReader.OpenRecord` | ios/Pods/BoringSSL-GRPC/ssl/dtls_record.cc:177-272 | the branch order, outcomes and bytes consumed of the source; records that do not open leave the window alone; what opens is noted under the number in its own header, and no pair of epoch and number is accepted twice until the epoch counter wraps |
| `DtlsRecord.RecordReader.NextEpoch` | ios/Pods/BoringSSL-GRPC/ssl/dtls_method.cc:89-93 | the epoch advances modulo 2^16 with an empty window, and the no-replay invariant carries over |
| `DtlsReceiver.IncomingRing.GetIncomingMessage` | ios/Pods/BoringSSL-GRPC/ssl/d1_both.cc:261-295 | looks up or creates the message of a fragment; refuses a number outside the window with an internal error and a different type or length with an illegal-parameter error; every occupied slot holds a number of the window at its own residue modulo 7 |
| `DtlsReceiver.IncomingRing.AcceptFragment` | ios/Pods/BoringSSL-GRPC/ssl/d1_both.cc:362-402 | one fragment: excessive sizes, the encrypted-epoch rule, the filter (which lets the number 7 ahead through to the error), the lookup and the copy |
| `DtlsReceiver.RefusedIff` | ios/Pods/BoringSSL-GRPC/ssl/d1_both.cc:261-295 | over every ring, epoch and fragment: exactly which are refused, and with which alert, by their sizes, by the epoch, by a contradiction with what has come of the same message, or by being seven ahead; a refusal changes nothing |
| `DtlsReceiver.OutsideIgnoredIff` | ios/Pods/BoringSSL-GRPC/ssl/d1_both.cc:265-271 | a fragment outside the window that passes the size and epoch checks is ignored if and only if its number is not exactly seven ahead |
| `DtlsReceiver.SevenAheadFails` | ios/Pods/BoringSSL-GRPC/ssl/d1_both.cc:380-385 | a concrete fragment seven ahead that is an internal error |
| `DtlsReceiver.IncomingRing.StoreIn` | ios/Pods/BoringSSL-GRPC/ssl/d1_both.cc:393-402 | bytes for an assembled message are ignored; otherwise the slot's body is overlaid, and no other slot changes |
| `DtlsReceiver.IncomingRing.ProcessRecord` | ios/Pods/BoringSSL-GRPC/ssl/d1_both.cc:350-405 | all fragments of a record in order, up to the first error, keep the ring invariant, also on an error and for any bytes |
| `DtlsReceiver.CompleteStays` | ios/Pods/BoringSSL-GRPC/ssl/d1_both.cc:393-396 | a complete message is never changed by any later record, honest or not |
| `DtlsReceiver.IncomingRing.IsCurrentComplete` | ios/Pods/BoringSSL-GRPC/ssl/d1_both.cc:253-259 | true exactly when every byte of the message to read next is known |
| `DtlsReceiver.IncomingRing.GetMessage` | ios/Pods/BoringSSL-GRPC/ssl/d1_both.cc:408-419 | hands out type, body, and raw bytes that are the rebuilt header followed by the body |
| `DtlsReceiver.IncomingRing.NextMessage` | ios/Pods/BoringSSL-GRPC/ssl/d1_both.cc:426-431 | frees the slot and moves on modulo 2^16; the window invariant holds for the new window, across the wrap too |
| `DtlsReader.Reader.OpenHandshake` | ios/Pods/BoringSSL-GRPC/ssl/d1_both.cc:297-348 | refines record opening followed by the dispatch on the record type |
| `DtlsReader.Reader.HandleRecord` | ios/Pods/BoringSSL-GRPC/ssl/d1_both.cc:306-348 | application data, ChangeCipherSpec, handshake and unknown records, each with its outcome in the plaintext and in the encrypted epoch |
| `DtlsReader.Reader.OpenChangeCipherSpec` | ios/Pods/BoringSSL-GRPC/ssl/d1_both.cc:475-490 | succeeds only on a ChangeCipherSpec that has arrived, now or before, and uses it up |
| `DtlsReader.Reader.GetMessage` | ios/Pods/BoringSSL-GRPC/ssl/d1_both.cc:408-424 | the current message if it is complete; asking again gives the same one |
| `DtlsReader.Reader.NextMessage` | ios/Pods/BoringSSL-GRPC/ssl/d1_both.cc:426-431 | the ring moves on by one message and the current message is no longer marked as seen |
| `DtlsReader.Reader.HasUnprocessed` | ios/Pods/BoringSSL-GRPC/ssl/d1_both.cc:440-457 | true exactly when a ChangeCipherSpec or any message other than the one being read is left over |
| `DtlsReader.HeldBackIff` | ios/Pods/BoringSSL-GRPC/ssl/d1_both.cc:440-457 | new keys are held back by a ChangeCipherSpec not used up and by any message but the one being read, and by nothing else |
| `DtlsReader.Reader.SetReadState` | ios/Pods/BoringSSL-GRPC/ssl/dtls_method.cc:81-95 | the cipher changes exactly when nothing is left over; a refusal changes nothing |
| `DtlsEncrypted.OpensIff` | ios/Pods/BoringSSL-GRPC/ssl/dtls_record.cc:177-272 | any record on the wire, in any state of the reader, plaintext or keyed: it is accepted exactly if its version and epoch are the reader's, its number is new and the cipher opens it; when it is too long, when it is an alert, what is consumed, and that only accepted numbers are noted |
| `DtlsEncrypted.UnexpectedIff` | ios/Pods/BoringSSL-GRPC/ssl/d1_both.cc:373-378 | in epoch 1 a fragment that is not excessive is unexpected exactly when it is not of the message to read next, and then nothing changes |
| `DtlsEncrypted.AcceptNext` | ios/Pods/BoringSSL-GRPC/ssl/d1_both.cc:373-402 | a fragment of the message to read next is stored without an error in either epoch, whatever has come of it before, and no other slot changes |
| `DtlsEncrypted.CurrentIff` | ios/Pods/BoringSSL-GRPC/ssl/d1_both.cc:408-419 | in either epoch the message is handed out exactly when all its bytes have come, with its body and raw bytes |
| `DtlsEncrypted.SealedCarries` | ios/Pods/BoringSSL-GRPC/ssl/dtls_record.cc:294-351 | what the sender seals of a message in its current epoch opens for a reader of that epoch to exactly that fragment |
| `DtlsEncrypted.EncryptedDelivered` | ios/Pods/BoringSSL-GRPC/ssl/d1_both.cc:297-405 | sealed fragments of the message to read next, in any order and any number of times: none makes the receiver fail, and the message is handed out, body and raw bytes, exactly when the records with new numbers have brought all of it |
| `DtlsEncrypted.FinishedHandedOut` | ios/Pods/BoringSSL-GRPC/ssl/d1_both.cc:373-419 | the Finished of a handshake, in one record of epoch 1, is handed out |
| `DtlsEncrypted.ChangeNotedIff` | ios/Pods/BoringSSL-GRPC/ssl/d1_both.cc:321-340 | a ChangeCipherSpec is noted exactly when a record of that type and payload is opened in the plaintext epoch |
| `DtlsEncrypted.OtherRecords` | ios/Pods/BoringSSL-GRPC/ssl/d1_both.cc:321-405 | handshake records are given to the ring; a ChangeCipherSpec under encryption or with another payload, and a record of an unknown type, are errors with their alerts, and nothing is stored |
| `DtlsEncrypted.NothingOpened` | ios/Pods/BoringSSL-GRPC/ssl/dtls_record.cc:177-229 | after the end, of an empty datagram, of what is dropped and of what is too long nothing is stored, each with its outcome |
| `DtlsEncrypted.EarlyApplicationData` | ios/Pods/BoringSSL-GRPC/ssl/d1_both.cc:307-319 | application data during the handshake is an error if it is plain and dropped if it is encrypted, and nothing is stored |
| `DtlsSealing.SealsIff` | ios/Pods/BoringSSL-GRPC/ssl/dtls_record.cc:294-351 | in every state: exactly when a record is sealed, under which epoch and number, with what the cipher of that epoch made of it, and that only that number is used up |
| `DtlsSealing.RecordWriter.SealRecord` | ios/Pods/BoringSSL-GRPC/ssl/dtls_record.cc:294-351 | what is sealed carries the version, epoch and number given to the cipher and fits `max_out`; until a counter wraps no two sealed records have the same pair of epoch and number, over any mix of new records, retransmissions in the previous epoch and key changes |
| `DtlsSealing.RecordWriter.IncrementSequence` | ios/Pods/BoringSSL-GRPC/ssl/dtls_record.cc:331-336 | counting the bytes of the epoch in use is the step of the counter, fails exactly at the last number, uses up a pair never used before, and notes the wrap |
| `DtlsSealing.RecordWriter.SetWriteState` | ios/Pods/BoringSSL-GRPC/ssl/dtls_method.cc:97-107 | the current epoch with its counter and cipher becomes the previous one, the new one starts at zero, and the no-reuse invariant carries over |
| `DtlsSealing.SequenceUpdate` | ios/Pods/BoringSSL-GRPC/ssl/tls_record.cc:154-163 | the loop over the bytes from a place on adds one to the big-endian counter, and fails exactly when all of them were 255; they are then all zero, and the bytes before are as they were |
| `DtlsSealing.NextNumber` | ios/Pods/BoringSSL-GRPC/ssl/dtls_record.cc:331-336 | on the last six of eight bytes this is the writer's next number modulo 2^48, and it fails exactly at the last one |
| `DtlsSealing.SequenceBytes` | ios/Pods/BoringSSL-GRPC/ssl/dtls_record.cc:326-328 | those six bytes are the number as the record header carries it |
| `DtlsSealing.MoveNumber` | ios/Pods/BoringSSL-GRPC/ssl/dtls_method.cc:100-102 | a new epoch keeps the number as the previous one and starts again at zero |
| `DtlsNonces.NumbersDistinct` | ios/Pods/BoringSSL-GRPC/ssl/dtls_record.cc:294-351 | over any sequence of sealings and key changes in which no counter wraps, no two records have the same epoch and number |
| `DtlsNonces.NoncesUsedOnce` | ios/Pods/BoringSSL-GRPC/ssl/ssl_aead_ctx.cc:325-369 | so two records sealed in one epoch never have the same nonce, for every construction from the sequence number |
| `DtlsFlight.PacketFits` | ios/Pods/BoringSSL-GRPC/ssl/d1_both.cc:736-780 | the records of a packet never exceed the room given, over all records of the packet |
| `DtlsFlight.SealNextFills` | ios/Pods/BoringSSL-GRPC/ssl/d1_both.cc:672-733 | nothing goes out exactly when there is no room for a byte of the next entry, and a fragment that does not end its message takes all the room there is |
| `DtlsFlight.PacketIsFull` | ios/Pods/BoringSSL-GRPC/ssl/d1_both.cc:736-780 | a packet ends with the flight, or for want of room for any of the next entry, or with a fragment that takes all the room that the records before it have left |
| `DtlsFlight.SealNextStepsThere` | ios/Pods/BoringSSL-GRPC/ssl/d1_both.cc:644-734 | a sealed fragment starts exactly where the sender stands and ends exactly where it stands afterwards |
| `DtlsFlight.SealNextCarries` | ios/Pods/BoringSSL-GRPC/ssl/d1_both.cc:644-734 | each record is what the cipher of the message's own epoch, current or previous, made of the fragment's header and bytes |
| `DtlsFlight.FillCarries` | ios/Pods/BoringSSL-GRPC/ssl/d1_both.cc:736-780 | the same for all records of a packet |
| `DtlsFlight.PacketWalks` | ios/Pods/BoringSSL-GRPC/ssl/d1_both.cc:736-780 | a packet carries the flight from where the sender stood to where it stands, with no gap and no overlap |
| `DtlsFlight.WalkCarries` | ios/Pods/BoringSSL-GRPC/ssl/d1_both.cc:672-733 | along a run of fragments, the bytes carried of each message are the slice of its body between the two places |
| `DtlsFlight.FailureMovesIff` | ios/Pods/BoringSSL-GRPC/ssl/d1_both.cc:736-804 | a packet that fails to seal leaves the position where it was if and only if the first entry was not sealed whole |
| `DtlsFlight.FailureLosesMessage` | ios/Pods/BoringSSL-GRPC/ssl/d1_both.cc:736-780 | a concrete flight in which such a failure moves the position past a message that was never sent |
| `DtlsFlight.FillNumbers` | ios/Pods/BoringSSL-GRPC/ssl/dtls_record.cc:294-351 | the records of a packet take the numbers of the counter in ascending order, none twice |
| `DtlsFlight.FlightTiled` | ios/Pods/BoringSSL-GRPC/ssl/d1_both.cc:782-827 | a run from the start to the end of the flight carries every byte of every message exactly once and in order, and visits empty messages and ChangeCipherSpecs too |
| `DtlsSender.FlightWriter.AddOutgoing` | ios/Pods/BoringSSL-GRPC/ssl/d1_both.cc:553-594 | adds an entry under the current epoch, as the first of a new flight if the last one was flushed; refuses an eighth, and data longer than 32 bits of length say; what was already sent stays in step |
| `DtlsSender.FlightWriter.ClearOutgoing` | ios/Pods/BoringSSL-GRPC/ssl/d1_both.cc:500-509 | the flight and all progress on it are gone, the message counter and MTU are not |
| `DtlsSender.FlightWriter.SealNextMessage` | ios/Pods/BoringSSL-GRPC/ssl/d1_both.cc:641-734 | refines the fragment plan: epoch choice, ChangeCipherSpec, reparsing, how much fits, and the three outcomes |
| `DtlsSender.FlightWriter.SealNextPacket` | ios/Pods/BoringSSL-GRPC/ssl/d1_both.cc:736-780 | the filling loop yields the datagram of the planned packet, or fails when nothing could be placed |
| `DtlsSender.FlightWriter.UpdateMtu` | ios/Pods/BoringSSL-GRPC/ssl/d1_both.cc:613-632 | an MTU below the minimum, and only that, is replaced, by the one queried if it is large enough and by the default if not, unless querying is switched off |
| `DtlsSender.FlightWriter.TakePacket` | ios/Pods/BoringSSL-GRPC/ssl/d1_both.cc:801-804 | a sealed packet is within the MTU and moves the position strictly ahead; a failed one sends nothing and never moves it back, so that afterwards the sender is in step with what was sent if and only if it was before and the position has not moved |
| `DtlsSender.FlightWriter.SendPacket` | ios/Pods/BoringSSL-GRPC/ssl/d1_both.cc:797-814 | a refused write restores the position and hands on the transport's answer, so that what the transport has accepted stops exactly where the sender stands if and only if it did so before; a transport that is willing takes exactly the planned packet, and nothing is sent exactly when the plan has none |
| `DtlsSender.FlightWriter.SendFlight` | ios/Pods/BoringSSL-GRPC/ssl/d1_both.cc:782-827 | after shutdown nothing is sent and nothing changes; otherwise, over a willing transport, the call succeeds with the packets of the plan if and only if the plan reaches the end of the flight; over any pattern of refusals, resumed calls and MTU changes the fragments accepted tile the flight from its start if and only if the sender was in step when the call began |
| `DtlsSender.FlightWriter.FlushFlight` | ios/Pods/BoringSSL-GRPC/ssl/d1_both.cc:829-834 | the same, and the flight counts as complete from then on |
| `DtlsSender.FlightWriter.RetransmitFlight` | ios/Pods/BoringSSL-GRPC/ssl/d1_both.cc:836-845 | a successful retransmission by itself tiles the whole flight again, with whatever MTU is current |
| `DtlsConnection.Connection.BuildMessage` | ios/Pods/BoringSSL-GRPC/ssl/d1_both.cc:511-537 | the length field, first zero and then copied from the fragment length, makes the message a single whole fragment with the next number |
| `DtlsConnection.WholeMessageWellFormed` | ios/Pods/BoringSSL-GRPC/ssl/d1_both.cc:511-537 | such a message is one that the flight can carry, with that body, type and number |
| `DtlsConnection.Connection.AddMessage` | ios/Pods/BoringSSL-GRPC/ssl/d1_both.cc:596-598 | the handshake messages of the flight stay numbered consecutively modulo 2^16 |
| `DtlsConnection.Connection.AddChangeCipherSpec` | ios/Pods/BoringSSL-GRPC/ssl/d1_both.cc:600-602 | a ChangeCipherSpec takes no number |
| `DtlsConnection.LeadingMessagesCountUp` | ios/Pods/BoringSSL-GRPC/ssl/d1_both.cc:511-598 | in a flight so built the leading messages count up from one base, for every place where the counter may wrap |
| `DtlsConnection.BuiltFlightIsPlainFlight` | ios/Pods/BoringSSL-GRPC/ssl/d1_both.cc:511-598 | a flight so built meets the hypotheses of the network theorems |
| `DtlsConnection.Connection.NextMessage` | ios/Pods/BoringSSL-GRPC/ssl/d1_both.cc:426-438 | taking a message marks a flushed flight as answered, and only a flushed one |
| `DtlsConnection.Connection.OnHandshakeComplete` | ios/Pods/BoringSSL-GRPC/ssl/dtls_method.cc:71-79 | an answered flight is dropped, an unanswered one kept for retransmission |
| `DtlsNetwork.WindowCases` | ios/Pods/BoringSSL-GRPC/ssl/d1_both.cc:380-385 | a message of the flight is in the window at its distance from the one to read, or is filtered; the number exactly 7 ahead does not occur |
| `DtlsNetwork.AcceptHonest` | ios/Pods/BoringSSL-GRPC/ssl/d1_both.cc:362-402 | an honest fragment, in any order and any number of times, is never an error, and afterwards the ring holds exactly what has been counted |
| `DtlsNetwork.DiscardsOldOnly` | ios/Pods/BoringSSL-GRPC/ssl/dtls_record.cc:139-175 | over a whole run the window discards a number if and only if it was accepted before or is 64 or more behind one that was |
| `DtlsNetwork.OpenGenuine` | ios/Pods/BoringSSL-GRPC/ssl/d1_both.cc:297-406 | what the reader does with the next record of a sender's datagram: dropped with the rest of the datagram, dropped alone, a failure or stored, decided by its size and by whether its number is new |
| `DtlsNetwork.CurrentIsExpected` | ios/Pods/BoringSSL-GRPC/ssl/d1_both.cc:408-424 | the message handed out is the next of the flight, its raw bytes equal to the sender's serialization, and it is there exactly when all its bytes have been counted |
| `DtlsNetwork.NextMatches` | ios/Pods/BoringSSL-GRPC/ssl/d1_both.cc:426-438 | moving on keeps ring and flight in step, also when the number wraps |
| `DtlsEndToEnd.RunInv` | ios/Pods/BoringSSL-GRPC/ssl/d1_both.cc:297-438 | the joint invariant of the sender with its counters, the network and the receiver with its window holds in every state of every run |
| `DtlsEndToEnd.DeliveredExactly` | ios/Pods/BoringSSL-GRPC/ssl/d1_both.cc:408-438 | in every run, over loss, duplication, reordering, resending and MTU changes, what is handed out is an in-order prefix of the flight, type, body and raw bytes |
| `DtlsEndToEnd.NumberDeterminesRecord` | ios/Pods/BoringSSL-GRPC/ssl/dtls_record.cc:294-351 | in every run in which no counter wrapped, two records on the wire with the same epoch and number are the same record |
| `DtlsEndToEnd.FailsIffTooLong` | ios/Pods/BoringSSL-GRPC/ssl/dtls_record.cc:252-257 | in every run, for any MTUs, the receiver fails exactly on a plaintext record that is new and whose body is above 16384 but not above 16704 bytes |
| `DtlsEndToEnd.NoHonestFailure` | ios/Pods/BoringSSL-GRPC/ssl/d1_both.cc:297-406 | so it never fails if all MTUs used are at most 16397, or all plaintext bodies at most 16372 bytes |
| `DtlsEndToEnd.AvailableWhenArrived` | ios/Pods/BoringSSL-GRPC/ssl/d1_both.cc:253-259 | in every run, the next message is available if and only if each of its bytes was in some record that was opened, was not 64 or more behind when it first came, and did not come across the wrap |
| `DtlsEndToEnd.CountedIff` | ios/Pods/BoringSSL-GRPC/ssl/dtls_record.cc:139-175 | for every record of a fragment that is opened, of a message not yet read: afterwards its bytes are held if and only if they were before, or the record's number was neither late nor across the wrap |
| `DtlsEndToEnd.NothingAcross` | ios/Pods/BoringSSL-GRPC/ssl/d1_both.cc:380-385 | in a flight whose numbers do not wrap nothing comes across the wrap |
| `DtlsEndToEnd.DroppedIffWrapBetween` | ios/Pods/BoringSSL-GRPC/ssl/d1_both.cc:380-385 | a first fragment of an unread message is dropped without trace exactly when the wrap of the 16-bit number lies between it and the message to read |
| `DtlsEndToEnd.WrapLosesFragment` | ios/Pods/BoringSSL-GRPC/ssl/d1_both.cc:380-385 | such a flight exists: numbers 65535 and 0, the second arriving first |
| `DtlsEndToEnd.OversizedIff` | ios/Pods/BoringSSL-GRPC/ssl/d1_both.cc:693-716 | in the plaintext epoch a fragment exceeds the plaintext limit exactly when both the rest of the body and the MTU are that large |
| `DtlsEndToEnd.UnreadableDropsRest` | ios/Pods/BoringSSL-GRPC/ssl/dtls_record.cc:193-204 | in every run, a record with a body above 16704 bytes takes the rest of its datagram with it, and nothing else changes |
| `DtlsEndToEnd.LongRecordsLost` | ios/Pods/BoringSSL-GRPC/ssl/dtls_record.cc:252-257 | such records exist: a message of 16373 bytes in one record is a failure, one of 16693 is dropped |
| `DtlsLateRecord.LateRecordLost` | ios/Pods/BoringSSL-GRPC/ssl/dtls_record.cc:139-150 | a run ends there: half of a message is on the network under number 0 and half under 64; the second comes first, and opening the first, which was never seen, leaves its bytes missing |
| `DtlsProgress.RetransmissionDelivers` | ios/Pods/BoringSSL-GRPC/ssl/d1_both.cc:782-845 | from every reachable state in which no counter wrapped, one retransmission that is passed on without losses, with messages taken as they become available, delivers the rest of the flight, in packets of any sizes and across the wrap of the message number |
| `DtlsProgress.PlaintextSendable` | ios/Pods/BoringSSL-GRPC/ssl/d1_both.cc:782-827 | a plaintext flight can be sent to its end in packets of any one size from 26 bytes up, while numbers last |
| `DtlsProgress.PlaintextPlanEnds` | ios/Pods/BoringSSL-GRPC/ssl/d1_both.cc:782-827 | so the plan of a plaintext flight ends, from 26 bytes of MTU up while numbers last, and over a willing transport the whole flight is sent |
| `DtlsProgress.PlaintextFlightArrives` | ios/Pods/BoringSSL-GRPC/ssl/d1_both.cc:297-438 | so from every such state a plaintext flight can still be delivered whole |
| `PbWire.VarintAtMostTen` | ios/Pods/nanopb/pb_encode.c:574-594 | every 64-bit value fits the ten-byte buffer |
| `PbWire.VarintRoundTrip` | ios/Pods/nanopb/pb_decode.c:250-271 | every 64-bit value survives encoding and decoding, whatever follows it |
| `PbWire.Varint32Exact` | ios/Pods/nanopb/pb_decode.c:182-248 | of the values below 2^63 the 32-bit decoder accepts exactly those below 2^32, and returns them |
| `PbWire.Varint32Negative` | ios/Pods/nanopb/pb_decode.c:182-248 | a negative 32-bit value, sign-extended by the encoder, comes back as its low 32 bits |
| `PbVarintExact.DecodeVarintIff` | ios/Pods/nanopb/pb_decode.c:250-271 | on every input: a varint is read exactly if it ends within ten bytes, and its value is the base-128 number of which the low 64 bits are kept |
| `PbVarintExact.DecodeVarint32Iff` | ios/Pods/nanopb/pb_decode.c:182-248 | on every input that ends within 37 bytes: up to five bytes are read exactly if their value fits 32 bits; of more, the first five give the value less any bits above 32, and the others must be empty or a sign extension |
| `PbVarintExact.HighBitsLost` | ios/Pods/nanopb/pb_decode.c:213-238 | a concrete input of value 7 times 2 to the 32 that is read as 0 |
| `PbVarintExact.CounterWraps` | ios/Pods/nanopb/pb_decode.c:211-234 | a concrete input of 38 bytes behind which the eight-bit position counter has wrapped: a 1 is read as 8 |
| `PbWire.ZigZagRoundTrip` | ios/Pods/nanopb/pb_encode.c:596-605 | zigzag interleaves the signed values and loses none |
| `PbWire.UnZigZagRoundTrip` | ios/Pods/nanopb/pb_decode.c:1240-1252 | every 64-bit code is the zigzag form of the value it decodes to |
| `PbWire.LittleEndianRoundTrip` | ios/Pods/nanopb/pb_decode.c:1254-1286 | a fixed-width word survives byte by byte |
| `PbWire.TagRoundTrip` | ios/Pods/nanopb/pb_decode.c:293-314 | field number and wire type survive for all legal tags |
| `PbWire.TagEnds` | ios/Pods/nanopb/pb_decode.c:293-314 | a zero byte in place of a tag ends the message |
| `PbWire.SplitRoundTrip` | ios/Pods/nanopb/pb_decode.c:367-395 | a length-prefixed window is exactly the delimited bytes, and closing it continues right behind them |
| `PbWire.SkipLocal` | ios/Pods/nanopb/pb_decode.c:316-326 | skipping a value looks at no byte beyond those it consumes |
| `PbVarintExact.SkipIff` | ios/Pods/nanopb/pb_decode.c:273-326 | on every input and for every wire type: exactly when a value can be skipped, and how many bytes that takes |
| `PbSchema.FindDistinct` | ios/Pods/nanopb/pb_common.c:78-95 | with distinct tags, looking a tag up finds the one entry that has it |
| `PbSchema.StorageDisjoint` | ios/Pods/nanopb/pb_common.c:20-76 | two entries share storage exactly when they belong to one union; otherwise the earlier one ends before the later begins |
| `PbIter.FieldIter.Begin` | ios/Pods/nanopb/pb_common.c:8-18 | the cache starts as the prefix sums of entry 0 |
| `PbIter.FieldIter.Next` | ios/Pods/nanopb/pb_common.c:20-76 | offsets and the index among required fields remain the prefix sums of the table, also on wrapping to the start and within unions |
| `PbIter.FieldIter.Find` | ios/Pods/nanopb/pb_common.c:78-95 | from any position, and with a size pointer borrowed for a fixed-count array, the search agrees with a table lookup; in an empty table the terminator answers to tag 0 |
| `PbStream.OStream.FromBuffer` | ios/Pods/nanopb/pb_encode.c:84-99 | a stream that may write exactly the first `size` bytes of the buffer |
| `PbStream.OStream.Write` | ios/Pods/nanopb/pb_encode.c:72-124 | writes all of the data or nothing, exactly when it fits; never touches memory behind its limit |
| `PbStream.FillVarint` | ios/Pods/nanopb/pb_encode.c:574-594 | the buffer loop, which sets every top bit and clears the last, yields the varint |
| `PbStream.OStream.EncodeVarint` | ios/Pods/nanopb/pb_encode.c:574-594 | succeeds exactly when the varint fits, and writes it |
| `PbStream.OStream.EncodeSvarint` | ios/Pods/nanopb/pb_encode.c:596-605 | the same for the zigzag form |
| `PbStream.OStream.EncodeFixed` | ios/Pods/nanopb/pb_encode.c:607-633 | the same for a little-endian word |
| `PbStream.OStream.EncodeTag` | ios/Pods/nanopb/pb_encode.c:635-639 | the same for a tag |
| `PbStream.OStream.EncodeString` | ios/Pods/nanopb/pb_encode.c:674-680 | the same for a length and that many bytes |
| `PbStream.IStream.Read` | ios/Pods/nanopb/pb_decode.c:85-134 | yields the next `count` bytes, or fails without a partial result |
| `PbStream.IStream.ReadByte` | ios/Pods/nanopb/pb_decode.c:136-152 | yields the next byte; fails exactly at the end |
| `PbStream.IStream.DecodeVarint32Eof` | ios/Pods/nanopb/pb_decode.c:182-242 | refines the 32-bit decoder with its eight-bit position counter, and tells an empty stream from a truncated one |
| `PbStream.IStream.DecodeVarint` | ios/Pods/nanopb/pb_decode.c:250-271 | refines the 64-bit decoder |
| `PbStream.IStream.SkipVarint` | ios/Pods/nanopb/pb_decode.c:273-282 | moves behind the varint, or fails at the end of the stream |
| `PbStream.IStream.SkipString` | ios/Pods/nanopb/pb_decode.c:284-291 | moves behind a delimited value |
| `PbStream.IStream.DecodeTag` | ios/Pods/nanopb/pb_decode.c:293-314 | a tag, a clean end, or a failure, told apart |
| `PbStream.IStream.SkipField` | ios/Pods/nanopb/pb_decode.c:316-326 | skips a value of each wire type and refuses groups |
| `PbStream.IStream.MakeSubstream` | ios/Pods/nanopb/pb_decode.c:367-380 | a window on the next bytes of the parent; parent and window together end where the parent ended before |
| `PbStream.IStream.CloseSubstream` | ios/Pods/nanopb/pb_decode.c:382-395 | the parent continues behind the window, whether or not it was read to its end |
| `PbEncoder.EncVarint` | ios/Pods/nanopb/pb_encode.c:734-755 | writes the sign-extended value of an integer cell of each size |
| `PbEncoder.EncUvarint` | ios/Pods/nanopb/pb_encode.c:757-773 | writes the value of an unsigned cell of each size |
| `PbEncoder.EncSvarint` | ios/Pods/nanopb/pb_encode.c:775-791 | writes the zigzag form of a cell of each size |
| `PbEncoder.EncBytes` | ios/Pods/nanopb/pb_encode.c:810-829 | refuses a size larger than the cell, and else writes that many bytes |
| `PbEncoder.EncString` | ios/Pods/nanopb/pb_encode.c:831-855 | writes the characters before the terminator, or up to the end of the cell |
| `PbEncoder.IsZero` | ios/Pods/nanopb/pb_encode.c:283-302 | the byte-wise comparison finds zero exactly when the loaded number is zero |
| `PbEncoder.CheckProto3Default` | ios/Pods/nanopb/pb_encode.c:215-303 | decides, field by field and through nested messages, whether a field is left out of the wire form |
| `PbEncoder.PackedSize` | ios/Pods/nanopb/pb_encode.c:146-153 | the known size of a packed array of fixed-width entries is the size of what is written |
| `PbEncoder.PackedArraySize` | ios/Pods/nanopb/pb_encode.c:145-165 | the size of a packed array, known or counted, equals the bytes that writing it produces |
| `PbEncoder.EncPackedArray` | ios/Pods/nanopb/pb_encode.c:145-181 | length and entries; when only counting, the count alone, with the same result |
| `PbEncoder.EncArray` | ios/Pods/nanopb/pb_encode.c:126-211 | the count check, the packed form where the type allows it, and one tag an entry otherwise |
| `PbEncoder.EncField` | ios/Pods/nanopb/pb_encode.c:307-392 | required, optional, proto3, repeated and union fields; an absent field writes nothing |
| `PbEncoder.EncMessage` | ios/Pods/nanopb/pb_encode.c:494-516 | succeeds exactly when the message has a wire form and it fits; then it is written whole, and memory beyond the limit is untouched |
| `PbEncoder.EncSubmessage` | ios/Pods/nanopb/pb_encode.c:682-730 | the counting pass and the writing pass agree at every nesting depth, so the size prefix is right and the check for a changed size never fires |
| `PbEncoder.EncBody` | ios/Pods/nanopb/pb_encode.c:705-729 | the limited writing pass fills its substream exactly |
| `PbEncoder.GetEncodedSize` | ios/Pods/nanopb/pb_encode.c:533-542 | sizing succeeds exactly when the message has a wire form, and gives its length |
| `PbEncoder.EncDelimited` | ios/Pods/nanopb/pb_encode.c:518-521 | writes the length-prefixed form |
| `PbEncoder.EncNullTerminated` | ios/Pods/nanopb/pb_encode.c:523-531 | writes the message and a zero byte |
| `PbEncoder.EncodeToBuffer` | ios/Pods/nanopb/pb_encode.c:84-124 | into a buffer: success exactly when the wire form fits, then exactly those bytes, and nothing written past the limit in any case |
| `PbDecoder.DecInt` | ios/Pods/nanopb/pb_decode.c:1289-1372 | refines the integer decoders: each cell size, truncation for old encoders, and the range check that rejects what the cell cannot hold |
| `PbDecoder.DecFixed` | ios/Pods/nanopb/pb_decode.c:1254-1286 | refines the fixed-width decoders |
| `PbDecoder.DecBytes` | ios/Pods/nanopb/pb_decode.c:1391-1426 | refines the bytes decoder with its size check |
| `PbDecoder.DecString` | ios/Pods/nanopb/pb_decode.c:1428-1461 | refines the string decoder, which leaves room for the terminator |
| `PbDecoder.DecFixedLengthBytes` | ios/Pods/nanopb/pb_decode.c:1487-1508 | accepts an empty value as zeros and otherwise only the exact length |
| `PbDecoder.DecSubmessage` | ios/Pods/nanopb/pb_decode.c:1463-1485 | decodes in a window of its own, from defaults for array entries and union members and onto the previous value otherwise |
| `PbDecoder.DecPackedArray` | ios/Pods/nanopb/pb_decode.c:420-448 | all entries from one window, which must be used up; a full array is an error |
| `PbDecoder.DecStaticField` | ios/Pods/nanopb/pb_decode.c:401-475 | refines the decoding of one entry of each kind, with its flag, count, selector or fixed counter |
| `PbDecoder.SetBitSeen` | ios/Pods/nanopb/pb_decode.c:988-993 | setting a bit in the word array adds one index to the set of fields seen |
| `PbDecoder.EnterField` | ios/Pods/nanopb/pb_decode.c:964-993 | refines the bookkeeping before an entry: the switch to another fixed-count array, which must be full, and the seen bit of the first 64 required fields |
| `PbDecoder.DecOne` | ios/Pods/nanopb/pb_decode.c:933-996 | refines one round of the loop: find with the iterator or skip |
| `PbDecoder.CountRequired` | ios/Pods/nanopb/pb_decode.c:1008-1022 | running the iterator to its end counts the required fields, from any position |
| `PbDecoder.CheckRequired` | ios/Pods/nanopb/pb_decode.c:1024-1045 | the word-wise check succeeds exactly when every index below the count and below 64 is in the set |
| `PbDecoder.RequiredByIndex` | ios/Pods/nanopb/pb_decode.c:1008-1045 | those indexes are exactly the first 64 required fields of the table |
| `PbDecoder.SetToDefaults` | ios/Pods/nanopb/pb_decode.c:812-895 | every flag, count and selector is cleared, and every single cell holds its default, nested messages included |
| `PbDecoder.DecNoinit` | ios/Pods/nanopb/pb_decode.c:901-1049 | the whole loop with its cache, counters and bitset refines the table-driven reader, success and failure alike |
| `PbDecoder.DecMessage` | ios/Pods/nanopb/pb_decode.c:1051-1063 | the same onto defaults |
| `PbDecoder.DecDelimited` | ios/Pods/nanopb/pb_decode.c:1065-1093 | the same in a length-prefixed window |
| `PbDecoder.ThroughMemory` | ios/Pods/nanopb/pb_decode.c:1051-1063 | encoding into a buffer and decoding from it, both as they run, restores the canonical form of the struct |
| `PbUnknown.UnknownIgnored` | ios/Pods/nanopb/pb_decode.c:933-962 | an unknown field inserted at any field boundary leaves the loop's outcome the same: same struct, same bytes left, same failures |
| `PbUnknown.MessageIgnoresUnknown` | ios/Pods/nanopb/pb_decode.c:901-1049 | and so the outcome of the whole message with its final checks |
| `PbUnknown.SeenIsMet` | ios/Pods/nanopb/pb_decode.c:988-993 | the bits set are those of the tracked required fields whose tags were met, and no others |
| `PbUnknown.RequiredExact` | ios/Pods/nanopb/pb_decode.c:988-1046 | the final check succeeds exactly when each of the first 64 required fields had its tag in the input, for any table and field order |
| `PbRequired.AcceptedIff` | ios/Pods/nanopb/pb_decode.c:988-1046 | a message is accepted if and only if the loop gets through it, each of the first 64 required fields has its tag in it, and every run of entries of an array without a count is whole; what is accepted is what the loop has left |
| `PbRequired.LeftOnlyWhole` | ios/Pods/nanopb/pb_decode.c:958-977 | the loop leaves an array without a count for another only when all its entries have been decoded |
| `PbRequired.MissingRequired` | ios/Pods/nanopb/pb_decode.c:1024-1045 | a table with one required field does not accept the empty input |
| `PbRequired.HalfArray` | ios/Pods/nanopb/pb_decode.c:958-1046 | an array of two entries without a count is not accepted with one |
| `PbForward.ValueIsUnknown` | ios/Pods/nanopb/pb_encode.c:641-672 | what is written for one value of any type is, to every table without its tag, an unknown field that is skipped whole |
| `PbForward.ForwardCompatible` | ios/Pods/nanopb/pb_encode.c:641-672 | for two tables with no tag in common, decoding anything behind an encoded message of the one is decoding it without: wire types, lengths and skipping fit each other for every field type, packed and nested ones too |
| `PbExamples.Integer` | ios/Pods/nanopb/pb_encode.c:574-639 | the worked example of the encoding guide for an integer field, byte by byte |
| `PbExamples.Interleaved` | ios/Pods/nanopb/pb_encode.c:596-605 | the worked examples for zigzag numbers, positive and negative |
| `PbExamples.Negative` | ios/Pods/nanopb/pb_encode.c:549-594 | minus one as a varint of ten bytes |
| `PbExamples.Words` | ios/Pods/nanopb/pb_encode.c:607-632 | a fixed32 and a fixed64 field, byte by byte, each behind its tag |
| `PbExamples.Text` | ios/Pods/nanopb/pb_encode.c:674-680 | the worked example for a string |
| `PbExamples.Nested` | ios/Pods/nanopb/pb_encode.c:682-730 | the worked example for an embedded message |
| `PbExamples.Packed` | ios/Pods/nanopb/pb_encode.c:126-211 | the worked example for a packed array |
| `PbDecoded.MessageSound` | ios/Pods/nanopb/pb_decode.c:901-1052 | whatever the bytes, and onto any struct in which everything fits: after a message that is accepted every cell, nested ones included, holds what fits it, no array is longer than its size, and every union selects one of its members or none |
| `PbDecoded.AcceptedComesBack` | ios/Pods/nanopb/pb_decode.c:901-1052 | whatever the bytes: what is accepted can be encoded, and decoding that gives the same struct back, for tables whose arrays have counts and whose proto3 fields have no declared defaults |
| `PbScalars.UnsignedAcceptedIff` | ios/Pods/nanopb/pb_decode.c:1326-1348 | on every input: an unsigned cell of any size takes exactly the numbers in its range, unchanged |
| `PbScalars.SignedAcceptedIff` | ios/Pods/nanopb/pb_decode.c:1289-1324 | on every input: a signed cell takes exactly the numbers in its range, of which one of less than eight bytes sees the low 32 bits of the varint |
| `PbScalars.ZigZagAcceptedIff` | ios/Pods/nanopb/pb_decode.c:1350-1372 | on every input: a zigzag cell takes exactly the numbers in its range |
| `PbScalars.BytesAcceptedIff` | ios/Pods/nanopb/pb_decode.c:1391-1426 | on every input: bytes are taken exactly if all of them are there and fit behind their size, and unchanged |
| `PbScalars.StringAcceptedIff` | ios/Pods/nanopb/pb_decode.c:1428-1461 | on every input: a string is taken exactly if all of it is there and leaves room for the terminator |
| `PbScalars.FixedBytesAcceptedIff` | ios/Pods/nanopb/pb_decode.c:1487-1508 | on every input: bytes of a fixed length are taken exactly if they have it or are none, which stands for zeros |
| `PbScalars.EntriesAcceptedIff` | ios/Pods/nanopb/pb_decode.c:401-475 | on every input and in every state: entries of an array, packed or not, are taken exactly if they can be read and there is room for them behind those that have come |
| `PbScalars.ArrayEncodesIff` | ios/Pods/nanopb/pb_encode.c:126-211 | an array is refused exactly if it has more entries than there is room for, or one of them is refused |
| `PbScalars.ScalarEncodesIff` | ios/Pods/nanopb/pb_encode.c:734-868 | of single values exactly integers of a size that there is not and bytes that do not fit are refused |
| `PbScalars.ZeroIsNotWritten` | ios/Pods/nanopb/pb_encode.c:215-303 | of the proto3 fields that are no messages exactly those that are zero are not written, bytes of a fixed length aside |
| `PbMerge.FieldsConcatenate` | ios/Pods/nanopb/pb_decode.c:901-1022 | the loop over two inputs behind each other is the loop over the second from where the first has left it, unless a zero tag has stopped it |
| `PbMerge.MessagesMerge` | ios/Pods/nanopb/pb_decode.c:901-1052 | decoding two messages behind each other is decoding the second into the struct that the first has left, for tables without arrays without a count |
| `PbMerge.ArrayTwice` | ios/Pods/nanopb/pb_decode.c:401-475 | a concrete array without a count that is accepted, and accepted again on top, but not sent twice in one message |
| `PbMerge.LastWins` | ios/Pods/nanopb/pb_decode.c:401-475 | of a scalar field that occurs twice the last occurrence counts, in whatever state it is read |
| `PbRoundTrip.ScalarRoundTrip` | ios/Pods/nanopb/pb_decode.c:1289-1508 | a scalar of every type and cell size survives, whatever follows it |
| `PbRoundTrip.PackedRoundTrip` | ios/Pods/nanopb/pb_decode.c:420-448 | a packed array survives entry by entry and uses up its window |
| `PbRoundTrip.ItemsStep` | ios/Pods/nanopb/pb_decode.c:449-459 | tagged entries are appended one by one until the array is as sent |
| `PbRoundTrip.ArrayStep` | ios/Pods/nanopb/pb_encode.c:126-211 | a whole array, packed or not, counted or fixed-count, is read back in one go of the loop |
| `PbRoundTrip.ValueRoundTrip` | ios/Pods/nanopb/pb_decode.c:1463-1485 | a value of any type, nested messages included, is read back in canonical form |
| `PbRoundTrip.FieldStep` | ios/Pods/nanopb/pb_encode.c:307-392 | what one table entry writes is read back as that entry, and an absent one as nothing |
| `PbRoundTrip.FieldsRoundTrip` | ios/Pods/nanopb/pb_encode.c:494-516 | by induction over the table, all entries from any one on are read back |
| `PbRoundTrip.MessageRoundTrip` | ios/Pods/nanopb/pb_decode.c:1051-1063 | decoding what was encoded succeeds, passes the required-field and array checks, uses every byte, and gives the canonical form, for every table and every storable struct |
| `PbRestore.CanonSettled` | ios/Pods/nanopb/pb_decode.c:1051-1063 | entry by entry, the decoded struct holds the encoded value where it was present and the default where it was absent; a union holds its selected member |
| `PbRestore.RestoredIffKept` | ios/Pods/nanopb/pb_decode.c:1051-1063 | the round trip restores the struct exactly when no unwritten proto3 field differs from its declared default and every union selector names a member or none |
| `PbRestore.SelectorRestored` | ios/Pods/nanopb/pb_decode.c:461-470 | a union's selector survives exactly when it names a member or none |
| `PbRestore.SelectorLost` | ios/Pods/nanopb/pb_decode.c:461-470 | a concrete union with selector 9 and one member of tag 1: nothing is written and the selector comes back as 0 |
| `PbRestore.PlainKept` | ios/Pods/nanopb/pb_encode.c:215-303 | without declared defaults on proto3 fields that condition holds for every struct with valid selectors |
| `PbRestore.RoundTrip` | ios/Pods/nanopb/pb_decode.c:1051-1063 | for such tables decoding restores every present field, count and selector, and leaves absent fields at their defaults |
| `PbRestore.SameEncodes` | ios/Pods/nanopb/pb_encode.c:494-516 | structs that differ only in cells declared absent have the same wire form |
| `PbRestore.ReencodesSame` | ios/Pods/nanopb/pb_encode.c:494-516 | encoding what was decoded gives the same bytes again |
| `PbRestore.DeclaredDefaultLost` | ios/Pods/nanopb/pb_encode.c:215-303 | a counterexample: a proto3 number holding zero, with the declared default 7, comes back as 7 |
| `PbFraming.DelimitedRoundTrip` | ios/Pods/nanopb/pb_decode.c:1065-1093 | one framed message is read back and exactly its own bytes are consumed |
| `PbFraming.StreamRoundTrip` | ios/Pods/nanopb/pb_decode.c:1065-1093 | a concatenation of framed messages is read back as the same list, in order, up to what follows |
| `PbFraming.NullTerminatedRoundTrip` | ios/Pods/nanopb/pb_decode.c:1095-1099 | a zero byte ends a message, and decoding stops right behind it |
| `Refcount.LockedCount.Increment` | ios/Pods/BoringSSL-GRPC/crypto/refcount_lock.c:29-35 | one more, unless saturated |
| `Refcount.LockedCount.DecrementAndTestZero` | ios/Pods/BoringSSL-GRPC/crypto/refcount_lock.c:37-51 | one less, unless saturated, and whether that is zero; aborts on zero |
| `Refcount.StepRefines` | ios/Pods/BoringSSL-GRPC/crypto/refcount_c11.c:37-65 | every step of every interleaving, with loads, failed and spuriously failed exchanges, is either invisible or one atomic step of the locked version |
| `Refcount.CountIsLive` | ios/Pods/BoringSSL-GRPC/crypto/refcount_c11.c:37-65 | in every reachable state that has not saturated the count is the number of live references, and nobody aborts |
| `Refcount.ZeroReportedOnce` | ios/Pods/BoringSSL-GRPC/crypto/refcount_c11.c:49-65 | once all references are released and the count never saturated, exactly one decrement has reported zero |
| `Refcount.ZeroOnlyAtTheEnd` | ios/Pods/BoringSSL-GRPC/crypto/refcount_c11.c:49-65 | zero has been reported exactly when no reference is left and the count has not saturated, and never twice |
| `Refcount.SaturationSticks` | ios/Pods/BoringSSL-GRPC/crypto/refcount_c11.c:37-65 | a saturated count stays so, and no decrement reports zero any more |
| `CipherChoice.ChooseCipher` | ios/Pods/BoringSSL-GRPC/ssl/handshake_server.cc:357-424 | the result minimizes the pair of server group and client position among the usable shared ciphers whose group is closed, and is null only if there are none |
| `CipherChoice.UsableIff` | ios/Pods/BoringSSL-GRPC/ssl/handshake_server.cc:323-355 | for every certificate, shared group and PSK callback, and every cipher of the table: it is usable exactly if its versions allow it, the server can do its key exchange, and the server's key or PSK can do its authentication |
| `CipherChoice.GroupEnds` | ios/Pods/BoringSSL-GRPC/ssl/handshake_server.cc:402-421 | the best of a group is the best of all once its group ends |
| `CipherChoice.Negotiate` | ios/Pods/BoringSSL-GRPC/ssl/handshake_server.cc:357-424 | with the last flag 0, null exactly when no usable cipher is shared; else the best by group and client position under server preference, or by client position alone |
| `CipherChoice.SharedAreCandidates` | ios/Pods/BoringSSL-GRPC/ssl/internal.h:1860-1889 | when the last entry ends its group every shared usable cipher takes part |
| `CipherChoice.FirstInList` | ios/Pods/BoringSSL-GRPC/ssl/handshake_server.cc:377-385 | without groups the choice is the first shared usable cipher of the preferred list |
| `AppData.AppWriter.Write` | ios/Pods/BoringSSL-GRPC/ssl/s3_pkt.cc:129-200 | over any calls and stalls, the plaintexts that the layers below have sealed are together what was reported, plus the completed bytes of an unfinished write, plus at most one record; nothing is skipped or sealed twice; over willing layers a write succeeds if and only if it is not closed, there is something to write and it goes with the record in the buffer; how much is then reported; new records are full but for the last; a retry shorter than the completed bytes fails and forgets them, one shorter than the pending record fails and changes nothing |
| `AppData.AppWriter.WriteRest` | ios/Pods/BoringSSL-GRPC/ssl/s3_pkt.cc:163-199 | the loop over records: it ends with all bytes done, or with one record if partial writes are allowed, or stalls behind exactly the bytes completed |
| `AppData.AppWriter.DoWrite` | ios/Pods/BoringSSL-GRPC/ssl/s3_pkt.cc:220-289 | a pending record is finished before another is sealed, and a new one carries exactly the next bytes; over willing layers it succeeds exactly if the record in the buffer allows it or there are bytes for a new one |
| `AppData.AppWriter.WritePending` | ios/Pods/BoringSSL-GRPC/ssl/s3_pkt.cc:202-218 | a retry with fewer bytes or another buffer is refused; success reports exactly the pending record's bytes |
| `AppData.AppWriter.AddRecord` | ios/Pods/BoringSSL-GRPC/ssl/s3_pkt.cc:261-288 | a record that the layer below has sealed counts from then on, whether or not it has left |
| `AppData.AppWriter.ReportedHasLeft` | ios/Pods/BoringSSL-GRPC/ssl/s3_pkt.cc:202-218 | at any time, exactly what was reported and the completed bytes of the unfinished write have left |
| `HandshakeStream.FlightWriter.AddMessage` | ios/Pods/BoringSSL-GRPC/ssl/s3_both.cc:184-205 | a message is cut into records whose bytes are exactly the message, behind all that was pending, all but the last as long as they may be and none empty |
| `HandshakeStream.FlightWriter.AddChangeCipherSpec` | ios/Pods/BoringSSL-GRPC/ssl/s3_both.cc:207-218 | a change of cipher is one record of its own, behind all bytes written before it |
| `HandshakeStream.ParseWire` | ios/Pods/BoringSSL-GRPC/ssl/s3_both.cc:399-425 | a message is found exactly when all its bytes are there, and is then the one that was sent |
| `HandshakeStream.ParseFront` | ios/Pods/BoringSSL-GRPC/ssl/s3_both.cc:399-425 | what is parsed is the front of the buffer |
| `HandshakeStream.MessageLayout` | ios/Pods/BoringSSL-GRPC/ssl/s3_both.cc:399-425 | type, three bytes of length with the most significant first, and body, for every message |
| `HandshakeStream.HandshakeReader.ParseMessage` | ios/Pods/BoringSSL-GRPC/ssl/s3_both.cc:399-425 | the header and body reads, with the byte count to wait for |
| `HandshakeStream.HandshakeReader.GetMessage` | ios/Pods/BoringSSL-GRPC/ssl/s3_both.cc:427-439 | the message at the front, the same on repeated calls |
| `HandshakeStream.HandshakeReader.HasUnprocessed` | ios/Pods/BoringSSL-GRPC/ssl/s3_both.cc:461-472 | true exactly when bytes beyond the current message are buffered |
| `HandshakeStream.HandshakeReader.OpenHandshake` | ios/Pods/BoringSSL-GRPC/ssl/s3_both.cc:529-560 | a record is appended whole, unless a complete message waits, the message to come is too long, or too many empty records came in a row |
| `HandshakeStream.RefusedIff` | ios/Pods/BoringSSL-GRPC/ssl/s3_both.cc:529-560 | in every state: exactly what is refused, a record while a whole message waits, a message announced as too long, and the 33rd empty record in a row |
| `HandshakeStream.HandshakeReader.NextMessage` | ios/Pods/BoringSSL-GRPC/ssl/s3_both.cc:562-583 | the buffer is always what was received less the messages released |
| `HandshakeStream.RecordBoundariesDoNotMatter` | ios/Pods/BoringSSL-GRPC/ssl/s3_both.cc:529-583 | for any cutting into records the same messages come out in the same order; it fails exactly when more than 32 empty records follow one another |
| `HandshakeStream.StreamDelivers` | ios/Pods/BoringSSL-GRPC/ssl/s3_both.cc:529-583 | the whole stream gives the whole list and an empty buffer |
| `AeadContext.CreateValid` | ios/Pods/BoringSSL-GRPC/ssl/ssl_aead_ctx.cc:57-149 | every construction for TLS and DTLS satisfies what the code asserts about nonce lengths |
| `AeadContext.AssembleNonce` | ios/Pods/BoringSSL-GRPC/ssl/ssl_aead_ctx.cc:250-284 | the nonce assembled in place is the fixed or zero part, the variable part, and the mask mixed in |
| `AeadContext.XorInPlace` | ios/Pods/BoringSSL-GRPC/ssl/ssl_aead_ctx.cc:278-284 | the mask is mixed into its own bytes of the buffer and no others |
| `AeadContext.GetAdditionalData` | ios/Pods/BoringSSL-GRPC/ssl/ssl_aead_ctx.cc:203-223 | number, type, version and length, each unless the construction omits it, within 13 bytes |
| `AeadContext.SealRecord` | ios/Pods/BoringSSL-GRPC/ssl/ssl_aead_ctx.cc:296-377 | refines sealing under the assembled nonce and data, with the explicit nonce in front |
| `AeadContext.OpenRecord` | ios/Pods/BoringSSL-GRPC/ssl/ssl_aead_ctx.cc:225-294 | refines opening: too short a record fails, and the length is derived from the overhead where it is authenticated |
| `AeadContext.OpenUndoesSeal` | ios/Pods/BoringSSL-GRPC/ssl/ssl_aead_ctx.cc:225-377 | for every construction the receiver rebuilds the sender's nonce and data, so what was sealed opens to the same plaintext |
| `AeadContext.SealsGcm` | ios/Pods/BoringSSL-GRPC/ssl/ssl_aead_ctx.cc:112-129 | AES-GCM before TLS 1.3: the nonce is the salt and the number, the number goes out in front of the ciphertext, and the 13 bytes authenticated are number, type, version and length in this order |
| `AeadContext.OpensGcm` | ios/Pods/BoringSSL-GRPC/ssl/ssl_aead_ctx.cc:225-294 | back again: a record too short for the number and the tag is refused, and any other is opened with the number it brings and its own length |
| `AeadContext.OpensChaCha` | ios/Pods/BoringSSL-GRPC/ssl/ssl_aead_ctx.cc:225-294 | the same without a nonce in the record |
| `AeadContext.SealsChaCha` | ios/Pods/BoringSSL-GRPC/ssl/ssl_aead_ctx.cc:112-129 | ChaCha20-Poly1305 before TLS 1.3: each byte of the nonce is the fixed byte with the padded number mixed in, nothing goes out in front, and the same 13 bytes are authenticated |
| `AeadContext.SealsTls13` | ios/Pods/BoringSSL-GRPC/ssl/ssl_aead_ctx.cc:131-139 | TLS 1.3, with any cipher: the same nonce, nothing in front, and nothing authenticated beside the plaintext |
| `AeadContext.SealsMac` | ios/Pods/BoringSSL-GRPC/ssl/ssl_aead_ctx.cc:140-146 | MAC-then-encrypt: the random nonce goes out in front, and number, type and version are authenticated, without the version for SSL 3 |
| `AeadContext.NonceInjective` | ios/Pods/BoringSSL-GRPC/ssl/ssl_aead_ctx.cc:325-369 | under one context different variable parts make different nonces, also when mixed with the fixed part |
| `AeadContext.NoncesDistinct` | ios/Pods/BoringSSL-GRPC/ssl/ssl_aead_ctx.cc:325-369 | two DTLS records with one nonce have the same epoch and number |
| `TlsComposition.SameConversation` | ios/Pods/BoringSSL-GRPC/ssl/handshake_client.cc:1707-1789 | what the client still has to say and hear equals what the server has, message by message, in the full and in the resumed order |
| `TlsComposition.ClientActs` | ios/Pods/BoringSSL-GRPC/ssl/handshake_client.cc:385-1705 | whatever the client does next, with any body or retry, it takes or writes the next events of that conversation, or waits for one that will come |
| `TlsComposition.ServerActs` | ios/Pods/BoringSSL-GRPC/ssl/handshake_server.cc:426-1537 | the same for the server |
| `TlsRuns.StepKeeps` | ios/Pods/BoringSSL-GRPC/ssl/handshake.cc:491-628 | every step and every way of resolving a wait keeps the joint invariant: one side is ahead by exactly the items under way |
| `TlsRuns.RunJoint` | ios/Pods/BoringSSL-GRPC/ssl/handshake.cc:491-628 | so it holds after every run, for any interleaving, partial flushes and retries |
| `TlsRuns.NoUnexpectedMessage` | ios/Pods/BoringSSL-GRPC/ssl/handshake.cc:165-174 | in no run does either side meet a message it does not expect, or a Finished that does not verify |
| `TlsRuns.TranscriptsAgree` | ios/Pods/BoringSSL-GRPC/ssl/handshake.cc:380-476 | one transcript is always a prefix of the other, and a buffered Finished was computed over exactly the receiver's transcript |
| `TlsRuns.DoneAgree` | ios/Pods/BoringSSL-GRPC/ssl/handshake.cc:380-476 | when both are done the transcripts are equal and nothing is left on the way |
| `TlsRuns.NotBothBlocked` | ios/Pods/BoringSSL-GRPC/ssl/handshake.cc:491-628 | both sides wait with nothing on the way only when both are done |
| `TlsRuns.NeverStuck` | ios/Pods/BoringSSL-GRPC/ssl/handshake.cc:491-628 | until both are done some side has a productive move |
| `TlsRuns.ProductiveDecreases` | ios/Pods/BoringSSL-GRPC/ssl/handshake.cc:491-628 | every productive move brings the handshake nearer to its end |
| `TlsRuns.SteadyDecreases` | ios/Pods/BoringSSL-GRPC/ssl/handshake.cc:491-628 | over any moves that each get somewhere or change nothing, either nothing has changed or the handshake is nearer to its end |
| `TlsRuns.CanComplete` | ios/Pods/BoringSSL-GRPC/ssl/handshake.cc:491-628 | from every reachable state both sides can reach done, in a bounded number of moves |
| `TlsRuns.FlightFits` | ios/Pods/BoringSSL-GRPC/ssl/d1_both.cc:553-594 | in no run has the client more than seven or the server more than six items in its flight, so a flight of seven is enough |
| `TlsRuns.ClientExpectsCcs` | ios/Pods/BoringSSL-GRPC/ssl/handshake_client.cc:1564-1602 | whenever the client waits for a change of cipher, the first item under way to it, however far it has come, is one |
| `TlsRuns.ServerExpectsCcs` | ios/Pods/BoringSSL-GRPC/ssl/handshake_server.cc:1365-1368 | the same for the server |
| `TlsRuns.ClientProgresses` | ios/Pods/BoringSSL-GRPC/ssl/handshake_client.cc:1707-1789 | every step of the client leaves the state for one nearer to the end, or waits in it for a message, a callback or for good |
| `TlsWire.WholeIsFirst` | ios/Pods/BoringSSL-GRPC/ssl/s3_both.cc:399-425 | a whole message at the front of the buffer is the next item of the conversation, and what follows it is what the other items are, wherever the records were cut |
| `TlsWire.NothingWhole` | ios/Pods/BoringSSL-GRPC/ssl/s3_both.cc:399-425 | when everything sent has been read, an item is left only if there is a whole message in the buffer |
| `TlsWire.NotWhole` | ios/Pods/BoringSSL-GRPC/ssl/s3_both.cc:529-560 | without a whole message in the buffer the bytes needed are within the limit, and a change of cipher can only come when the buffer is empty and it is the next item |
| `TlsWire.SendMore` | ios/Pods/BoringSSL-GRPC/ssl/s3_both.cc:231-279 | whatever has been sent of a flight is whole items and a part of the next, for every place to stop |
| `TlsWire.CarriesMore` | ios/Pods/BoringSSL-GRPC/ssl/s3_both.cc:231-279 | what is sent later completes the item that had come in part, so that the stream is whole items again |
| `TlsDriver.Side.AddMessage` | ios/Pods/BoringSSL-GRPC/ssl/s3_both.cc:184-205 | the records pending grow by exactly the bytes of the message and the transcript by the same bytes: one step of the machine on whole messages |
| `TlsDriver.Side.GetMessage` | ios/Pods/BoringSSL-GRPC/ssl/s3_both.cc:427-439 | a message is found exactly when all bytes of the machine's next item have come, and has that item's type and body |
| `TlsDriver.Side.HashAndNext` | ios/Pods/BoringSSL-GRPC/ssl/s3_both.cc:562-583 | the bytes hashed are the message's own, and releasing it leaves the bytes behind it |
| `TlsDriver.Side.GetFinished` | ios/Pods/BoringSSL-GRPC/ssl/handshake.cc:380-429 | it goes on if and only if the next message is there, is a Finished, and its body is the hash of the bytes of the transcript before it; without a whole message it waits, and on anything else it fails |
| `TlsDriver.Side.AddFinished` | ios/Pods/BoringSSL-GRPC/ssl/handshake.cc:431-476 | the hash written is over the bytes of all messages before it, and is cut into records like any message |
| `TlsDriver.Side.FlushFlight` | ios/Pods/BoringSSL-GRPC/ssl/s3_both.cc:231-279 | wherever the transport stops, some items have left whole and a part of the next; the rest is still pending, and nothing else has changed; if it is willing, all of the flight leaves |
| `TlsDriver.Side.ResolveWait` | ios/Pods/BoringSSL-GRPC/ssl/handshake.cc:494-606 | flushes, reads one record of whatever size or returns to the caller, and says exactly when the machine can run; a handshake record is a move of the machine only once its message is whole, and a record out of place is an error |
| `TlsDriver.ClientDispatch` | ios/Pods/BoringSSL-GRPC/ssl/handshake_client.cc:1707-1780 | the `do_` function of the state does on the bytes what the machine does on its items, looking at a message only where the machine asks for one |
| `TlsDriver.ServerDispatch` | ios/Pods/BoringSSL-GRPC/ssl/handshake_server.cc:1539-1612 | the same for the server's states |
| `TlsSession.ClientStepIsMoves` | ios/Pods/BoringSSL-GRPC/ssl/handshake_client.cc:1707-1789 | a `do_` function that finds a message already buffered is the machine running, waiting, opening and running again |
| `TlsSession.ClientLoop` | ios/Pods/BoringSSL-GRPC/ssl/handshake_client.cc:1707-1789 | the loop over states is a run of such moves, and ends |
| `TlsSession.ServerLoop` | ios/Pods/BoringSSL-GRPC/ssl/handshake_server.cc:1539-1621 | the same for the server's loop |
| `TlsSession.ClientNothingStray` | ios/Pods/BoringSSL-GRPC/ssl/s3_pkt.cc:351-377 | with an honest peer no record other than a change of cipher comes where one is awaited, not even a part of a message |
| `TlsSession.ClientWakes` | ios/Pods/BoringSSL-GRPC/ssl/handshake.cc:494-606 | resolving a wait over bytes is at most one move of the machine, and where transport and callbacks are willing one that gets somewhere, unless there is no record to read |
| `TlsSession.ServerWakes` | ios/Pods/BoringSSL-GRPC/ssl/handshake.cc:494-606 | the same for the server |
| `TlsSession.RunClient` | ios/Pods/BoringSSL-GRPC/ssl/handshake.cc:491-628 | each call, over records cut anywhere, is a run of the two machines whatever the peer has reached; whatever the peer has sent, it fails or keeps to the order of the protocol; it ends, stops only when done or held up, and with an honest peer never fails |
| `TlsSession.RunServer` | ios/Pods/BoringSSL-GRPC/ssl/handshake.cc:491-628 | the same for a call on the server's side |
| `TlsOneSided.ConversationIs` | ios/Pods/BoringSSL-GRPC/ssl/handshake_client.cc:1690-1800 | what either machine has before it at the start is one conversation, written down apart from the machines |
| `TlsOneSided.ClientStaysInOrder` | ios/Pods/BoringSSL-GRPC/ssl/handshake_client.cc:1690-1800 | over any moves, with a peer that sends anything: unless it has failed, what the client has said and heard and what is still before it make up a conversation of the protocol, and each Finished in its transcript is over the messages before it |
| `TlsOneSided.ClientDoneVerified` | ios/Pods/BoringSSL-GRPC/ssl/handshake_client.cc:1690-1800 | a client that is done has gone through a whole conversation, for choices that the server was free to make, and has checked the server's Finished against everything before it |
| `TlsOneSided.ClientLeavesIff` | ios/Pods/BoringSSL-GRPC/ssl/handshake.cc:380-429 | the client leaves the state that reads the server's Finished exactly on one over its own transcript; otherwise it waits or fails |
| `TlsOneSided.ServerLeavesIff` | ios/Pods/BoringSSL-GRPC/ssl/handshake.cc:380-429 | the same for the server and the client's Finished |
| `TlsOneSided.OutOfPlaceIff` | ios/Pods/BoringSSL-GRPC/ssl/s3_both.cc:529-560 | a change of cipher among the messages, or a message where a change of cipher is awaited, is always an error, and nothing else that comes in is |
| `TlsOneSided.ClientPendsIff` | ios/Pods/BoringSSL-GRPC/ssl/handshake_client.cc:871-908 | the client waits for the application exactly where it asks for it, as long as there is no answer, and nothing changes meanwhile |
| `TlsOneSided.CertificateWasVerified` | ios/Pods/BoringSSL-GRPC/ssl/handshake_client.cc:871-908 | against any peer: a full handshake with certificates does not get past the server's certificate unless the application has accepted it |
| `TlsOneSided.ClientStaysInRun` | ios/Pods/BoringSSL-GRPC/ssl/handshake_client.cc:1690-1800 | the order is kept in any run of both machines too, from any state of the other and of what is on the way |
| `TlsOneSidedServer.ServerStaysInOrder` | ios/Pods/BoringSSL-GRPC/ssl/handshake_server.cc:1530-1640 | the same for a server against a client that sends anything |
| `TlsOneSidedServer.ServerDoneVerified` | ios/Pods/BoringSSL-GRPC/ssl/handshake_server.cc:1530-1640 | a server that is done has gone through a whole conversation, with a CertificateVerify exactly if the client sent a certificate, and has checked the client's Finished against everything before it |
| `TlsOneSidedServer.ServerPendsIff` | ios/Pods/BoringSSL-GRPC/ssl/handshake_server.cc:1042-1077 | the server waits for the application exactly where it asks for it, and nothing changes meanwhile |
| `TlsOneSidedServer.ClientCertificateWasVerified` | ios/Pods/BoringSSL-GRPC/ssl/handshake_server.cc:1042-1077 | against any peer: a client certificate that came has been accepted by the application before the server goes on |
| `TlsOneSidedServer.ServerStaysInRun` | ios/Pods/BoringSSL-GRPC/ssl/handshake_server.cc:1530-1640 | the order is kept by the server in any run of both machines too |
| `TlsAnyPeer.ClientOnBytes` | ios/Pods/BoringSSL-GRPC/ssl/handshake.cc:380-429 | on bytes, against any peer: a client that is done has hashed the messages of a whole conversation, and among them is a server's Finished that is the hash of all bytes before it |
| `TlsAnyPeer.ServerOnBytes` | ios/Pods/BoringSSL-GRPC/ssl/handshake.cc:380-429 | the same for a server and the client's Finished |
| `TlsConversation.StreamGrows` | ios/Pods/BoringSSL-GRPC/ssl/s3_both.cc:529-560 | records that a peer adds keep the reader's view of the stream: whole items and a part of one |
| `TlsConversation.CallClient` | ios/Pods/BoringSSL-GRPC/ssl/handshake.cc:491-628 | a call on the client keeps the two sides connected, and does not fail |
| `TlsConversation.CallServer` | ios/Pods/BoringSSL-GRPC/ssl/handshake.cc:491-628 | the same for the server |
| `TlsConversation.NeverBothWait` | ios/Pods/BoringSSL-GRPC/ssl/handshake.cc:491-628 | until both are done, one of the two has a record to read, records to write or a callback to come back to |
| `TlsConversation.TranscriptBytes` | ios/Pods/BoringSSL-GRPC/ssl/handshake.cc:380-476 | the bytes hashed by one side are always a prefix of those hashed by the other, and the same when both are done |
| `TlsConversation.Converse` | ios/Pods/BoringSSL-GRPC/ssl/handshake.cc:491-628 | from the start, for every schedule of calls, every fragment size on either side, every stop of the transport and every answer of a callback: no failure, transcripts that never part, and work left until both are done |
| `TlsConversation.UnchangedIsDone` | ios/Pods/BoringSSL-GRPC/ssl/handshake.cc:491-628 | two calls that change nothing on either machine have nothing left to do |
| `TlsConversation.Finish` | ios/Pods/BoringSSL-GRPC/ssl/handshake.cc:491-628 | from every state of the connection, once the transport takes what it is given and callbacks answer, calling the two in turn gets both done, with the same bytes hashed, in a bounded number of rounds |

## Left out

- DtlsEndToEnd.DeliveredExactly: covers the unencrypted epoch over the network. Messages of the next epoch may be in the flight and on the network; what the receiver does with them is in DtlsEncrypted, not in the joint state machine. Datagrams of an earlier flight are not on the network.
- DtlsEncrypted.EncryptedDelivered: each datagram carries one record; the cipher of the writer is opened by that of the reader, and whether others can make records that open is not asked.
- DtlsEndToEnd.NumberDeterminesRecord: until a sequence or epoch counter wraps; the theorems about what has arrived and about retransmission assume the same.
- DtlsProgress.RetransmissionDelivers: for packets that can be sealed, and sizes that do not make the receiver fail; loss is any loss, but the retransmission itself is passed on in order.
- DtlsSealing.RecordWriter.SealRecord: uniqueness is stated until a sequence or epoch counter wraps, and for records that were sealed; a sealing that failed, or whose counter could not be raised, made no record.
- DtlsRecord.RecordReader.OpenRecord: alerts are handed on and not interpreted.
- PbRoundTrip.MessageRoundTrip: fixed-count arrays inside proto3 singular submessages are excluded, because the encoder's zero test reads the first bytes of such an array as a count.
- PbEncoder.EncMessage: sizes are unbounded integers; the overflow of `size_t` when lengths approach its limit is not modelled.
- PbDecoder.SetToDefaults: the zero count that the source stores for every array goes, for a fixed-count array, over its first four bytes, and behind an array that is smaller; here the entries of such an array are `Junk` until they are read.
- PbDecoder.DecNoinit: a struct is passed and returned by value, so aliasing of the struct with the input is not captured, and its contents after a failure are unspecified.
- PbCodec: bytes behind a string's terminator and struct padding have no counterpart; memory never written is one value, `Junk`, which loads as zero or empty.
- PbVarintExact.DecodeVarint32Iff: inputs that end behind 37 bytes are left to the example in CounterWraps.
- PbDecoded.MessageSound: for tables in which what a cell starts with fits it, as the generator guarantees.
- PbDecoder.CountRequired: an empty table stands for the terminator alone, whose tag is 0.
- AppData.AppWriter.Write: the source has no contract for a retry with different data, so a retry is assumed to repeat the unfinished bytes.
- AppData: early data, the prefix of unflushed handshake data, and record types other than application data.
- AeadContext.OpenUndoesSeal: without extra input at the end of the plaintext, and without the check that input and output buffers do not overlap.
- AeadContext.NoncesDistinct: for nonces built from the sequence number; randomly chosen ones are left out.
- HandshakeStream: records arrive decrypted, so partial records and the record header are left out, and so is the recognition of HTTP requests and V2ClientHello.
- TlsRuns.NoUnexpectedMessage: message bodies are arbitrary and accepted, except for Finished, an empty client certificate and the empty ServerHelloDone; a negotiation that the two sides would understand differently is excluded by shared parameters.
- TlsOneSided.CertificateWasVerified: the application answers or asks to be called again; a refusal, which ends the handshake, is not modelled, and neither is what it looks at.
- TlsOneSidedServer.ServerStaysInOrder: for a server that staples a certificate status only with ciphers that use certificates.
- TlsDriver.Side.ResolveWait: empty, discarded, partial and alert records do not occur; a record is non-empty handshake data or a ChangeCipherSpec. Bytes of a message left over when a change of cipher is opened are refused there and not one step later.
- TlsConversation.Finish: a willing transport takes all that it is offered in one call, and no callback asks to be called again; how long a real one may stall is not bounded.
- TlsWire.WholeIsFirst: both sides are given one limit on the length of a message, below 2^24.
- TlsMachines: SSL 3.0, TLS 1.3, early data, False Start, renegotiation, HelloVerifyRequest, handoff and alerts.
- Refcount: memory orders; every load and exchange is taken to be sequentially consistent.
- Ciphers, MACs, hashes, signatures, certificates and key exchange are uninterpreted functions with the length bounds that the code relies on.
- Clocks and the DTLS retransmission timer, BIO, message and info callbacks, error queues and memory allocation failure.
- nanopb callbacks, extensions, pointer fields, allocation, 8- and 16-bit descriptors, the 32-bit-only build, and NULL descriptors; error strings.
- Session serialization, SRTP profiles, custom extensions, CPU detection and thread wrappers: they are mostly glue, or would add only easier facts.
