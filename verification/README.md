# Verification of the nanopb codec and of the BoringSSL handshake transport and machines

A Dafny model of the hard parts of the two C libraries the application carries, with proofs about it.
`dafny verify dfyconfig.toml` checks everything.

The code that works by changing things step by step (streams, the field iterator, bit masks, the reassembly ring,
the replay window, sequence counters, the flight being sent, the handshake drivers, the write loop) is written as
classes and methods with loops. Each method is proved against a function of its inputs and the old state. The main
theorems are about those functions.

## The nanopb codec

`Schema` holds message descriptors and structs as values, `Wire` the wire format as functions of bytes, `Varint`
and `Bits` the arithmetic. `PbCommon`, `PbDecode` and `PbEncode` are the iterator, the stream decoder and the
stream encoder, proved against `Wire`. `Merged` says what it means to merge one struct into another; `RoundTrip` proves
that decoding merges what was encoded, and so undoes encoding, also for readers that know fewer fields; `Overflow`
proves that it fails exactly where an array has no room. `Merge` decides when decoding a concatenation is decoding
its parts.

Three things hold of every input, not only of what the encoder writes. `Decoded` proves that no bytes make the decoder
store what does not fit its member, which values it stores, and which required fields it insists on. `Presence` proves
which fields are written and what the encoder refuses. A struct of defaults takes no bytes, except that an implicit
fixed-length byte string is written even when it is all zeros (`Presence.DefaultsEncodeToNothing`).

The header promises that `pb_decode_noinit` can merge messages (`pb_decode.h:74-75`). The code does so exactly when
the first input ends between two fields: a key cut off at the end of the input is taken for the end of the message
(`Merge.CutOffKeyIsAccepted`), and a zero key ends it early. `Merge.MergeLaw` is the condition, in both directions.

## The DTLS handshake transport

`DtlsWire` is the fragment header, `DtlsReassembly` one message under reassembly, `DtlsReceive` the ring of seven
messages, `DtlsReplay` the replay window, `DtlsRecord` sealing and opening with epochs, `DtlsSend` the sender.
`DtlsTiling` says what a flight looks like on the wire, `DtlsProgress` that a flush gets through and fills its packets,
`DtlsDelivery` what the receiver hands up, what it holds whatever arrives, and what a ChangeCipherSpec does, and
`DtlsConnection` joins sender, network and receiver into one system: an in-order, exact message channel
(sections 4.1, 4.1.2.6, 4.2.2 and 4.2.3 of RFC 6347).

Three things the code does that a reader might not expect are proved with the input that shows them:

- a fragment of the message exactly seven past the next one is an error, while later ones are ignored
  (`DtlsDelivery.OnePastTheWindow`; `DtlsDelivery.HonestVerdict` is the exact condition);
- when sealing fails in the middle of a packet, the flight goes on behind messages that were sealed but never
  written (`DtlsConnection.SealFailureSkips`; `DtlsTiling.FlightTiled` is the exact condition);
- the last sequence number of an epoch is used up without being sent, and the counter then starts over
  (`DtlsRecord.WrappedCounterRepeats`), so uniqueness needs the bound of `DtlsRecord.FewRecordsNeverWrap`.

## The TLS 1.0 to 1.2 handshake machines

`TlsClient` and `TlsServer` are the two machines, with an invariant and a ranking for all states, and the drivers
`ssl_client_handshake`, `ssl_server_handshake` and `ssl_run_handshake` as loops. `TlsScript` lists what the two
sides say in a handshake with given negotiated parameters; `TlsHonestClient` and `TlsHonestServer` show that each
state function says and takes exactly its part of it. `TlsJoint`, `TlsJointClient` and `TlsJointServer` join the
machines by two queues, and `TlsAgreement` draws the conclusions: agreement on the transcripts, no error, no
deadlock (sections 7.3, 7.4.8 and 7.4.9 of RFC 5246).

Against a peer that sends anything at all, `TlsEvidence`, `TlsClientEvidence` and `TlsServerEvidence` prove that nothing
is noted as derived, signed, sent or verified without the message that shows it, so that no handshake completes without
the right Finished of the peer; `TlsGrammar`, `TlsClientGrammar` and `TlsServerGrammar` prove that the messages of a
completed handshake are exactly those of the grammar, in its order.

Cryptography is a set of arbitrary functions of the transcript and the secrets. Everything else that is not
interpreted (parsing, callbacks, certificate checks, pending operations) is a verdict chosen freely at every call.

## Smaller parts

`CipherChoice` is the choice among equal-preference groups, `AppData` the resumable writes of application data, and
`RefCount` the lock-free reference count.

The choice is specified for every list of group flags: a last group that is never closed by a flag of 0 is never
chosen from. With a last flag of 0, as `internal.h` describes it, every group counts. A write that is retried with
fewer bytes than were flushed is refused, and the place in the data is forgotten (last clause of
`AppData.Writer.WriteAppData`); retries with the same arguments are what `AppData.RepeatedWrite` is about.

## Model

| member | source | states |
|---|---|---|
| RoundTrip.DecodeEncode | pokusaj3/Pods/nanopb/pb_encode.c:451-473 | A message that fits its schema always encodes, and decoding the bytes, of any total length, returns the same message with nothing left over, for every schema tree: nested messages, packed and unpacked arrays, oneofs, defaults, zigzag, 10-byte varints |
| RoundTrip.UnknownFieldsAreSkipped | pokusaj3/Pods/nanopb/pb_decode.c:877-906 | A reader whose schema lacks any of the writer's fields, at any depth, gets exactly the projection of the message to its own schema |
| RoundTrip.MessageRoundTrip | pokusaj3/Pods/nanopb/pb_decode.c:852-967 | The induction behind both: for every pair of schemas of which one is a restriction of the other, at every nesting level, and the reader's loop ends between two fields; it is the merge onto the defaults |
| RoundTrip.ChunkAbsorbed | pokusaj3/Pods/nanopb/pb_encode.c:271-349 | The bytes of one field of the writer take the reader's loop from a struct into which the earlier fields are merged to one into which this one is merged, too, whether the reader knows the field or not |
| RoundTrip.ValueSkipped | pokusaj3/Pods/nanopb/pb_decode.c:277-287 | Skipping consumes exactly the bytes the encoder wrote for a value, for every wire type and whatever follows |
| RoundTrip.ScalarRoundTrip | pokusaj3/Pods/nanopb/pb_decode.c:1165-1332 | Each scalar decoder returns the value its encoder wrote and the bytes behind it, including sign extension of negative values and field widths of 1 to 8 bytes |
| RoundTrip.PackedRoundTrip | pokusaj3/Pods/nanopb/pb_decode.c:374-402 | The payload of a packed array decodes to exactly the items written, appended to those already there, while the array has room |
| RoundTrip.UnpackedStored | pokusaj3/Pods/nanopb/pb_decode.c:356-429 | An array whose items come one by one behind their own keys, numbers included, is appended item by item, whether the schema calls it packed or not |
| RoundTrip.MessageMerged | pokusaj3/Pods/nanopb/pb_decode.c:852-953 | Decoding an encoded message onto any struct whose arrays have room merges it in: the last singular value wins, submessages are merged at every depth, entries are appended, a union takes the member that comes last, and whatever the message does not mention is untouched |
| Overflow.RoomDecides | pokusaj3/Pods/nanopb/pb_decode.c:356-429 | Decoding a message onto a struct succeeds if and only if every array has room for its new entries, at every depth: the first array without room ends the whole decode with an error |
| Merged.ShortEncoding | pokusaj3/Pods/nanopb/pb_encode.c:600-648 | An encoding below 2^32 bytes has only payloads below 2^32 bytes, so that the condition of the round trip can be read off its length |
| Merge.LastOneWins | pokusaj3/Pods/nanopb/pb_decode.h:74-75 | The encodings of two messages, one behind the other, decode if and only if the arrays have room for the entries of both, and then to the second merged into the first, for every reader that knows some of the fields |
| Merge.MergeLaw | pokusaj3/Pods/nanopb/pb_decode.h:74-75 | Decoding a and then b into one struct equals decoding a followed by b, for every b, if and only if a ends between two fields; the intended law is false of an a that ends in a cut-off or a zero key |
| Merge.MergeMessages | pokusaj3/Pods/nanopb/pb_decode.c:852-953 | The same for whole messages: the result is that of two passes, except that the required-field check covers the fields seen in both |
| Merge.SeenAccumulates | pokusaj3/Pods/nanopb/pb_decode.c:881-917 | Fields seen earlier never change what the loop stores or where it stops; they are only united with what it sees |
| Merge.CutOffKeyIsAccepted | pokusaj3/Pods/nanopb/pb_decode.c:251-275 | A key that is cut off at the end of the input is taken for the end of the message: the input on which the merge law fails |
| Decoded.DecodedTidy | pokusaj3/Pods/nanopb/pb_decode.c:852-967 | Whatever the bytes are: a message that is accepted leaves nothing in the struct, at any depth, that does not fit its member: byte strings with their header, strings with their NUL, numbers in the range of their width, arrays within their size; and an optional field that is absent still holds its declared default |
| Decoded.MessageKeepsTidy | pokusaj3/Pods/nanopb/pb_decode.c:852-953 | The same for decoding onto a struct that is in use |
| Decoded.NumberExactly | pokusaj3/Pods/nanopb/pb_decode.c:1165-1250 | A varint is stored as a number if and only if that number is in the range of the field and stands for the same bits: modulo 2^32 for the narrower signed fields, modulo 2^64 for the widest, zigzag for the signed encoding |
| Decoded.BlobExactly | pokusaj3/Pods/nanopb/pb_decode.c:1262-1379 | A byte string is stored as it is if and only if it fits its member; an empty one fills a fixed-length member with zeros; any other is refused |
| Decoded.RequiredExactly | pokusaj3/Pods/nanopb/pb_decode.c:919-949 | Decoding succeeds if and only if the loop does and the tag of every required field was read from these bytes |
| Decoded.DefaultsPristine | pokusaj3/Pods/nanopb/pb_decode.c:763-850 | A new struct holds, at every depth, what the descriptor declares: the default of the field, or zero, or nothing |
| Decoded.SkipVarintExactly | pokusaj3/Pods/nanopb/pb_decode.c:231-242 | Skipping a varint takes the bytes up to the first without a continuation bit, and fails exactly if there is none |
| Presence.SilentExactly | pokusaj3/Pods/nanopb/pb_encode.c:205-262 | A field takes no bytes if and only if it has nothing to say: its flag is off, its array is empty, its union holds another member, or, without a flag, it is the number zero, an empty byte string, or a string that begins with NUL |
| Presence.DefaultsEncodeToNothing | pokusaj3/Pods/nanopb/pb_encode.c:205-294 | A struct of defaults encodes to no bytes if and only if no field is required and none is an implicit fixed-length byte string, which the code writes even when it is all zeros |
| Presence.EncodesExactly | pokusaj3/Pods/nanopb/pb_encode.c:116-349 | The encoder refuses a struct if and only if some array that is written is longer, or some byte string larger, than its member |
| Presence.KeyedBytes | pokusaj3/Pods/nanopb/pb_encode.c:553-590 | Each value stands behind one varint, eight times its tag plus the number of its wire type: 0, 1, 2 or 5 |
| Presence.StringBytes | pokusaj3/Pods/nanopb/pb_encode.c:739-763 | A string is written up to its first NUL or the end of its member, whichever comes first, and no further |
| PbCommon.FieldIter.Begin | pokusaj3/Pods/nanopb/pb_common.c:8-18 | The iterator starts at the first field, and reports an empty descriptor |
| PbCommon.FieldIter.Next | pokusaj3/Pods/nanopb/pb_common.c:20-76 | One step moves to the next field or wraps to the first, says which, and keeps the required-field index equal to the number of required fields before the position |
| PbCommon.FieldIter.Find | pokusaj3/Pods/nanopb/pb_common.c:78-97 | From any position, the wrapping search finds a tag if and only if the descriptor declares it, rests on its field with the right required-field index, and otherwise returns to where it started |
| PbCommon.FieldIter.CountRequired | pokusaj3/Pods/nanopb/pb_decode.c:919-935 | Running the iterator to the end of the descriptor yields the number of required fields |
| PbCommon.MaskCompleteExactly | pokusaj3/Pods/nanopb/pb_decode.c:937-949 | The word-wise comparison of the mask, with its final shift, succeeds if and only if every required field was seen |
| PbCommon.MarkSeen | pokusaj3/Pods/nanopb/pb_decode.c:908-913 | Setting the bit of a required field adds exactly that field to the set the mask stands for |
| PbDecode.IStream.Read | pokusaj3/Pods/nanopb/pb_decode.c:91-125 | A read succeeds if and only if enough bytes are left, and then takes exactly those off the front |
| PbDecode.IStream.DecodeVarint32 | pokusaj3/Pods/nanopb/pb_decode.c:173-207 | The shift-and-or loop refines the arithmetic reader: at most five bytes, bits past 32 dropped, value and rest as specified, failure exactly where the reader fails; after a failure the stream is empty exactly if it held no more than five bytes |
| PbDecode.IStream.DecodeVarint | pokusaj3/Pods/nanopb/pb_decode.c:209-229 | The 64-bit loop refines the arithmetic reader of at most 10 groups |
| PbDecode.IStream.DecodeTag | pokusaj3/Pods/nanopb/pb_decode.c:251-275 | A key splits into wire type and tag; end of input and a zero key are reported as the end of the message, a malformed key is not |
| PbDecode.IStream.SkipField | pokusaj3/Pods/nanopb/pb_decode.c:277-287 | Skipping a field of any wire type consumes exactly the bytes of that field, and fails on reserved wire types |
| PbDecode.IStream.MakeStringSubstream | pokusaj3/Pods/nanopb/pb_decode.c:322-335 | The substream holds exactly the announced bytes, the parent counts exactly the bytes behind them, and nothing is split off if fewer are left |
| PbDecode.IStream.CloseStringSubstream | pokusaj3/Pods/nanopb/pb_decode.c:337-350 | Closing leaves the parent behind the substream even if the substream was not read to its end |
| PbDecode.DecScalar | pokusaj3/Pods/nanopb/pb_decode.c:1118-1379 | Every scalar decoder accepts exactly what the specification accepts, including the range check against the field width, and leaves the stream behind the value |
| PbDecode.DecPackedArray | pokusaj3/Pods/nanopb/pb_decode.c:374-402 | Packed items are appended until the substream is empty, and the call fails if they do not fit the array |
| PbDecode.DecodeStaticField | pokusaj3/Pods/nanopb/pb_decode.c:356-429 | One occurrence of a field changes its storage as its kind of field prescribes: overwritten, flagged, appended, or the oneof reset first |
| PbDecode.DecSubmessage | pokusaj3/Pods/nanopb/pb_decode.c:1334-1356 | A submessage is decoded from its own substream, merged into the struct already there when the field is singular, on strictly fewer bytes than its parent |
| PbDecode.SetToDefaults | pokusaj3/Pods/nanopb/pb_decode.c:763-850 | Initialisation of a struct tree gives every field its declared default |
| PbDecode.DecodeRound | pokusaj3/Pods/nanopb/pb_decode.c:874-917 | Each round refines one step of the specification, whatever field the iterator rests on, keeps the mask in step with the fields seen, and uses up at least one byte |
| PbDecode.DecodeNoinit | pokusaj3/Pods/nanopb/pb_decode.c:852-953 | The loop with iterator and bit mask refines a fold over the fields on the wire followed by the check that all required ones were seen; a struct whose contents fit stays so, whatever the bytes are |
| PbDecode.Decode | pokusaj3/Pods/nanopb/pb_decode.c:955-967 | A message decodes if and only if the specification decodes the stream's bytes, to the same struct and the same rest; whatever the bytes are, nothing is stored that does not fit its member |
| PbEncode.OStream.Write | pokusaj3/Pods/nanopb/pb_encode.c:91-109 | Bytes are accepted exactly if they fit, land behind what is there, and change no other byte; a sizing stream accepts all and only counts |
| PbEncode.OStream.EncodeVarint | pokusaj3/Pods/nanopb/pb_encode.c:494-514 | The loop that emits seven bits at a time writes the canonical varint, or fails exactly if it does not fit |
| PbEncode.EncArray | pokusaj3/Pods/nanopb/pb_encode.c:116-201 | Packed arrays, with the size computed in advance or by a sizing pass, and unpacked arrays write exactly the specified bytes, or fail exactly if they do not fit or have too many items |
| PbEncode.FixedPackedSize | pokusaj3/Pods/nanopb/pb_encode.c:135-143 | The size computed by multiplication is the size the fixed-width items really have |
| PbEncode.EncBasicField | pokusaj3/Pods/nanopb/pb_encode.c:271-349 | Each kind of field writes exactly its specified bytes, or nothing when it is absent or, for proto3, zero |
| PbEncode.Encode | pokusaj3/Pods/nanopb/pb_encode.c:451-473 | A struct is accepted by a stream exactly if it has an encoding and the encoding fits, and then exactly that encoding is appended |
| PbEncode.EncodeSubmessage | pokusaj3/Pods/nanopb/pb_encode.c:600-648 | The two passes write the length and the same bytes that were counted, so that a changed size between the passes cannot be observed |
| PbEncode.GetEncodedSize | pokusaj3/Pods/nanopb/pb_encode.c:480-489 | The sizing pass succeeds exactly when the struct has an encoding, and returns its exact length |
| PbEncode.EncodeToBuffer | pokusaj3/Pods/nanopb/pb_encode.c:74-109 | Encoding into a buffer succeeds exactly if the size fits; the front of the buffer then is the encoding and the rest is untouched |
| Varint.ParseEncode | pokusaj3/Pods/nanopb/pb_decode.c:209-229 | Reading a varint returns the value written, whatever follows, as soon as the allowed groups can hold it |
| Varint.ParseStable | pokusaj3/Pods/nanopb/pb_decode.c:209-229 | A successful read never looks past the varint |
| Varint.ParseFails | pokusaj3/Pods/nanopb/pb_decode.c:209-229 | A read fails exactly when all bytes it may look at are continuation bytes |
| Varint.ParseCuts | pokusaj3/Pods/nanopb/pb_decode.c:173-229 | Of a number that is too large for the word it is read into, the low bits remain |
| Varint.EncodeShortest | pokusaj3/Pods/nanopb/pb_encode.c:494-514 | No other bytes that read as the same number are fewer than the ones written |
| Varint.LittleEndianByte | pokusaj3/Pods/nanopb/pb_encode.c:526-551 | Byte i of a fixed-width number has the weight 256^i |
| Varint.ZigZagBijective | pokusaj3/Pods/nanopb/pb_decode.c:1118-1130 | The zigzag maps are inverse to each other on all integers and naturals |
| Bits.ShlBit | pokusaj3/Pods/BoringSSL/ssl/dtls_record.cc:163-167 | A left shift in a machine word moves bit i to i + s and drops what passes the top |
| DtlsWire.FragmentRoundTrip | pokusaj3/Pods/BoringSSL/ssl/d1_both.cc:459-473 | A fragment header and body parse back to themselves, whatever follows |
| DtlsWire.HeaderLayout | pokusaj3/Pods/BoringSSL/ssl/d1_both.cc:511-530 | Where each byte of a fragment header stands, and which byte of which field it is |
| DtlsReassembly.BitRangeBit | pokusaj3/Pods/BoringSSL/ssl/d1_both.cc:203-207 | The mask expression has exactly the bits from start to end |
| DtlsReassembly.MarkRange | pokusaj3/Pods/BoringSSL/ssl/d1_both.cc:222-236 | Marking sets exactly the bits of the range, also where it starts or ends inside a byte |
| DtlsReassembly.IsComplete | pokusaj3/Pods/BoringSSL/ssl/d1_both.cc:238-247 | The check of whole bytes and of the partial last byte succeeds if and only if every byte of the message is marked |
| DtlsReassembly.HmFragment.Mark | pokusaj3/Pods/BoringSSL/ssl/d1_both.cc:211-251 | After a mark a byte counts as received if and only if it did before or lies in the range; bits past the message stay clear |
| DtlsReassembly.HmFragment.Absorb | pokusaj3/Pods/BoringSSL/ssl/d1_both.cc:393-405 | The bytes received are those received before, overwritten with the fragment at its offset |
| DtlsReassembly.HmFragment.ReleasedExactly | pokusaj3/Pods/BoringSSL/ssl/d1_both.cc:238-251 | In every valid state the mask has been released if and only if the whole message has been received |
| DtlsReceive.Dtls1State.GetIncomingMessage | pokusaj3/Pods/BoringSSL/ssl/d1_both.cc:265-295 | The slot of a message inside the window is returned or claimed; a different type or length for the same number is refused; the ring is otherwise unchanged |
| DtlsReceive.Dtls1State.OpenFragment | pokusaj3/Pods/BoringSSL/ssl/d1_both.cc:352-405 | One fragment changes the window keyed by sequence number as specified; the ring of seven slots is never confused about which message a slot holds |
| DtlsReceive.Dtls1State.OpenHandshake | pokusaj3/Pods/BoringSSL/ssl/d1_both.cc:297-406 | A record is processed as specified for its type, up to the first fragment in error |
| DtlsReceive.Dtls1State.OpenChangeCipherSpec | pokusaj3/Pods/BoringSSL/ssl/d1_both.cc:475-491 | A ChangeCipherSpec that has come in is taken without reading a record; otherwise one record is read |
| DtlsReceive.Dtls1State.GetMessage | pokusaj3/Pods/BoringSSL/ssl/d1_both.cc:408-424 | A message is handed up if and only if all bytes of the next message have arrived; its raw bytes are those of an unfragmented message |
| DtlsReceive.Dtls1State.NextMessage | pokusaj3/Pods/BoringSSL/ssl/d1_both.cc:426-438 | Releasing the current message removes it and nothing else, and advances the window, across the wrap of the 16-bit counter, too |
| DtlsReceive.Dtls1State.ViewInWindow | pokusaj3/Pods/BoringSSL/ssl/d1_both.cc:265-295 | The ring invariant: whatever slot holds a message, its number has that residue and lies within the next seven |
| DtlsReceive.Dtls1State.HasUnprocessedData | pokusaj3/Pods/BoringSSL/ssl/d1_both.cc:440-456 | True if and only if a ChangeCipherSpec or any message other than the one handed up is held |
| DtlsReceive.Dtls1State.SetReadState | pokusaj3/Pods/BoringSSL/ssl/dtls_method.cc:81-95 | The epoch advances exactly if nothing unprocessed is held |
| DtlsDelivery.InOrderDelivery | pokusaj3/Pods/BoringSSL/ssl/d1_both.cc:297-438 | Under any loss, duplication and reordering of authentic fragments, with any boundaries and overlaps, the messages handed up are the first ones sent, byte for byte and in order, and everything held is part of a message sent |
| DtlsDelivery.AvailableExactly | pokusaj3/Pods/BoringSSL/ssl/d1_both.cc:408-424 | After timely deliveries the next message is available if and only if it was sent and the fragments delivered mention it and cover it |
| DtlsDelivery.HandedExactly | pokusaj3/Pods/BoringSSL/ssl/d1_both.cc:408-438 | Asking for the next message hands it up in that case, as it was sent, and otherwise changes nothing |
| DtlsDelivery.RefusedExactly | pokusaj3/Pods/BoringSSL/ssl/d1_both.cc:340-390 | Whatever the fragment: it is refused, without an effect, if and only if it contradicts itself, exceeds the limit, is out of turn in epoch 1, is exactly one past the window, or differs in type or length from what is under assembly |
| DtlsDelivery.RunContained | pokusaj3/Pods/BoringSSL/ssl/d1_both.cc:265-406 | Whatever records arrive, in any order, no byte is held outside the buffer of its message, no message exceeds the limit, only the next seven are under assembly, and one that has been handed out stays complete |
| DtlsDelivery.CcsExactly | pokusaj3/Pods/BoringSSL/ssl/d1_both.cc:319-338 | Over every run, the flag is set if and only if a ChangeCipherSpec record, with the body 1 and under the null cipher, has come in and none has been taken since |
| DtlsDelivery.OtherRecords | pokusaj3/Pods/BoringSSL/ssl/d1_both.cc:305-350 | Of the records that are not handshake records, exactly a ChangeCipherSpec under the null cipher is accepted, and no other has an effect |
| DtlsDelivery.CcsOpenedExactly | pokusaj3/Pods/BoringSSL/ssl/d1_both.cc:475-491 | The wait for a ChangeCipherSpec ends if and only if one is waiting or the next record is one, and then it is used up |
| DtlsDelivery.NewEpochExactly | pokusaj3/Pods/BoringSSL/ssl/dtls_method.cc:81-95 | After timely deliveries the epoch changes if and only if no ChangeCipherSpec waits and nothing has come in of a message still to come, other than the one being processed |
| DtlsDelivery.HonestVerdict | pokusaj3/Pods/BoringSSL/ssl/d1_both.cc:265-295 | An honest fragment is processed without an error if and only if it is not too long, is the next message when the epoch is 1, and is not exactly one past the window |
| DtlsDelivery.OnePastTheWindow | pokusaj3/Pods/BoringSSL/ssl/d1_both.cc:380-390 | The message seven past the next one is an error, while the one after it is ignored: the guard admits one number too many |
| DtlsReplay.ToU64Be | pokusaj3/Pods/BoringSSL/ssl/dtls_record.cc:128-138 | The shift-and-or loop computes the big-endian value |
| DtlsReplay.Bitmap.ShouldDiscard | pokusaj3/Pods/BoringSSL/ssl/dtls_record.cc:140-153 | A number is discarded if and only if it was recorded or is at least 64 below the maximum |
| DtlsReplay.Bitmap.Record | pokusaj3/Pods/BoringSSL/ssl/dtls_record.cc:155-175 | Sliding and setting bits adds exactly this number to the set of recorded ones, and keeps the maximum |
| DtlsReplay.Slide | pokusaj3/Pods/BoringSSL/ssl/dtls_record.cc:160-169 | A shifted map describes the same set of numbers relative to the new maximum, also past the width of the word |
| DtlsRecord.SequenceUpdate | pokusaj3/Pods/BoringSSL/ssl/tls_record.cc:154-163 | The byte loop with carries refines the increment of the counter, and reports the wrap-around |
| DtlsRecord.IncrementValue | pokusaj3/Pods/BoringSSL/ssl/tls_record.cc:154-163 | The increment adds one to the value of the bytes, and fails with all bytes zero exactly at the last value |
| DtlsRecord.RecordWriter.Seal | pokusaj3/Pods/BoringSSL/ssl/dtls_record.cc:294-345 | A record is sealed with the number and epoch asked for, in the current or the previous epoch, and the number is used up also when the record is then dropped |
| DtlsRecord.RecordWriter.SetWriteState | pokusaj3/Pods/BoringSSL/ssl/dtls_method.cc:97-107 | An epoch change keeps the old counter for retransmission and starts the new one at zero |
| DtlsRecord.RecordNumbersUnique | pokusaj3/Pods/BoringSSL/ssl/dtls_record.cc:294-345 | Over every run of sealings and epoch changes, retransmission in the previous epoch included, no two records carry the same epoch and number, as long as no counter wraps |
| DtlsRecord.FewRecordsNeverWrap | pokusaj3/Pods/BoringSSL/ssl/dtls_record.cc:294-345 | Fewer than 2^48 records and 2^16 epochs never wrap a counter |
| DtlsRecord.EpochsKeepCiphers | pokusaj3/Pods/BoringSSL/ssl/dtls_record.cc:294-345 | Over every run, retransmission included, each record is sealed by the cipher that was installed for its own epoch, and shows the version of that cipher or of the next |
| DtlsRecord.WrappedCounterStartsOver | pokusaj3/Pods/BoringSSL/ssl/dtls_record.cc:335-345 | At the last number nothing is sealed, and the counter starts over |
| DtlsRecord.WrappedCounterRepeats | pokusaj3/Pods/BoringSSL/ssl/dtls_record.cc:294-345 | A run of 2^48 + 1 records in one epoch, in which the last record carries the epoch and number of the first: the bound is needed |
| DtlsRecord.RecordReader.Open | pokusaj3/Pods/BoringSSL/ssl/dtls_record.cc:177-259 | Opening refines the specification in which the window is the set of all numbers ever recorded |
| DtlsRecord.AcceptsExactly | pokusaj3/Pods/BoringSSL/ssl/dtls_record.cc:177-259 | Whatever the bytes are: a record gets through if and only if its header is whole, its length within the limit, its version right, its epoch the current one, its number new, and the cipher opens it to no more than 16384 bytes; no other bytes leave a trace |
| DtlsRecord.RecordLayout | pokusaj3/Pods/BoringSSL/ssl/dtls_record.cc:313-333 | Where each byte of a record header stands, and which byte of which field it is |
| DtlsRecord.AcceptedOnce | pokusaj3/Pods/BoringSSL/ssl/dtls_record.cc:225-259 | Over a whole connection, whatever bytes arrive and whatever opens, no pair of epoch and number is accepted twice |
| DtlsRecord.SealedOpens | pokusaj3/Pods/BoringSSL/ssl/dtls_record.cc:177-259 | A sealed record opens to its plaintext if and only if its epoch is current and its number neither used nor too old, and is otherwise dropped without a trace |
| DtlsRecord.OpensToPlaintext | pokusaj3/Pods/BoringSSL/ssl/dtls_record.cc:177-259 | A record, whatever its length, is dropped or opens to what was sealed, behind any cipher that undoes the one it was sealed with |
| DtlsSend.DtlsSender.AddOutgoing | pokusaj3/Pods/BoringSSL/ssl/d1_both.cc:541-580 | A message is added to the flight, or begins a new one after a flushed flight; the eighth is refused; only handshake messages use up a number |
| DtlsSend.DtlsSender.AddMessage | pokusaj3/Pods/BoringSSL/ssl/d1_both.cc:511-584 | The header of an added message announces its full length in one fragment under the next number |
| DtlsSend.DtlsSender.SealNextMessage | pokusaj3/Pods/BoringSSL/ssl/d1_both.cc:630-720 | The next fragment is as long as the room permits, is sealed in the epoch of its message, and the offset advances by exactly its length |
| DtlsSend.DtlsSender.SealNextPacket | pokusaj3/Pods/BoringSSL/ssl/d1_both.cc:725-766 | Messages are packed until the room is used up |
| DtlsSend.DtlsSender.SendFlight | pokusaj3/Pods/BoringSSL/ssl/d1_both.cc:768-812 | A packet that is not written restores the place in the flight, so that it is sealed again |
| DtlsSend.DtlsSender.FlushFlight | pokusaj3/Pods/BoringSSL/ssl/d1_both.cc:815-820 | A flush resumes the flight where the last write failed |
| DtlsSend.DtlsSender.Retransmit | pokusaj3/Pods/BoringSSL/ssl/d1_both.cc:822-831 | A retransmission sends the flight from its start |
| DtlsSend.FlushedFits | pokusaj3/Pods/BoringSSL/ssl/d1_both.cc:768-812 | No packet exceeds the MTU |
| DtlsProgress.PackedFills | pokusaj3/Pods/BoringSSL/ssl/d1_both.cc:725-766 | A packet that does not end the flight is full: its last fragment takes all the room that was left, or what is left cannot hold a piece of the next message |
| DtlsProgress.FlushGetsThrough | pokusaj3/Pods/BoringSSL/ssl/d1_both.cc:768-812 | With ciphers that never refuse, an MTU that can hold a piece of every message, and counters that do not wrap, no flush fails to seal or loses records, and one whose writes are all accepted writes the whole flight |
| DtlsTiling.FlightTiled | pokusaj3/Pods/BoringSSL/ssl/d1_both.cc:630-831 | Over any failed writes, failed sealings and resumed flushes, at any sequence of MTUs, the records really written cut the messages into contiguous pieces in order, exactly up to the place the flight has reached, if and only if no attempt failed after it had sealed a part of a packet; after such an attempt the gap is never closed |
| DtlsTiling.EachByteOnce | pokusaj3/Pods/BoringSSL/ssl/d1_both.cc:630-831 | Records that tile a flight carry each byte of each message exactly once, up to the place they reach |
| DtlsTiling.FlushedSealed | pokusaj3/Pods/BoringSSL/ssl/d1_both.cc:768-812 | Every record a flush writes was sealed by one of the writer's ciphers under its own epoch and number |
| DtlsConnection.SealFailureSkips | pokusaj3/Pods/BoringSSL/ssl/d1_both.cc:725-766 | A run of the sender, in one epoch, whose cipher refuses the second record of a packet: the first message is skipped without having been written |
| DtlsConnection.EndToEnd | pokusaj3/Pods/BoringSSL/ssl/d1_both.cc:297-831 | Sender, adversarial network, record layer with its replay window, and receiver together refine an in-order channel: in every reachable state the messages handed up are a prefix of those sent |
| DtlsConnection.StepValid | pokusaj3/Pods/BoringSSL/ssl/d1_both.cc:297-831 | Every move keeps the system invariant: all records on the network are authentic pieces of messages sent, sealed by the sender's ciphers, and both layers of the receiver agree on the epoch |
| DtlsConnection.FirstByte | pokusaj3/Pods/BoringSSL/include/openssl/ssl3.h:271-273 | Every record the sender writes begins with the byte 22 and is a piece of a message sent, or begins with 20 and is a ChangeCipherSpec |
| DtlsConnection.CcsReceived | pokusaj3/Pods/BoringSSL/ssl/d1_both.cc:319-338 | A ChangeCipherSpec of the current epoch that is delivered for the first time under the null cipher is available to the handshake |
| DtlsConnection.CcsBlocks | pokusaj3/Pods/BoringSSL/ssl/dtls_method.cc:81-95 | It stays, and the receiver's epoch does not change, over every run in which it is not taken |
| DtlsConnection.WalkCarriesCcs | pokusaj3/Pods/BoringSSL/ssl/d1_both.cc:644-665 | Records that tile a flight past a ChangeCipherSpec include one of it |
| DtlsConnection.Received | pokusaj3/Pods/BoringSSL/ssl/dtls_record.cc:177-259 | A delivered record reaches the handshake layer as it was sealed, unless its epoch is not the receiver's or its number is used up or too old; then nothing happens |
| DtlsConnection.TransmissionDelivers | pokusaj3/Pods/BoringSSL/ssl/d1_both.cc:297-424 | Once the records of a transmission have arrived up to and including the next message, in any order and among anything else, that message is available |
| DtlsConnection.FlightDelivers | pokusaj3/Pods/BoringSSL/ssl/d1_both.cc:768-831 | The same for a flight of the running system sent in any number of interrupted attempts, some of which may have failed, as long as none failed after it had sealed a part of a packet |
| TlsHandshake.GetFinishedEffect | pokusaj3/Pods/BoringSSL/ssl/handshake.cc:371-420 | A Finished message over the receiver's own transcript verifies, and is hashed after that and released once |
| TlsClientEvidence.FinishedDecides | pokusaj3/Pods/BoringSSL/ssl/handshake.cc:377-399 | Where the client waits for Finished, it fails on every message but the Finished that its secret demands over everything said so far, and goes on with that one |
| TlsServerEvidence.FinishedDecides | pokusaj3/Pods/BoringSSL/ssl/handshake.cc:377-399 | Where the server waits for Finished, it fails on every message but the Finished that its secret demands over everything said so far |
| TlsServerEvidence.VerifyDecides | pokusaj3/Pods/BoringSSL/ssl/handshake_server.cc:1257-1340 | A server that was shown a certificate fails on every message but a CertificateVerify that signs everything said so far |
| TlsEvidence.VerifiedIsReceived | pokusaj3/Pods/BoringSSL/ssl/handshake.cc:371-420 | A run that notes a verified Finished has taken that Finished off the connection, and it covers exactly what had been said before it |
| TlsClientEvidence.CalledGenuine | pokusaj3/Pods/BoringSSL/ssl/handshake.cc:371-467 | Over any calls and any messages of the server: every Finished that was verified was received and is right for the secret in force and the transcript before it; the Finished and the signature that were sent are those of the transcript before them; and the secret is the one derived from the key exchange |
| TlsServerEvidence.CalledGenuine | pokusaj3/Pods/BoringSSL/ssl/handshake.cc:371-467 | The same for the server, and for the signature it checked |
| TlsClientEvidence.CompletedIsAuthentic | pokusaj3/Pods/BoringSSL/ssl/handshake.cc:482-614 | A call returns 1 only if the server sent the Finished that the secret demands over everything said before it |
| TlsServerEvidence.CompletedIsAuthentic | pokusaj3/Pods/BoringSSL/ssl/handshake.cc:482-614 | A call returns 1 only if the client sent such a Finished and, if it showed a certificate, a signature of everything said before that |
| TlsClientEvidence.RejectionFails | pokusaj3/Pods/BoringSSL/ssl/handshake_client.cc:427-1699 | A run in which a check that the model does not interpret was rejected once has failed |
| TlsServerEvidence.RejectionFails | pokusaj3/Pods/BoringSSL/ssl/handshake_server.cc:426-1525 | The same for the server |
| TlsClientGrammar.CompletedGrammar | pokusaj3/Pods/BoringSSL/ssl/handshake_client.cc:528-1666 | Whatever the server sends, a call returns 1 only if the messages taken are exactly those of the grammar, in order: HelloVerifyRequest only over DTLS, a nonempty Certificate exactly if the cipher has one, a status only if announced, a key exchange if needed and not for RSA, a request only with certificates, a ticket exactly if announced, Finished |
| TlsServerGrammar.CompletedGrammar | pokusaj3/Pods/BoringSSL/ssl/handshake_server.cc:432-1449 | Whatever the client sends, a call returns 1 only if the messages taken are exactly those of the grammar, in order: a Certificate exactly if asked for, a CertificateVerify exactly if that was not empty, which it may not be where one is required, NextProto and Channel ID exactly if negotiated, Finished |
| TlsClient.StepKeepsInv | pokusaj3/Pods/BoringSSL/ssl/handshake_client.cc:427-1699 | Every state function, on any message and any outcome, keeps the client's invariant, and moves strictly closer to the end along a ranking that depends on whether a session is resumed, or changes nothing when it must be retried |
| TlsServer.StepKeepsInv | pokusaj3/Pods/BoringSSL/ssl/handshake_server.cc:426-1525 | The same for the server |
| TlsClient.RunConsumes | pokusaj3/Pods/BoringSSL/ssl/handshake_client.cc:1701-1783 | Messages are taken in the order they arrive, each once, and each is hashed exactly once despite any number of retries, except a HelloVerifyRequest, which is not hashed |
| TlsServer.RunConsumes | pokusaj3/Pods/BoringSSL/ssl/handshake_server.cc:1527-1609 | Messages are taken in the order they arrive, each once, and each is hashed exactly once despite any number of retries |
| TlsClient.CompletedRun | pokusaj3/Pods/BoringSSL/ssl/handshake_client.cc:1463-1699 | Every completed run changes each cipher once, sends one Finished after the write change and verifies one after the read change, in the order the path prescribes |
| TlsServer.CompletedRun | pokusaj3/Pods/BoringSSL/ssl/handshake_server.cc:1046-1525 | Every completed run changes each cipher once, sends one Finished after the write change and verifies one after the read change, in the order the path prescribes |
| TlsClient.CompletedCalls | pokusaj3/Pods/BoringSSL/ssl/handshake.cc:482-614 | The same over any number of calls that block, wait for an asynchronous operation or have only part of the messages: the call that returns 1 ends a run in which everything happened once and in order |
| TlsServer.CompletedCalls | pokusaj3/Pods/BoringSSL/ssl/handshake.cc:482-614 | The server's side of it |
| TlsClient.FailedStays | pokusaj3/Pods/BoringSSL/ssl/handshake.cc:487-489 | An error is final: every later call reports it and changes nothing |
| TlsClient.RanTakes | pokusaj3/Pods/BoringSSL/ssl/handshake.cc:482-614 | One call only ever takes further messages in order, and returns 1 only in the final state |
| TlsClient.Connection.Handshake | pokusaj3/Pods/BoringSSL/ssl/handshake_client.cc:1701-1783 | The loop ends in the final state or at the first state function that blocks or fails, in the state the specification gives |
| TlsServer.Connection.Handshake | pokusaj3/Pods/BoringSSL/ssl/handshake_server.cc:1527-1609 | The loop ends in the final state or at the first state function that blocks or fails, in the state the specification gives |
| TlsClient.Connection.RunHandshake | pokusaj3/Pods/BoringSSL/ssl/handshake.cc:482-614 | The loop resolves what the machine waits for and runs it again, and returns with the state and the wait the specification gives |
| TlsServer.Connection.RunHandshake | pokusaj3/Pods/BoringSSL/ssl/handshake.cc:482-614 | The loop resolves what the machine waits for and runs it again, and returns with the state and the wait the specification gives |
| TlsHonestClient.OwnMoves | pokusaj3/Pods/BoringSSL/ssl/handshake_client.cc:427-1558 | Each state in which an honest client speaks says exactly its part of the script: no message is left out, sent twice or misplaced |
| TlsHonestClient.MessageMoves | pokusaj3/Pods/BoringSSL/ssl/handshake_client.cc:528-1666 | Each state in which an honest client listens takes exactly the peer's next message of the script, or skips an optional one the peer does not send |
| TlsHonestServer.OwnMoves | pokusaj3/Pods/BoringSSL/ssl/handshake_server.cc:682-1525 | Each state in which an honest server speaks says exactly its part of the script |
| TlsHonestServer.MessageMoves | pokusaj3/Pods/BoringSSL/ssl/handshake_server.cc:432-1449 | Each state in which an honest server listens takes exactly the peer's next message of the script |
| TlsJointClient.ClientTurnGood | pokusaj3/Pods/BoringSSL/ssl/handshake.cc:482-614 | A turn of the client keeps the joint invariant: what is in the queues is exactly what lies between the places of the two sides |
| TlsJointServer.ServerTurnGood | pokusaj3/Pods/BoringSSL/ssl/handshake.cc:482-614 | A turn of the server keeps the joint invariant |
| TlsAgreement.TranscriptAgreement | pokusaj3/Pods/BoringSSL/ssl/handshake.cc:371-467 | Under every schedule of turns, delays and flushes, for every mix of full or resumed, certificate request, status, ticket, NPN and Channel ID, neither side ever reports an error; when both are done they hold the same hashed messages and secret, and hashed the same transcript at each Finished, at CertificateVerify and at the master secret |
| TlsAgreement.NoDeadlock | pokusaj3/Pods/BoringSSL/ssl/handshake.cc:482-614 | As long as one side is not done, one side can move |
| TlsAgreement.CanFinish | pokusaj3/Pods/BoringSSL/ssl/handshake.cc:482-614 | From every reachable state some schedule finishes the handshake on both sides |
| CipherChoice.ChooseCipher | pokusaj3/Pods/BoringSSL/ssl/handshake_server.cc:357-424 | The one-pass loop returns the cipher the other side likes best among the matches of the first closed group that has one, and none if and only if no closed group has one |
| CipherChoice.BestIsUnique | pokusaj3/Pods/BoringSSL/ssl/internal.h:1864-1897 | The choice is unique: no two best entries differ in what is chosen |
| AppData.Writer.DoWrite | pokusaj3/Pods/BoringSSL/ssl/s3_pkt.cc:221-289 | A pending record is flushed without sealing another; otherwise one record is sealed, and counted only when it is flushed |
| AppData.Writer.WriteAppData | pokusaj3/Pods/BoringSSL/ssl/s3_pkt.cc:129-200 | A write goes on exactly where the last one stopped; every record is as long as the fragment size, the data and the cap on early data permit; as long as early data is on, the bytes sealed in all are those counted and those pending, and never exceed the limit of the ticket; a handshake is asked for exactly when early data ends, at the limit; and if every attempt succeeds, so does the call |
| AppData.RepeatedWrite | pokusaj3/Pods/BoringSSL/ssl/s3_pkt.cc:129-200 | Over any number of blocked attempts the records sealed are consecutive pieces of the data, without a gap or a repetition, and exactly the bytes counted when the write succeeds; all that was ever sealed in early data stays within the limit of the ticket; and an attempt that nothing blocks completes the write or reaches that limit |
| RefCount.Refines | pokusaj3/Pods/BoringSSL/crypto/refcount_c11.c:37-65 | Every atomic access is either one locked operation with its result, or leaves the count alone |
| RefCount.RunRefines | pokusaj3/Pods/BoringSSL/crypto/refcount_lock.c:29-51 | Every interleaving of any number of threads, with spurious failures, is a sequence of locked operations with the same results and count |
| RefCount.SaturatedStays | pokusaj3/Pods/BoringSSL/crypto/refcount_c11.c:37-65 | A full count stays full for ever |
| RefCount.CountsReferences | pokusaj3/Pods/BoringSSL/crypto/refcount_c11.c:37-65 | Until it is full, the count is the number of references held, and zero is reported exactly once, when the last is dropped |
| RefCount.CountPositive | pokusaj3/Pods/BoringSSL/crypto/refcount_c11.c:53-56 | A thread that holds a reference never meets the count of zero that aborts |

## Left out

Weaker than what one might expect:

- RoundTrip.DecodeEncode: each delimited payload is below 2^32 bytes, because its length is read back in 32 bits; strings hold no zero byte, required-field counts are below 64 and not a nonzero multiple of 32 (the final shift is undefined in C), and singular proto3 fields are scalar.
- RoundTrip.UnknownFieldsAreSkipped: under the same conditions.
- Merge.LastOneWins: under the same conditions.
- Overflow.RoomDecides: under the same conditions; the struct is one of the reader's schema.
- Merge.MergeLaw: contents of the struct after a failed decode are not specified.
- Decoded.DecodedTidy: the members are large enough for the declared defaults; what a failed decode leaves in the struct is not specified.
- PbCommon.MaskCompleteExactly: for required-field counts below 64 that are zero or not a multiple of 32, where the shift is defined.
- DtlsConnection.EndToEnd: for fewer than 2^16 messages; every record that opens at the receiver was written by the sender, and the receiver's cipher is the one that undoes it.
- DtlsDelivery.InOrderDelivery: for fewer than 2^16 messages, after which the numbers repeat.
- DtlsDelivery.AvailableExactly: for deliveries that the receiver accepts or that belong to the past. One that arrives too early for the window is refused or ignored, and has to arrive again.
- DtlsDelivery.NewEpochExactly: under the same conditions.
- DtlsDelivery.RunContained: for fewer than 2^16 - 1 messages handed up.
- DtlsProgress.FlushGetsThrough: every message is in the current epoch or the one before, and the MTU is below 2^16.
- DtlsRecord.EpochsKeepCiphers: as long as no counter and no epoch wraps.
- DtlsRecord.RecordNumbersUnique: as long as no counter and no epoch wraps; the counterexample is DtlsRecord.WrappedCounterRepeats.
- DtlsRecord.AcceptedOnce: as long as the epoch does not wrap.
- DtlsRecord.RecordWriter.Seal: the cipher gets the epoch and the number, not the eight bytes they form.
- TlsClient.StepKeepsInv: the state functions `do_*` are functions on a record of the handshake state. Only the drivers update it in place, so aliasing between handshake, session and transcript is not captured.
- TlsServer.StepKeepsInv: as for the client.
- TlsClient.CompletedCalls: how many calls it takes is not bounded; a call may block as often as the transport does.
- TlsClientGrammar.CompletedGrammar: the contents of messages are checked only as far as the model interprets them; the rest is the freely chosen verdict.
- TlsServerGrammar.CompletedGrammar: as for the client.
- TlsAgreement.TranscriptAgreement: both sides are set up for the same parameters, and no uninterpreted check rejects.
- RefCount.CountsReferences: every thread starts with one reference, and acts only while it holds one.
- AppData.RepeatedWrite: begins with nothing pending from an earlier write.

Not modelled:

- nanopb: callbacks, extension fields, pointer fields and `malloc`, custom streams, overflow of `size_t`, and the layout of structs in memory, for which places in a map stand.
- nanopb: `pb_encode_delimited`, `pb_decode_delimited` and `pb_release`, which add nothing to the functions they call.
- DTLS: timers, the query of the MTU and the BIO layer; the outcome of each write and each MTU are free inputs. `flight_has_reply` and `write_shutdown` are not kept.
- DTLS: the contents of alerts; an alert record is one outcome of opening.
- DTLS: HelloVerifyRequest on the server, which BoringSSL does not send.
- TLS: TLS 1.3, SSL 3.0, renegotiation, False Start, 0-RTT and V2ClientHello.
- TLS: the check for leftover handshake data when the read cipher changes, which concerns record framing.
- TLS: certificate and extension parsing, session lookup and key exchange; their results are inputs.
- TLS: the server never sends an empty ticket here, although the client accepts one.
- Cipher choice: version and key-type checks are one predicate on ciphers.
- Application data: the record type of a pending write, and the capacity of the write buffer.
- Reference count: how references pass between threads other than by hand-over.
