# Verified model of securepath's codec, packet storage, certificate chains, message transport and event loop

A Dafny model of the parts of the C++ repository whose correctness rests on state that
several functions or threads share, with proofs about every input and every run.

* **ASN.1 DER codec.** Integers, tags, lengths and reals down to their octets, in the
  loops that the source fills its buffers with; the encoder's stack of open layers; the
  buffered stream with nested peeks; the decoder's stack of end positions; the serialiser
  and deserialiser over them, with implicit and explicit tags, optional fields and
  containers. The classes are proved against recursive functions (`AsnSchema.ValueOctets`,
  `AsnDecode.Decode`), and those against each other: decoding an encoding gives back the
  value exactly when it is within the decoder's limits, provided that each absent optional
  field differs in tag from what comes next; for optional primitives and explicitly tagged
  fields that condition is exact too. `AsnWire` says in the numbers of X.690 which octets
  each kind of value gets, and `AsnForeign` exactly which octets the decoder takes from
  anyone. `Deframer` cuts a stream of chunks into elements and is proved independent of the
  chunking.
* **Packet storage.** `PacketStorage` is the class, one method per critical section or
  atomic access; `PacketProtocol` lets any number of inserting, acking and reading
  threads, the database thread and a closing thread interleave those steps, and proves an
  inductive invariant and what follows from it; `PacketReports` says what the callers are
  told.
* **Certificate chains.** Hostname restrictions as an order with `merge` as its greatest
  lower bound; chain validation as a loop, chain growth link by link, and the depth-first
  search for a chain, which is proved to terminate and to find one exactly if there is one.
* **Message transport.** Frames and the frame reader, the write queue and plaintext
  buffer of the TLS stream, how each call on that stream is answered, the connection's send
  queue, and a pipeline of all of them from `send` to the received notification.
* **Event loop.** The queues, timers and cached next trigger, and runs of the loop with
  other threads that emit, start and stop timers and remove receivers; what a timer does is
  told by its handle.

Octets are integers from 0 to 255, numbers are unbounded unless a width is written out
(`Octets.Wrap64`, `% TWO32`), and C++ exceptions and error codes are values. What the
environment decides (how a socket splits its data, whether a database statement or a
write goes through, the time, which records the TLS library makes, which signatures are
good) is a parameter, and the results hold for every choice of it.

Modules follow the source files. A class has the fields of the source's class; its methods
say what the new state is in terms of functions on a datatype (`View()`), and the lemmas
about whole runs are about those functions. The longest-ranging results are
`AsnRoundTrip.RoundTrip`, `AsnConfusion.RoundTripExactly`, `Deframer.FeedIsSplit`,
`PacketProtocol.AckedPacketsLeave`, `PacketProtocol.NotifiedStaysStored`,
`PacketProtocol.PendingMissesAtMostTheOneInHand`, `ChainBuilder.CreateCertificateChain`,
`TlsWrites.SuccessMeansWritten`, `TlsReads.HandedOutInOrder`,
`Pipeline.ReceivedIsPrefixOfSent` and `EventLoopRuns.NeverOversleeps`.

Three things the code does not do, although one might expect them, are stated with an
input or a run that shows it and with the exact condition: an absent optional field can
take the element after it (`AsnConfusion.AbsentFieldTakesTheNext`, `RoundTripExactly`),
`close()` does not always write everything that is queued
(`PacketProtocol.CloseCanLosePacket` and `CloseCanKeepAcked`; the conditions are in
`AckedSurvivesExactly` and `ClosedStoresExactly`), and the decoder cuts over-long unsigned
integers instead of refusing them (`AsnInteger.AcceptedUnsignedIsExact`,
`OverlongUnsignedIsCut`).

`dafny verify dfyconfig.toml` checks the project.

## Model

| member | source | states |
|---|---|---|
| `AsnInteger.IntegerRoundTrip` | securepath/serialisation/codec/asn_der/util.hpp:83-105 | For every integer, of any size, the content octets denote it in two's complement |
| `AsnInteger.TypedIntegerRoundTrip` | securepath/serialisation/codec/asn_der/asn_der_decoder.hpp:278-297 | Every value of every signed and unsigned type of 1 to 8 octets survives encoding and typed decoding, the nine-octet unsigned and the most negative values included |
| `AsnInteger.ShortestIsCanonical` | securepath/serialisation/codec/asn_der/util.hpp:83-89 | A non-empty octet string is what the encoder writes for its value if and only if it is the shortest two's-complement form (X.690 section 8.3.2) |
| `AsnInteger.TwosComplementUnique` | securepath/serialisation/codec/asn_der/util.hpp:61-105 | A string of n octets denotes a value exactly when it is the n low octets of that value |
| `AsnInteger.UnsignedSize` | securepath/serialisation/codec/asn_der/asn_der_decoder.hpp:283-286 | How many octets a value of an unsigned type takes: one more than its width exactly when its top bit is set |
| `AsnInteger.AcceptedUnsignedIsExact` | securepath/serialisation/codec/asn_der/asn_der_decoder.hpp:278-297 | On foreign input, an accepted unsigned integer keeps its value if and only if it has no more octets than the type or starts with a zero octet |
| `AsnInteger.OverlongUnsignedIsCut` | securepath/serialisation/codec/asn_der/asn_der_decoder.hpp:283-297 | A concrete over-long unsigned integer that is accepted and cut |
| `AsnUtil.HighestBitBlock` | securepath/serialisation/codec/asn_der/util.hpp:30-39 | The loop over bits finds the number of digits, less one, that the low bits the hint covers (with a sign bit where asked) need in base 2^block, for the blocks used; the division truncates as in C++ |
| `AsnUtil.BitsFromPositionIsDigit` | securepath/serialisation/codec/asn_der/util.hpp:41-45 | Shifting and masking takes out a digit of the value, and 0 past its width |
| `AsnUtil.EncodeToOctets` | securepath/serialisation/codec/asn_der/util.hpp:47-59 | The loop leaves in the buffer exactly the shortest digit string of the value, the mask added to each digit, and returns its length; the rest of the buffer is untouched |
| `AsnUtil.DecodeFromOctets` | securepath/serialisation/codec/asn_der/util.hpp:61-72 | The accumulating loop computes the value of the octets modulo 2^64 |
| `AsnUtil.TranslateNegative` | securepath/serialisation/codec/asn_der/util.hpp:74-81 | A negative number becomes the unsigned number with the same shortest two's-complement octets |
| `AsnUtil.EncodeInteger` | securepath/serialisation/codec/asn_der/util.hpp:83-89 | The buffer holds exactly the shortest two's-complement octets of the value |
| `AsnUtil.ReadInteger` | securepath/serialisation/codec/asn_der/util.hpp:91-105 | On any octets, none and more than the type holds included, the complement-and-negate code gives AsnUtil.IntegerRead |
| `AsnUtil.ReadFits` | securepath/serialisation/codec/asn_der/util.hpp:91-105 | Octets that fit the hint and the type are read as their two's-complement value |
| `AsnUtil.LongIntegerIsCut` | securepath/serialisation/codec/asn_der/util.hpp:91-105 | Of more octets than the type holds, not negative, exactly the low ones count |
| `AsnUtil.NoOctetsRead` | securepath/serialisation/codec/asn_der/util.hpp:91-105 | An exponent of no octets reads as 0, or as -256 if the octet that follows has its top bit set |
| `AsnUtil.DecodeTyped` | securepath/serialisation/codec/asn_der/asn_der_decoder.hpp:278-297 | The typed decoding code agrees with the specification AsnInteger.DecodeInteger on every input, refusals included |
| `AsnHeader.HeaderRoundTrip` | securepath/serialisation/codec/asn_der/asn_der_decoder.hpp:198-250 | Every class, 64-bit tag and length reads back as itself whatever octets follow, ending exactly after the header, if the length is within the limit for its kind, and is refused otherwise |
| `AsnHeader.NoLeadingZero` | securepath/serialisation/codec/asn_der/asn_der_encoder.hpp:113-158 | No leading zero septet in long tags and no leading zero octet in long lengths (X.690 sections 8.1.2.4.2 and 10.1) |
| `AsnHeader.HeaderIsShortest` | securepath/serialisation/codec/asn_der/asn_der_encoder.hpp:113-158 | Among all octet strings the decoder accepts as a given header, the encoder's is the shortest |
| `AsnHeader.HeaderStable` | securepath/serialisation/codec/asn_der/asn_der_decoder.hpp:198-250 | A header read from a prefix of the input is read the same from all of it |
| `AsnHeader.LongTagRoundTrip` | securepath/serialisation/codec/asn_der/asn_der_decoder.hpp:198-209 | The base-128 loop reads back every tag above 30 that the encoder writes |
| `AsnHeader.LengthRoundTrip` | securepath/serialisation/codec/asn_der/asn_der_decoder.hpp:215-229 | Short and long lengths read back as themselves |
| `AsnReal.RealRoundTrip` | securepath/serialisation/codec/asn_der/util.hpp:201-286 | Every double except a subnormal one, zeros, infinities and NaN included, decodes to itself |
| `AsnReal.NormalRoundTrip` | securepath/serialisation/codec/asn_der/util.hpp:167-272 | Every normal double decodes to the same sign, significand and exponent |
| `AsnRealLoops.ExportMantissa` | securepath/serialisation/codec/asn_der/util.hpp:127-143 | The multiply-by-256 loop leaves all bits of the mantissa in the buffer: the octets denote the significand scaled by a power of two, and the last one returned is not zero |
| `AsnRealLoops.LeastSignificantBit` | securepath/serialisation/codec/asn_der/util.hpp:150-153 | Position of the lowest set bit of the last octet |
| `AsnRealLoops.ShiftRight` | securepath/serialisation/codec/asn_der/util.hpp:155-162 | The in-place loop shifts the whole octet string right as one number |
| `AsnRealLoops.ShiftVal` | securepath/serialisation/codec/asn_der/util.hpp:155-162 | What shifting the octets does to the number they denote |
| `AsnRealLoops.NormaliseMantissa` | securepath/serialisation/codec/asn_der/util.hpp:145-165 | Shifts until the mantissa is odd, by at most seven bits, losing none that is set |
| `AsnRealLoops.NormalisedIsOddPart` | securepath/serialisation/codec/asn_der/util.hpp:127-165 | The exported and normalised octets are the odd part of the significand (X.690 section 11.3.1), and mantissa times 2^exponent is unchanged |
| `AsnRealLoops.EncodeNormalReal` | securepath/serialisation/codec/asn_der/util.hpp:167-199 | The octets put together in the buffer are the encoding AsnReal.RealOctets |
| `AsnRealLoops.EncodeReal` | securepath/serialisation/codec/asn_der/util.hpp:107-206 | Special values get their one or no octet, normal ones their binary form, subnormal ones are refused |
| `AsnRealLoops.ReadReal` | securepath/serialisation/codec/asn_der/util.hpp:208-286 | Reading agrees with AsnReal.DecodeReal on every input, refusals and exponents of any length included |
| `OctetStream.SpanStream.Read` | securepath/serialisation/octet_vector_stream.cpp:20-31 | All or nothing; a short read exhausts the stream |
| `OctetStream.VectorSink.Write` | securepath/serialisation/octet_vector_stream.cpp:43-58 | The vector is overwritten at the write position and grown as needed, with zeros up to a position past its end |
| `OctetStream.BufferedStream.Read` | securepath/serialisation/codec/asn_der/buffered_stream.hpp:32-68 | Under any open peeks, returns the octets at the cursor and advances it, or fails exactly if too few are left |
| `OctetStream.BufferedStream.ReadFromBuffer` | securepath/serialisation/codec/asn_der/buffered_stream.hpp:40-53 | What is buffered is served first, and dropped when consumed outside a peek, without moving the cursor otherwise |
| `OctetStream.BufferedStream.ReadFromStream` | securepath/serialisation/codec/asn_der/buffered_stream.hpp:55-68 | What the stream gives is kept while peeking |
| `OctetStream.BufferedStream.ReadableBytes` | securepath/serialisation/codec/asn_der/buffered_stream.hpp:70-91 | Tells whether that many octets can be read and never moves the position; a yes, and a no at the end of the stream, leave the whole cursor as it was |
| `OctetStream.BufferedStream.StartPeek` | securepath/serialisation/codec/asn_der/buffered_stream.hpp:97-100 | Marks the cursor position, nested in the peeks already open |
| `OctetStream.BufferedStream.EndPeek` | securepath/serialisation/codec/asn_der/buffered_stream.hpp:102-108 | A commit keeps the cursor, a rollback puts it back where the innermost peek began; after a failed read it still gives the position back |
| `AsnEncoder.EncoderState.StartEnd` | securepath/serialisation/codec/asn_der/asn_der_encoder.hpp:78-105 | A layer opened, filled and closed is, in the layer below, one header with the true length of the content followed by the content |
| `AsnEncoder.EventsWrite` | securepath/serialisation/codec/asn_der/asn_der_encoder.hpp:78-105 | The calls made for any value append exactly its recursive encoding to the innermost open layer, and to the stream when none is open |
| `AsnEncoder.NothingBeforeClose` | securepath/serialisation/codec/asn_der/asn_der_encoder.hpp:160-181 | For every structured value and every point before its last call, nothing has reached the stream |
| `AsnSerialiser.Encoder.Write` | securepath/serialisation/codec/asn_der/asn_der_encoder.hpp:160-170 | Goes to the innermost open layer, or to the stream |
| `AsnSerialiser.Encoder.StartSequence` | securepath/serialisation/codec/asn_der/asn_der_encoder.hpp:78-84 | Opens a layer with the class and tag of the pending tag, or the sequence tag |
| `AsnSerialiser.Encoder.EndSequence` | securepath/serialisation/codec/asn_der/asn_der_encoder.hpp:86-93 | Closes the innermost layer into the one below, its length set to what it holds |
| `AsnSerialiser.Encoder.EncodeTag` | securepath/serialisation/codec/asn_der/asn_der_encoder.hpp:113-136 | Writes exactly the identifier octets AsnHeader.TagOctets |
| `AsnSerialiser.Encoder.LongTag` | securepath/serialisation/codec/asn_der/asn_der_encoder.hpp:121-128 | Septets from the shared octet loop, the last one unmarked |
| `AsnSerialiser.Encoder.EncodeLength` | securepath/serialisation/codec/asn_der/asn_der_encoder.hpp:138-153 | Writes exactly the length octets AsnHeader.LengthOctets |
| `AsnSerialiser.Encoder.EncodeHeader` | securepath/serialisation/codec/asn_der/asn_der_encoder.hpp:155-158 | Writes exactly AsnHeader.HeaderOctets |
| `AsnSerialiser.Encoder.EncodePrimitive` | securepath/serialisation/codec/asn_der/asn_der_encoder.hpp:183-235 | Writes a primitive's header and content, or refuses it exactly if it is a string over the limit or a subnormal real |
| `AsnSerialiser.Serialiser.Serialise` | securepath/serialisation/serialiser.hpp:26-95 | Refuses exactly a value that holds something the encoder refuses; otherwise appends exactly the recursive encoding, with tags pending and explicit as in the source |
| `AsnSerialiser.Serialiser.SerialiseFields` | securepath/serialisation/serialiser.hpp:66-78 | Absent optional fields write nothing, present ones their encoding, in order |
| `AsnSerialiser.Serialiser.SerialiseItems` | securepath/serialisation/container.hpp:11-18 | The elements' encodings in order |
| `AsnSerialiser.AsnDerSerialise` | securepath/serialisation/util.hpp:45-52 | The vector returned is the recursive encoding of the value, for every value the encoder does not refuse |
| `AsnWire.WireForm` | securepath/serialisation/codec/asn_der/asn_der_encoder.hpp:27-158 | Every encoding is identifier, length and content octets: identifier 0x01 for a boolean, 0x02 integers, 0x04 octet strings, 0x09 reals, 0x14 text, 0x30 sequences and containers, 0x80 + t or, for a structure, 0xA0 + t under an implicit or explicit tag t up to 30, 0x9F or 0xBF with the number in septets above that; length in one octet up to 127, else in the fewest octets after 0x80 plus their number |
| `AsnWire.ContentForm` | securepath/serialisation/codec/asn_der/asn_der_encoder.hpp:183-235 | The content of a boolean is one octet, 0 or 1, that of an integer the shortest two's-complement form, that of a string its octets, that of a real as in RealOctetsForm, and that of an explicit tag the whole inner encoding with any pending tag on it |
| `AsnWire.RealOctetsForm` | securepath/serialisation/codec/asn_der/util.hpp:107-206 | One octet or none for special values (0x40 to 0x43); else sign and exponent length in the first, the exponent in two's complement, an odd mantissa without a leading zero octet, and mantissa times 2^exponent equal to the value |
| `AsnWire.RefusedExactly` | securepath/serialisation/codec/asn_der/asn_der_encoder.hpp:207-213 | Of typed primitives the encoder refuses exactly strings of more than 2097152 octets and subnormal reals |
| `AsnWire.FieldsInOrder` | securepath/serialisation/serialiser.hpp:66-78 | Fields are encoded one after the other, in order |
| `AsnWire.ItemsInOrder` | securepath/serialisation/container.hpp:11-18 | And so are the elements of a container |
| `AsnDeserialiser.Decoder.DecodeLongTag` | securepath/serialisation/codec/asn_der/asn_der_decoder.hpp:198-209 | Agrees with AsnHeader.ReadLongTag, too long tags refused |
| `AsnDeserialiser.Decoder.DecodeLength` | securepath/serialisation/codec/asn_der/asn_der_decoder.hpp:215-229 | Agrees with AsnHeader.ReadLength |
| `AsnDeserialiser.Decoder.DecodeHeader` | securepath/serialisation/codec/asn_der/asn_der_decoder.hpp:241-250 | Agrees with AsnHeader.ReadHeader, the size limits included |
| `AsnDeserialiser.Decoder.OpenElement` | securepath/serialisation/codec/asn_der/asn_der_decoder.hpp:252-269 | Agrees with AsnDecode.Open: missing at the end of a sequence or of the input outside any, or on another tag; malformed on a bad header |
| `AsnDeserialiser.Decoder.PushEnd` | securepath/serialisation/codec/asn_der/asn_der_decoder.hpp:183-188 | Remembers the end position, refusing a 65th open structure |
| `AsnDeserialiser.Decoder.PopEnd` | securepath/serialisation/codec/asn_der/asn_der_decoder.hpp:190-196 | The octet-by-octet loop stops at the end of the innermost structure, or fails when the input ends first |
| `AsnDeserialiser.Decoder.StartStructure` | securepath/serialisation/codec/asn_der/asn_der_decoder.hpp:108-128 | Opens a constructed element and pushes its end |
| `AsnDeserialiser.Decoder.DecodePrimitive` | securepath/serialisation/codec/asn_der/asn_der_decoder.hpp:271-320 | Agrees with AsnDecode.DecodePrim for every kind of primitive |
| `AsnDeserialiser.Decoder.NextLength` | securepath/serialisation/codec/asn_der/asn_der_decoder.hpp:151-160 | Size of the next element from its header, 0 without one; the peek is ended and the position comes back on every path |
| `AsnDeserialiser.Decoder.HasNext` | securepath/serialisation/codec/asn_der/asn_der_decoder.hpp:162-171 | Size of the element that lies whole at the position, or 0; the position is kept either way |
| `AsnDeserialiser.Deserialiser.Deserialise` | securepath/serialisation/deserialiser.hpp:26-77 | Agrees with AsnDecode.Decode on every schema and every input, well-formed or not |
| `AsnDeserialiser.Deserialiser.DeserialiseField` | securepath/serialisation/deserialiser.hpp:79-97 | An optional field that is missing leaves the position where it was, other failures go on |
| `AsnDeserialiser.Deserialiser.DeserialiseItems` | securepath/serialisation/container.hpp:20-36 | Elements up to the end of the sequence; one that consumes nothing is an error, so the loop ends |
| `AsnDeserialiser.AsnDerDeserialise` | securepath/serialisation/util.hpp:54-59 | The value returned, or the failure, is that of AsnDecode.Decode from the start of the octets |
| `AsnForeign.HeaderReadExactly` | securepath/serialisation/codec/asn_der/asn_der_decoder.hpp:198-250 | On any input, a header is read if and only if the octets are one: class, form and tag bits, length, and at most 2097152 octets of a primitive element or 536870912 of a structure |
| `AsnForeign.LongTagReadExactly` | securepath/serialisation/codec/asn_der/asn_der_decoder.hpp:198-209 | A long tag is read if and only if it has at most ten septets, all but the last marked, and its number is cut to 64 bits |
| `AsnForeign.LengthReadExactly` | securepath/serialisation/codec/asn_der/asn_der_decoder.hpp:215-229 | A length is read if and only if it is one octet up to 127 or has 1 to 8 octets of its own; no indefinite form |
| `AsnForeign.PrimitiveReadExactly` | securepath/serialisation/codec/asn_der/asn_der_decoder.hpp:252-320 | On any input, a primitive is missing if and only if nothing more is there or the next header is another's, and read if and only if its content is there and good |
| `AsnForeign.BooleanReadExactly` | securepath/serialisation/codec/asn_der/asn_der_decoder.hpp:28-32 | A boolean is read from one octet only, as false if and only if that is 0 |
| `AsnForeign.SequenceReadExactly` | securepath/serialisation/codec/asn_der/asn_der_decoder.hpp:108-119 | A sequence is read if and only if its header is constructed and its own, fewer than 64 are open, its fields are read inside, and its end is within the input; reading goes on at that end, or where the fields stopped if they ran past it |
| `AsnForeign.SequenceMissingExactly` | securepath/serialisation/codec/asn_der/asn_der_decoder.hpp:183-196 | A field missing inside makes the sequence missing if it can be left, and the input lost if that ends before the sequence does |
| `AsnForeign.ContainerReadExactly` | securepath/serialisation/container.hpp:20-36 | The same for a container |
| `AsnForeign.ContainerMissingExactly` | securepath/serialisation/container.hpp:20-36 | And likewise for an element missing in a container |
| `AsnForeign.ExplicitReadExactly` | securepath/serialisation/codec/asn_der/asn_der_decoder.hpp:121-132 | The same for an explicit tag, which leaves a pending implicit tag to the element inside |
| `AsnForeign.FieldsReadExactly` | securepath/serialisation/deserialiser.hpp:79-97 | On any input, a field is present if and only if its element can be read, and absent only if it is optional and missing, the position then coming back; anything else is an error |
| `AsnForeign.ItemsReadExactly` | securepath/serialisation/container.hpp:20-36 | Elements are read one after the other up to the end of the container, each taking at least one octet |
| `AsnForeign.RealRefusedExactly` | securepath/serialisation/codec/asn_der/util.hpp:208-286 | On any content octets, a real is refused if and only if a lone octet is not one of the four special values, or more are not a binary real in base 2 without scaling, or end before the mantissa |
| `AsnForeign.RealReadExactly` | securepath/serialisation/codec/asn_der/util.hpp:208-272 | With an exponent of up to four octets, a normal double is read if and only if it is the one that sign, mantissa and exponent denote |
| `AsnRoundTrip.RoundTrip` | securepath/serialisation/util.hpp:23-59 | For every schema, every value whose absent optional fields differ in tag from what comes next, and whatever octets follow: decoding the encoding gives the value and stops exactly at its end if sizes and depth are within the limits, and fails otherwise |
| `AsnConfusion.RoundTripExactly` | securepath/serialisation/deserialiser.hpp:53-97 | On every schema whose optional fields are primitives or explicitly tagged, decoding gives the value back and ends cleanly just after its encoding if and only if it is within the limits and each absent field differs in tag from what comes next |
| `AsnConfusion.FirmTaken` | securepath/serialisation/deserialiser.hpp:79-97 | Such a field, when its tag comes next, is never found missing with all sequences closed again |
| `AsnConfusion.AbsentFieldTakesTheNext` | securepath/serialisation/deserialiser.hpp:79-97 | A value within the limits that does not come back: an absent optional integer before an integer |
| `AsnConfusion.SequenceLooksInside` | securepath/serialisation/deserialiser.hpp:79-97 | A value that comes back although an absent optional sequence is followed by a sequence: the attempt fails inside and is undone |
| `AsnSchema.DistinguishableTold` | securepath/serialisation/deserialiser.hpp:79-97 | On a schema whose optional fields differ in tag from whatever may come next, every value meets the tag condition |
| `AsnRoundTrip.ElementRoundTrip` | securepath/serialisation/deserialiser.hpp:53-97 | The same as RoundTrip from any decoder state, inside any open sequences and with a pending tag |
| `AsnRoundTrip.FieldsRoundTrip` | securepath/serialisation/deserialiser.hpp:79-97 | A list of fields comes back as it was, with any optional ones absent that differ in tag from the next present field |
| `AsnRoundTrip.ItemsRoundTrip` | securepath/serialisation/container.hpp:20-36 | The elements of a container, each meeting the tag condition, come back in order, ending at its end |
| `AsnRoundTrip.AbsentElement` | securepath/serialisation/deserialiser.hpp:79-97 | Trying to read an element whose tag is not the next one, or at the end, leaves the open sequences alone and uses up the pending tag |
| `Deframer.PacketDeserialiser.DoCheck` | securepath/serialisation/util.hpp:115-140 | Refused with nothing changed exactly if the buffer would pass its cap; otherwise hands over the whole elements of buffer and chunk, in order, and keeps exactly the rest |
| `Deframer.SplitConcat` | securepath/serialisation/util.hpp:115-140 | Splitting in two goes, the first rest put in front of the second part, gives what splitting at once gives |
| `Deframer.FeedIsSplit` | securepath/serialisation/util.hpp:115-140 | Any chunking of a stream gives the same elements in the same order, and the same rest, as the whole stream at once |
| `Deframer.RestIsPartial` | securepath/serialisation/util.hpp:128-139 | What stays in the buffer holds no whole element |
| `Deframer.NextElementStable` | securepath/serialisation/codec/asn_der/asn_der_decoder.hpp:151-171 | An element found stays the same when more input arrives |
| `Deframer.EncodedIsElement` | securepath/serialisation/codec/asn_der/asn_der_decoder.hpp:151-171 | The encoding of a value within the limits is one element |
| `Deframer.DeframingIsLossless` | securepath/serialisation/util.hpp:115-140 | Elements sent one after the other and delivered in any chunks come out one by one, whole, in order, with nothing left |
| `PacketStorage.PacketStorage.Insert` | securepath/infrastructure/packet_transport/server/server_lib/packet_storage.cpp:68-87 | Takes the next ack, and puts the packet into queue and index |
| `PacketStorage.PacketStorage.TestAndSet` | securepath/infrastructure/packet_transport/server/server_lib/packet_storage.cpp:89-96 | Sets the packet's flag and tells what it was |
| `PacketStorage.PacketStorage.PushRemoval` | securepath/infrastructure/packet_transport/server/server_lib/packet_storage.cpp:98-102 | Queues the removal |
| `PacketStorage.PacketStorage.Remove` | securepath/infrastructure/packet_transport/server/server_lib/packet_storage.cpp:89-103 | Alone: the removal is queued unless the packet was there with its flag clear |
| `PacketStorage.PacketStorage.NextPacket` | securepath/infrastructure/packet_transport/server/server_lib/packet_storage.cpp:151-177 | Takes at most one packet, with its index entry, and one removal; says to go on unless closed |
| `PacketStorage.PacketStorage.WriteToDatabase` | securepath/infrastructure/packet_transport/server/server_lib/packet_storage.cpp:179-203 | Stores the row, unless the database fails or the key is taken |
| `PacketStorage.PacketStorage.RemoveFromDatabase` | securepath/infrastructure/packet_transport/server/server_lib/packet_storage.cpp:236-244 | Takes the row out, unless the database fails |
| `PacketStorage.PacketStorage.RemoveFromIndex` | securepath/infrastructure/packet_transport/server/server_lib/packet_storage.cpp:225-234 | Takes out the entry of that receiver and ack |
| `PacketStorage.PacketStorage.ThreadRound` | securepath/infrastructure/packet_transport/server/server_lib/packet_storage.cpp:205-223 | Alone: stores the packet unless it was acked, tells the sender unless storing failed, then removes |
| `PacketStorage.PacketStorage.PurgeQueues` | securepath/infrastructure/packet_transport/server/server_lib/packet_storage.cpp:246-258 | Alone: both loops, given by folds over the two queues |
| `PacketStorage.PurgeStoresAndRemoves` | securepath/infrastructure/packet_transport/server/server_lib/packet_storage.cpp:246-258 | On a working database a purge stores exactly the queued packets nobody acked and takes out exactly what the remove queue names |
| `PacketStorage.PacketStorage.CollectPending` | securepath/infrastructure/packet_transport/server/server_lib/packet_storage.cpp:108-118 | The receiver's packets that index entries still lead to |
| `PacketStorage.MergePending` | securepath/infrastructure/packet_transport/server/server_lib/packet_storage.cpp:120-148 | The list is strictly ascending by ack and has exactly the acks found in index and table |
| `PacketStorage.SortByAck` | securepath/infrastructure/packet_transport/server/server_lib/packet_storage.cpp:136-139 | Ascending, and a permutation |
| `PacketStorage.UniqueByAck` | securepath/infrastructure/packet_transport/server/server_lib/packet_storage.cpp:141-146 | Strictly ascending with the same acks |
| `PacketProtocol.InvKept` | securepath/infrastructure/packet_transport/server/server_lib/packet_storage.cpp:56-258 | Every step of every thread keeps the invariant |
| `PacketProtocol.RunInv` | securepath/infrastructure/packet_transport/server/server_lib/packet_storage.cpp:28-258 | So every state of every run satisfies it |
| `PacketProtocol.AckedPacketsLeave` | securepath/infrastructure/packet_transport/server/server_lib/packet_storage.cpp:89-103 | In every reachable state, an acked packet in the database or about to be written has its removal queued or in the database thread's hands, unless that removal was lost |
| `PacketProtocol.DrainedHoldsNoAcked` | securepath/infrastructure/packet_transport/server/server_lib/packet_storage.cpp:151-223 | With no removal left to do, the acked packets in the database are exactly the stored ones whose removal was lost |
| `PacketProtocol.AckedSurvivesExactly` | securepath/infrastructure/packet_transport/server/server_lib/packet_storage.cpp:151-258 | In any run with no removal left to do, a packet in the database is acked if and only if some step lost its removal: a delete of it that failed, the last call of next_packet with it at the head of the remove queue, or the purge clearing it away after it was pushed during its loop |
| `PacketProtocol.LossExactly` | securepath/infrastructure/packet_transport/server/server_lib/packet_storage.cpp:151-258 | For each packet, its removal is recorded as lost, or it as dropped, if and only if some step of the run met the guard that loses or drops it |
| `PacketProtocol.InExactlyOnePlace` | securepath/infrastructure/packet_transport/server/server_lib/packet_storage.cpp:68-87 | Before close, a packet neither acked nor failed is in exactly one of queue (if and only if indexed), hand and database, with its row as sent |
| `PacketProtocol.AcksAscend` | securepath/infrastructure/packet_transport/server/server_lib/packet_storage.cpp:68-87 | Acks are at least 1 and strictly ascend from stored over in hand and queued to the sequence number |
| `PacketProtocol.WritesNeverCollide` | securepath/infrastructure/packet_transport/server/server_lib/packet_storage.cpp:179-203 | A write, by the database thread or the purge, never meets a taken primary key |
| `PacketProtocol.NoticesAreTrue` | securepath/infrastructure/packet_transport/server/server_lib/packet_storage.cpp:205-223 | A sender is told at most once, and only when its packet is stored or was acked before |
| `PacketProtocol.NotifiedStaysStored` | securepath/infrastructure/packet_transport/server/server_lib/packet_storage.cpp:205-258 | A notified packet nobody acked is in the database with the same row at every later moment, through close and purge |
| `PacketProtocol.PendingMissesAtMostTheOneInHand` | securepath/infrastructure/packet_transport/server/server_lib/packet_storage.cpp:105-149 | With the index read at one moment of any run and the table at a later one, the list misses of the un-acked packets present at the first at most the one then in hand, and that only if it is unwritten at the second |
| `PacketProtocol.PendingIsForReceiver` | securepath/infrastructure/packet_transport/server/server_lib/packet_storage.cpp:105-149 | Everything listed is for the receiver asked for, with the payload that was sent |
| `PacketProtocol.CollectPendingCollects` | securepath/infrastructure/packet_transport/server/server_lib/packet_storage.cpp:108-118 | CollectPending finds all queued packets of the receiver in every reachable state |
| `PacketProtocol.ClosedStoresExactly` | securepath/infrastructure/packet_transport/server/server_lib/packet_storage.cpp:56-66 | After close, a packet neither acked nor failed is stored if and only if no step dropped it: the last call of next_packet with it at the head of the queue, or the purge clearing it away after it was inserted during its loop |
| `PacketProtocol.ClosedKeepsAllButDropped` | securepath/infrastructure/packet_transport/server/server_lib/packet_storage.cpp:56-66 | The same for one state, in terms of what was recorded as dropped |
| `PacketProtocol.CloseCanLosePacket` | securepath/infrastructure/packet_transport/server/server_lib/packet_storage.cpp:151-177 | A run in which close loses a packet: not stored, its sender not told |
| `PacketProtocol.CloseCanKeepAcked` | securepath/infrastructure/packet_transport/server/server_lib/packet_storage.cpp:151-177 | A run in which an acked packet stays in the database after close |
| `PacketProtocol.RoundIsAlone` | securepath/infrastructure/packet_transport/server/server_lib/packet_storage.cpp:205-223 | The steps of the database thread, with none of another thread between, do what ThreadRound does |
| `PacketReports.InsertedExactly` | securepath/infrastructure/packet_transport/server/server_lib/packet_storage.cpp:68-87 | In every run, the packets on record are exactly those handed in, each with the next ack and with receiver, payload and sender as given |
| `PacketReports.FailedExactly` | securepath/infrastructure/packet_transport/server/server_lib/packet_storage.cpp:179-258 | A packet counts as failed if and only if the database refused it at some step |
| `PacketReports.ToldExactly` | securepath/infrastructure/packet_transport/server/server_lib/packet_storage.cpp:205-223 | As long as no purge went through the queue, the sender of a packet has been told if and only if the packet waits no more, in queue or hand, and was neither refused by the database nor dropped by the last call of next_packet |
| `PacketReports.RemoveIsCarriedOut` | securepath/infrastructure/packet_transport/server/server_lib/packet_storage.cpp:89-103 | At every moment after remove() began, its packet is acked or the removal still under way |
| `PacketReports.AckedWasAsked` | securepath/infrastructure/packet_transport/server/server_lib/packet_storage.cpp:89-103 | No packet is acked that no remove() asked for |
| `KeyRestriction.SubsetExactly` | securepath/crypto/key_certificate.cpp:24-39 | For all hostnames: a subset if and only if the other is empty, equal up to case, or an ending up to case that begins with a dot or follows one |
| `KeyRestriction.SubsetTransitive` | securepath/crypto/key_certificate.cpp:24-39 | is_subset_of is transitive |
| `KeyRestriction.SubsetAntisymmetric` | securepath/crypto/key_certificate.cpp:24-39 | Subsets of each other are the same name up to case |
| `KeyRestriction.CommonSubsetComparable` | securepath/crypto/key_certificate.cpp:24-39 | Two restrictions with a common subset are comparable |
| `KeyRestriction.MergeIsGreatestLowerBound` | securepath/crypto/key_certificate.cpp:53-63 | What lies below the merged restriction is exactly what lies below both |
| `KeyRestriction.MergeFailsExactly` | securepath/crypto/key_certificate.cpp:53-63 | merge throws if and only if no restriction is a subset of both |
| `CertificateChain.ChainVerify.CheckChainElement` | securepath/crypto/certificate_chain.cpp:91-106 | Accepts a link if and only if it checks out against the one before and is not revoked in the store; only then moves on |
| `CertificateChain.CertificateChain.IsAuthentic` | securepath/crypto/certificate_chain.cpp:131-153 | The loop accepts a chain if and only if it is valid, not too long, from a known root, and every link checks out and is unrevoked |
| `CertificateChain.CertificateChain.IsAuthenticFor` | securepath/crypto/certificate_chain.cpp:155-157 | And the restriction asked for is a subset of the last link's |
| `CertificateChain.CertificateChain.AddLink` | securepath/crypto/certificate_chain.cpp:189-214 | Adds the link or reports the source's error with the chain unchanged |
| `CertificateChain.CertificateChain.AddLinkToChain` | securepath/crypto/certificate_chain.cpp:175-187 | The overload for non-empty chains |
| `CertificateChain.LinkErrorExactly` | securepath/crypto/certificate_chain.cpp:41-89 | A link is refused with the error of the first of its eight tests, told on its fields, that fails, and accepted if none does |
| `CertificateChain.AddLinkExactly` | securepath/crypto/certificate_chain.cpp:175-214 | add_link reports no root key, an invalid chain, or the error of the first failing test against the root or the last link; else the chain has the link at its end |
| `CertificateChain.AuthenticChainShape` | securepath/crypto/certificate_chain.cpp:61-157 | An authentic chain has at most 16 links, strictly falling levels, each issuer equal to the previous subject, and every restriction a subset of those of all its ancestors |
| `CertificateChain.AuthenticExactly` | securepath/crypto/certificate_chain.cpp:41-157 | A chain is authentic if and only if it has 1 to 16 links from a known root, every link is signed by the key before it, of type 1, with a self-signed subject that references it, and lies below all of its ancestors in level and restriction, and neither the link nor the verifier's copy of it carries a revocation of its own id signed by the issuer |
| `CertificateChain.GrowExactly` | securepath/crypto/certificate_chain.cpp:189-214 | Adding links one by one to an empty chain succeeds exactly on links that check out from the root the first names, and gives the chain of those links |
| `CertificateChain.GrownIsAuthentic` | securepath/crypto/certificate_chain.cpp:131-214 | A grown chain is authentic if and only if it is short enough, its root id is valid and none of its links is revoked in the store |
| `CertificateChain.AuthenticIsGrown` | securepath/crypto/certificate_chain.cpp:131-214 | Every authentic chain is what its links grow into |
| `ChainBuilder.ChainBuilder.BuildList` | securepath/crypto/certificate_chain.cpp:277-287 | Terminates; finds only authentic chains along stored paths; without a find, no path from here makes an authentic chain |
| `ChainBuilder.ChainBuilder.Consider` | securepath/crypto/certificate_chain.cpp:262-275 | The same through one certificate; skipping wrong types and levels that do not rise loses nothing |
| `ChainBuilder.ChainBuilder.FollowIssuer` | securepath/crypto/certificate_chain.cpp:249-260 | The same from the certificate's issuer on |
| `ChainBuilder.ChainBuilder.TryComplete` | securepath/crypto/certificate_chain.cpp:240-247 | Sets the chain if and only if the reversed list is authentic |
| `ChainBuilder.CreateCertificateChain` | securepath/crypto/certificate_chain.cpp:292-299 | Finds a chain if and only if some path over stored certificates from the subject to its first root issuer makes an authentic one; what it finds is one of those and ends in the subject |
| `Framing.HeaderRoundTrip` | securepath/network/encryption/framing.cpp:11-28 | The header gives back the payload size modulo 2^32 |
| `Framing.LengthRoundTrip` | securepath/network/encryption/framing.cpp:23-26 | And every header is that of the length it gives |
| `Framing.FrameOnTheWire` | securepath/network/encryption/framing.cpp:11-21 | A frame is the size in four octets, most significant first, and the payload |
| `Framing.FramesPrefix` | securepath/network/encryption/framing.cpp:11-21 | Frames read off the front of a stream of frames are the first ones sent, and all of them when the stream was read to the end |
| `Framing.OnReadAdvances` | securepath/network/encryption/framing.cpp:71-99 | For every size of read, the octets read so far stay an unfinished frame until they are exactly the frame of the payload handed over; a frame is refused exactly if its header claims more than the cap |
| `Framing.StartExactly` | securepath/network/encryption/framing.cpp:48-62 | A receive starts with nothing read, waiting for the four octets of a header, under the cap set before |
| `Framing.FrameReader.AsyncReceiveFrame` | securepath/network/encryption/framing.cpp:48-62 | Refused while a receive is outstanding, else starts afresh |
| `Framing.FrameReader.OnRead` | securepath/network/encryption/framing.cpp:71-109 | The reader's fields after a read, and its completion, are those of Reader.OnRead |
| `TlsStream.TlsStream.AsyncHandshake` | securepath/network/encryption/tls_stream.cpp:175-199 | Refused once there is a channel or the stream is closed; a library that cannot be set up fails the stream |
| `TlsStream.TlsStream.OnActivated` | securepath/network/encryption/tls_stream.cpp:384-390 | Completes the handshake handler |
| `TlsStream.TlsStream.DoWrite` | securepath/network/encryption/tls_stream.cpp:312-328 | Refused when not open; otherwise records, then the marker; a library that throws fails the stream and the pending read |
| `TlsStream.TlsStream.OnEmit` | securepath/network/encryption/tls_stream.cpp:299-302 | Queues the record and starts writing |
| `TlsStream.TlsStream.CompleteWriteMarkers` | securepath/network/encryption/tls_stream.cpp:330-342 | The loop posts the completions of all markers at the front |
| `TlsStream.TlsStream.StartWrite` | securepath/network/encryption/tls_stream.cpp:344-360 | Completes markers, then writes the front record or finishes a shutdown |
| `TlsStream.TlsStream.OnWritten` | securepath/network/encryption/tls_stream.cpp:362-375 | Drops the written record and goes on, or fails everything |
| `TlsStream.TlsStream.DoShutdown` | securepath/network/encryption/tls_stream.cpp:410-448 | Ends the pending read, lets the close record out, and finishes when the queue is empty |
| `TlsStream.TlsStream.FailPending` | securepath/network/encryption/tls_stream.cpp:473-493 | Posts the error to the handshake handler, the pending read, every queued marker in order, and the shutdown handler |
| `TlsStream.TlsStream.DeliverRead` | securepath/network/encryption/tls_stream.cpp:279-295 | The pending read gets data, the ending error, or goes on waiting, as ReadSide.Deliver says |
| `TlsStream.TlsStream.DoReadSome` | securepath/network/encryption/tls_stream.cpp:260-277 | One read at a time, refused when closing |
| `TlsStream.TlsStream.CompactPlainIn` | securepath/network/encryption/tls_stream.cpp:244-252 | Clears or shifts the buffer as ReadSide.Compact says |
| `TlsStream.CompactKeepsWaiting` | securepath/network/encryption/tls_stream.cpp:244-252 | Shifting the buffer never changes what waits, and leaves at most half of it consumed |
| `TlsStream.DeliverGives` | securepath/network/encryption/tls_stream.cpp:279-295 | A delivery hands over the front of what waits, at least one octet if any is asked for, and leaves the rest waiting |
| `TlsWrites.InvKept` | securepath/network/encryption/tls_stream.cpp:299-493 | Every step of the write side keeps the invariant |
| `TlsWrites.WritesCompleteOnceInOrder` | securepath/network/encryption/tls_stream.cpp:312-342 | At every moment of every run the accepted writes, in order, are those completed followed by those with a marker queued, each once |
| `TlsWrites.SuccessMeansWritten` | securepath/network/encryption/tls_stream.cpp:330-375 | A success is posted only after every record emitted for that write and all earlier ones went out, and before any failure |
| `TlsWrites.ClosedCompletesAll` | securepath/network/encryption/tls_stream.cpp:450-493 | When the stream has closed, every accepted write has completed |
| `TlsWrites.NothingLostWhileOpen` | securepath/network/encryption/tls_stream.cpp:299-375 | While it is open, records gone out followed by those queued are all that were emitted |
| `TlsWrites.NeedCoversOwnRecords` | securepath/network/encryption/tls_stream.cpp:312-328 | The records an accepted write waits for include its own |
| `TlsReads.InvKept` | securepath/network/encryption/tls_stream.cpp:215-493 | Every step of the read side, and every step of the write side that ends reads, keeps the invariant |
| `TlsReads.HandedOutInOrder` | securepath/network/encryption/tls_stream.cpp:240-295 | At every moment of every run, the data handed to reads followed by what waits is exactly what the records brought |
| `TlsReads.ReadsEndOnce` | securepath/network/encryption/tls_stream.cpp:260-295 | Every read begun has ended exactly once or is the pending one; once the stream is closing or closed all have ended |
| `TlsCalls.WriteAnsweredExactly` | securepath/network/encryption/tls_stream.cpp:312-328 | In every run a write is accepted if and only if the stream is activated, has no error, is neither closing nor closed, and the library does not throw; else only a refusal with the right error is posted |
| `TlsCalls.ActivatedExactly` | securepath/network/encryption/tls_stream.cpp:384-390 | A stream is activated if and only if the library said so at an earlier step |
| `TlsCalls.ReadAnsweredExactly` | securepath/network/encryption/tls_stream.cpp:260-295 | A read is refused while another is pending or the stream is ending, else gets the front of what waits, or the reason why nothing more comes, or is kept |
| `TlsCalls.HandshakeAnsweredExactly` | securepath/network/encryption/tls_stream.cpp:175-199 | A handshake is refused if and only if there is a channel or the stream is closed; else it fails with the library or its handler is kept |
| `TlsCalls.ActivationExactly` | securepath/network/encryption/tls_stream.cpp:384-390 | The end of the handshake tells its handler, if there is one, and changes nothing else |
| `TlsCalls.FailTellsAll` | securepath/network/encryption/tls_stream.cpp:462-493 | The first failure closes the stream with that error and tells it to the handshake, to every write in the queue in order, and to the shutdown; later ones do nothing |
| `TlsCalls.ShutdownAnsweredExactly` | securepath/network/encryption/tls_stream.cpp:410-432 | A shutdown is refused if and only if the stream has ended or is ending; else it closes, and the handler waits or has been told |
| `TlsCalls.ShutdownMeansWritten` | securepath/network/encryption/tls_stream.cpp:434-448 | A shutdown succeeds only with everything emitted gone out, and closes the socket if and only if the peer has ended too |
| `TlsCalls.DrainedShutdownIsTold` | securepath/network/encryption/tls_stream.cpp:344-448 | A closing stream with nothing left to send has told its shutdown handler |
| `TlsCalls.EndOfFileExactly` | securepath/network/encryption/tls_stream.cpp:215-228 | The end of the input closes the stream if and only if a shutdown has nothing left to send |
| `TlsCalls.SideEndsReadTruly` | securepath/network/encryption/tls_stream.cpp:279-493 | Whatever ends a pending read gives it what waits or the stream's own error, connection_closed without one |
| `TlsCalls.CompletionsAreTrue` | securepath/network/encryption/tls_stream.cpp:330-342 | In every run, a write that succeeds is told its own size, and one that fails 0 and why the stream ended |
| `Connection.EncryptedConnection.Send` | securepath/network/encryption/detail/encrypted_connection_impl.cpp:229-237 | Queues the message; do_send is posted exactly if connected |
| `Connection.EncryptedConnection.DoSend` | securepath/network/encryption/detail/encrypted_connection_impl.cpp:239-250 | Takes the front message exactly if connected with no frame under way |
| `Connection.EncryptedConnection.OnFrameSent` | securepath/network/encryption/detail/encrypted_connection_impl.cpp:251-263 | Sends the next one, or disconnects |
| `Connection.EncryptedConnection.BecomeConnected` | securepath/network/encryption/detail/encrypted_connection_impl.cpp:192-206 | Raises the reader's cap to full frames and sends what was queued before |
| `Pipeline.ReceivedIsPrefixOfSent` | securepath/network/encryption/detail/encrypted_connection_impl.cpp:210-264 | In every run, for all sizes in which octets arrive and are read, the payloads received are a prefix of those sent, boundaries intact |
| `Pipeline.DrainedReceivesAll` | securepath/network/encryption/detail/encrypted_connection_impl.cpp:210-264 | When no frame was refused and nothing is left on the way, everything sent was received |
| `Pipeline.NeverStranded` | securepath/network/encryption/detail/encrypted_connection_impl.cpp:192-264 | While connected with no frame under way, a queued message has a do_send posted, about to be called, or about to be posted |
| `Pipeline.ReceiverNeverRejects` | securepath/network/encryption/framing.cpp:85-89 | The receiver never meets a frame above its cap |
| `Pipeline.DoSendExactly` | securepath/network/encryption/detail/encrypted_connection_impl.cpp:239-264 | do_send does nothing unless connected and idle with a message queued; else the front message goes into the pipe behind its size in four octets if it has at most 16777216 octets, and is refused with nothing sent if it has more |
| `Pipeline.InvKept` | securepath/network/encryption/detail/encrypted_connection_impl.cpp:192-264 | Every step of senders, strand, pipe and reader keeps the invariant |
| `EventLoop.BasicEventLoop.Emit` | securepath/event_system/event_loop.cpp:14-24 | Queues the event if the receiver is active and the loop runs; notifies if it was the first |
| `EventLoop.BasicEventLoop.RemoveReceiver` | securepath/event_system/event_loop.cpp:26-33 | Disables the receiver and drops its events and timers |
| `EventLoop.BasicEventLoop.StartTimer` | securepath/event_system/event_loop.cpp:49-65 | Adds the timer, keeps the cached trigger, and notifies if the wait must end earlier |
| `EventLoop.BasicEventLoop.StopTimer` | securepath/event_system/event_loop.cpp:67-76 | Takes out the timer with that handle; unsets the trigger with the last one |
| `EventLoop.BasicEventLoop.ProcessTimers` | securepath/event_system/event_loop.cpp:98-127 | Both loops: fires the first due timer and leaves the cached trigger at the least of all that remain |
| `EventLoop.EarliestIsLeast` | securepath/event_system/event_loop.cpp:92-96 | What updating over all timers computes is their least trigger |
| `EventLoopTimers.EmitAcceptsExactly` | securepath/event_system/event_loop.cpp:14-24 | In every run an event is taken in, last in the queue, if and only if no earlier step stopped the loop or removed its receiver |
| `EventLoopTimers.StartAcceptsExactly` | securepath/event_system/event_loop.cpp:49-65 | A handle is given out under the same condition, the next one; else nothing changes |
| `EventLoopTimers.RoundExactly` | securepath/event_system/event_loop.cpp:98-137 | A round fires the due timer of the lowest handle if there is one, else starts the handler of the front event, else goes to sleep; having looked at the timers it leaves the cached trigger at the earliest of them |
| `EventLoopTimers.WakesExactly` | securepath/event_system/event_loop.cpp:14-65 | In every run a sleeping loop is woken if and only if it is stopped, takes in an event, or is given a timer earlier than all there are |
| `EventLoopTimers.HandlerDoneExactly` | securepath/event_system/event_loop.cpp:129-178 | After a timer's handler the loop goes round again; after an event's it sleeps exactly if nothing is queued and it was not stopped |
| `EventLoopTimers.StopTimerTrigger` | securepath/event_system/event_loop.cpp:67-76 | stop_timer leaves the cached trigger alone unless it takes out the last timer |
| `EventLoopTimers.NeverEarly` | securepath/event_system/event_loop.cpp:49-127 | In every run a timer, told by its handle, calls only the receiver it was started for and never before its duration is over |
| `EventLoopTimers.SingleShotCallsOnce` | securepath/event_system/event_loop.cpp:118-123 | A single-shot timer calls at most once |
| `EventLoopTimers.DueAfterStart` | securepath/event_system/event_loop.cpp:55-56 | A timer stays set for its first time until it fires or is taken away |
| `EventLoopTimers.DueAgain` | securepath/event_system/event_loop.cpp:118-120 | A repeating timer that fired at t is set for exactly t plus its duration until it fires again or is taken away |
| `EventLoopRuns.InvKept` | securepath/event_system/event_loop.cpp:14-179 | Every step keeps the invariant |
| `EventLoopRuns.TriggerIsCached` | securepath/event_system/event_loop.cpp:92-127 | In every reachable state with timers the cached trigger is set and no later than any of them |
| `EventLoopRuns.NeverOversleeps` | securepath/event_system/event_loop.cpp:167-179 | A loop that sleeps and was not woken has no event queued and will wake no later than any timer |
| `EventLoopRuns.HandledOnceInOrder` | securepath/event_system/event_loop.cpp:14-24 | The events accepted for a live receiver are those handled, once each and in order, followed by those queued |
| `EventLoopRuns.DueTimerFires` | securepath/event_system/event_loop.cpp:98-124 | In every reachable state a round fires a timer if and only if one is due, and then a due one |
| `EventLoopRuns.StopTimerStops` | securepath/event_system/event_loop.cpp:67-76 | Exactly the timer with that handle is taken out, handles being unique |
| `EventLoopRuns.StoppedTimerNeverFires` | securepath/event_system/event_loop.cpp:67-124 | After stop_timer no later round of any run fires that handle |
| `EventLoopRuns.RemoveTakesItsTimers` | securepath/event_system/event_loop.cpp:26-33 | Exactly the timers of the removed receiver are taken out |
| `EventLoopRuns.RemovedIsNeverStarted` | securepath/event_system/event_loop.cpp:26-42 | Once a receiver is being removed no step starts its handler, and after the removal returned to another thread it is not running |

## Left out

- Sockets, asio, Botan, SQLite, threads as such, logging, files and clocks: their results are parameters of the steps.
- Generalised time, `float`, trailing data and `choice`: single-branch code over the primitives modelled.
- Tags with another class than context-specific, `sequence` with an explicit tag argument, and an optional value outside a sequence.
- AsnRealLoops.ReadReal: a foreign real whose value is not a normal double, so that the mantissa loop or `ldexp` rounds, overflows or underflows, is kept as Real.Other without saying which double comes out; the encoder writes none of these.
- AsnUtil.ReadInteger: signed overflow, which the source can meet only on such foreign exponents, is taken to wrap.
- Subnormal doubles are refused by the encoder and have no encoding to read back.
- AsnConfusion.RoundTripExactly: an absent optional sequence or container, or an implicit tag over an explicit one, is covered in one direction only (AsnRoundTrip.RoundTrip), because with the same tag next the outcome depends on what the attempt meets inside (AsnConfusion.SequenceLooksInside).
- AsnRoundTrip.RoundTrip: sizes in all stay below 2^64.
- AsnSerialiser.AsnDerSerialise: what a stream already holds when the encoder throws half-way is not stated.
- Reads after a stream has run short or after a decoding error: the source's comment calls the first state broken, and no caller goes on after the second.
- Deframer.PacketDeserialiser.DoCheck: the callback is the list of elements it was called with; one that throws leaves the source's buffer with elements already handled.
- Concurrent close() and the purge: the source purges without the lock, so pushes and inserts at that moment are a data race; they are modelled as atomic steps between the rounds of its loops.
- PacketProtocol.Init: the table's acks are at least 1 and the sequence starts at their maximum, as the storage itself leaves them; a row that does not deserialise (skipped when reading) is not modelled.
- The read of the sequence number in the constructor, which runs after the thread was started, and log statistics in next_packet.
- Client-side row ids (securepath/infrastructure/packet_transport/client/out_packets.cpp), which can be used again after a deletion.
- Certificate payloads that do not decode as key certificate data: `extract` throws, here a certificate carries its data.
- KeyRestriction.IsSubsetOf: lower case is that of the C locale.
- The TLS handshake itself, that its handler completes exactly once (a shutdown before activation leaves it), `start_read` with its high-water mark, and user handlers that run inside `deliver_read`.
- Channel::send is taken not to call back into `fail`; it may throw after any of its records.
- Pipeline starts with the application frames: the handshake frames before them, and the lower cap used for those, are not part of the pipe.
- Pipeline: becoming connected after a disconnect is excluded, as the closed TLS stream then delivers no handshake frame.
- EventLoop.BasicEventLoop.StartTimer: durations are not negative and times are after the clock's epoch.
- Exceptions in event handlers, which the loop swallows, and starvation of events by a timer that is always due, which the source's own note admits.
- Broadcast observers, read-through caches, version numbers, GCM wrappers, console and audio code: single-branch or resting on libraries that are not part of this model.
