# A verified model of the BACnet/IP client

This Dafny 4.11 project models the two halves of the client that carry its correctness, and proves
what they promise.

**The wire codec.** A tag, the value after it, the service payload around the values, and the three
envelopes APDU, NPDU and BVLC. The encoder and the decoder are classes over one byte buffer, as in the
program: a cursor, a sticky error, and a backtrack of one octet. Each method is proved against a
function on values, and the lemmas about those functions are composed from the tag up to the frame.

**The transaction protocol.** 256 invoke ids circulate through a queue; calls register under an id and
wait; any number of packet handlers look a call up under the lock, drop the lock, and block on "deliver
or context done". `Protocol` is a labelled step system over the critical sections and channel
operations of both sides; `ProtocolRuns` proves its properties over every finite run, so over every
interleaving. `ClientProofs` joins the halves: from a device's octets to the value a call returns.

Verify everything with `dafny verify dfyconfig.toml`.

## Modules

| module | contents |
|---|---|
| `Bytes`, `Errors`, `Objects` | integers of the program's widths, error values, object identifiers and dynamically typed values |
| `Buffers` | Go's bytes.Buffer with its one-step unread, and the view that specifies it |
| `Tags`, `Integers` | the tag codec and the variable-length integers |
| `Encoding`, `Decoding` | the encoder and decoder classes and their specification functions |
| `CodecProofs` | round trips of fields, scripts of fields and bracketed values; the backtrack |
| `Services`, `ServiceProofs` | Who-Is, I-Am, ReadProperty, WriteProperty, Error |
| `ReplyProofs` | which octets a ReadProperty reply, an Error and an I-Am may consist of, which make the decoder panic, and which fields of a reply they carry |
| `Network`, `NetworkProofs` | APDU, NPDU, BVLC |
| `TransactionTable`, `Protocol`, `ProtocolRuns` | the shared state, the step system and its invariant, the properties of runs |
| `Client` | handleMessage, one call, the Who-Is loop |
| `WireFormat`, `FrameFormat` | every tag, value, field, service body and envelope in plain octets, with the numbers of the standard instead of the codec's own names, on both sides |
| `DispatchProofs` | what the octets of one datagram decide: the fate of its handler and the outcome of a call |
| `DiscoveryProofs` | what a Who-Is returns, in terms of the datagrams it received |
| `RequestProofs` | what a request looks like in octets and to the device |
| `ClientProofs` | where codec and protocol meet: what a device's octets do to a call, in every run |

## How the program is represented

- Octets and words are subset types of `int`; shifts and masks are divisions and remainders, and every
  truncation is written out. The three low bits of a tag's first octet, which the program fills with
  overlapping `|=`, are combined by `Or3`.
- `float32` is its 32-bit pattern; strings are their UTF-8 octets. An `interface{}` is the datatype
  `Value`; the pointer a decode target hides behind reflection is a `Kind` together with the target's
  old contents, which is what a Null leaves in place.
- A Go panic (an unassignable reflect.Set, a negative slice length, a nil payload) is the error
  `Panicked`; nothing runs after it.
- The structs UnmarshalBinary fills are classes (`IamRef`, `NpduRef`, ...) whose old contents matter;
  the structs MarshalBinary copies are datatypes.
- Datagrams, the end of a context and the success of a send are steps or parameters.

## Where the code falls short of its own promises

Each of these is proved, with the exact condition under which the promise does hold.

- An object type of 0x400 is accepted and read back as type 0 (`Objects.ObjectIDRoundTrip`).
- ContextSigned uses four octets for -2^23, which fits in three (`Integers.SignedIsMinimal`).
- A retry after ErrorIncorrectTagID works, but a mismatched tag of more than one octet ends in another
  error with octets lost (`CodecProofs.WrongTagBacktracks`).
- Of the values ContextAsbtractType accepts, only null, boolean, real and enumerated ones can be decoded
  (`CodecProofs.WrittenValueRoundTrip`).
- A Who-Is with a single limit is sent without any (`ServiceProofs.WhoIsRoundTrip`).
- A ReadProperty reply without its object or property field, or with a property field that has no octets, is
  accepted (`ServiceProofs.MissingFieldsAreAccepted`, `ReplyProofs.EmptyPropertyIsAccepted`). An accepted reply
  names its object, its property and its index exactly as its first tags say
  (`ReplyProofs.ReplyNamesItsObject`, `ReplyNamesItsProperty`, `ReplyNamesItsIndex`).
- The vendor id of network message type 0x80 is written but not read (`NetworkProofs.NpduRoundTrip`).
- Because handleMessage goes on after a decoding error, calls and a Who-Is receive what did not decode. Each of
  these is exact over all octets of an APDU:
  - a reply of one octet names no invoke id, counts as id zero, and ends the call that has it
    (`DispatchProofs.ReplyIdIs`, `ClientProofs.NamelessReplyEndsCallZero`, `AnswerNamesItsCall`);
  - an Error that stops before its service makes the call's unchecked conversion panic
    (`DispatchProofs.ConversionPanicsIff`, `ClientProofs.TruncatedErrorPanicsItsCall`);
  - ReadProperty returns what was filled in of an acknowledgement that is not well formed, possibly nil, as a
    success, and both calls return what was filled in of an Error
    (`DispatchProofs.AnswerIsDecodedIff`, `ErrorIsDecodedIff`, `ClientProofs.TruncatedAckAnswersNil`);
  - a Who-Is takes an incomplete I-Am for a device, and its "unexpected payload type" exit for the lone octet of
    an unconfirmed request (`DispatchProofs.IamIsDecodedIff`, `TruncatedIamIsAccepted`, `MismatchIff`,
    `TruncatedFrameMismatches`).
- A reply whose decoding panics never reaches its call, which then waits for its context
  (`DispatchProofs.HandlerPanicsIff`, `ClientProofs.ReplyReachesItsCall`, `UnsignedClassPanics`).
- An address with a MAC of less than six octets makes the sending call panic (`Client.Call`).
- A handler that captured a call which then returned is held until that call's context ends
  (`ProtocolRuns.ProgressIff`, `ProtocolRuns.LateReplyWaitsForContext`); a duplicated reply is enough to get
  there (`ProtocolRuns.DuplicateIsHeld`, `ClientProofs.LateReplyHappens`).

## Model

| member | source | states |
|---|---|---|
| `Objects.ObjectIDRoundTrip` | bacnet/types.go:94-110 | decoding inverts encoding if and only if the type has ten bits and the instance 22; the one other accepted type comes back as zero |
| `Objects.WordRoundTrip` | bacnet/types.go:94-110 | every 32-bit word is the encoding of exactly the identifier it decodes to |
| `WireFormat.ObjectIDWord` | bacnet/types.go:94-110 | the accepted types and instances as numbers, and the word as ten bits over 22 |
| `Buffers.Buffer.UnreadByte` | internal/encoding/decoding.go:38-46 | gives back the last octet read, once, and only right after a successful read |
| `Buffers.Buffer.ReadFull` | internal/encoding/tag.go:149 | a read of n octets returns exactly the next n, or fails and leaves the buffer drained with nothing to unread |
| `Tags.WriteTag` | internal/encoding/tag.go:68-108 | the accumulated octet and the pieces written after it are the tag's octets, appended |
| `Tags.ReadTag` | internal/encoding/tag.go:110-169 | the octet-by-octet reader returns the parsed tag and its length, or fails with the buffer drained |
| `Tags.TagRoundTrip` | internal/encoding/tag.go:68-169 | decoding an encoded tag before any suffix gives the tag and its exact length if and only if it is not both opening and closing and has no length when it is either |
| `Tags.TagPrefixFree` | internal/encoding/tag.go:110-169 | every strict prefix of an encoded tag is rejected |
| `Tags.TagSuffix` | internal/encoding/tag.go:110-169 | decoding reads nothing beyond the octets it accounts for |
| `Tags.TagCanonical` | internal/encoding/tag.go:68-169 | whatever octets decode to a tag, encoding that tag is never longer and decodes to it again |
| `WireFormat.TagOctets` | internal/encoding/tag.go:68-108 | the octets of a tag for every number, class and length, with the flags 254 and 255 |
| `WireFormat.BracketOctets` | internal/encoding/tag.go:68-108 | the octets of the opening and closing tags |
| `WireFormat.OctetsOfTag` | internal/encoding/tag.go:110-169 | what every acceptable octet string decodes to, lengths longer than need be included |
| `Integers.WriteUnsigned` | internal/encoding/encoding.go:364-384 | appends the value's octets and returns their count |
| `Integers.ReadUnsigned` | internal/encoding/decoding.go:293-333 | lengths one to four read a big-endian number or drain the buffer; other lengths read nothing and give zero |
| `Integers.UnsignedReads` | internal/encoding/decoding.go:293-333 | reading inverts writing in front of any suffix |
| `Integers.UnsignedIsMinimal` | internal/encoding/encoding.go:352-384 | the octets written are a numeral of the value and no numeral of it is shorter |
| `Integers.SignedMeans` | internal/encoding/encoding.go:61-94 | the payload of ContextSigned, as two's complement of its tagged length, is the value |
| `Integers.SignedIsMinimal` | internal/encoding/encoding.go:66-74 | it is a shortest such payload if and only if the value is not -2^23 |
| `WireFormat.SignedFieldIsTagged` | internal/encoding/encoding.go:61-94 | the tag of a signed field announces exactly the octets behind it, whose two's complement is the value |
| `Encoding.Encoder.PutContextUnsigned` | internal/encoding/encoding.go:42-59 | appends the tagged value unless an error is set |
| `Encoding.Encoder.PutContextSigned` | internal/encoding/encoding.go:61-94 | appends the tagged value unless an error is set |
| `Encoding.Encoder.PutContextTypeEnumerated` | internal/encoding/encoding.go:193-207 | appends the tagged value unless an error is set |
| `Encoding.Encoder.PutContextObjectID` | internal/encoding/encoding.go:217-237 | appends the tagged identifier unless an error is set; a refused one leaves its tag and sets the error |
| `Encoding.Encoder.PutAppData` | internal/encoding/encoding.go:239-286 | appends the value under its application tag, or sets the error for the types it does not know |
| `Encoding.Encoder.PutContextAbstractType` | internal/encoding/encoding.go:288-340 | brackets the body of the declared type, or returns an error with the bracket left open |
| `WireFormat.AppDataOctets` | internal/encoding/encoding.go:239-286 | the types AppData accepts, and the octets of a null, an unsigned, a real, a segmentation and an identifier |
| `WireFormat.StringOctets` | internal/encoding/encoding.go:255-262 | the octets of a string, for every length |
| `WireFormat.FieldOctets` | internal/encoding/encoding.go:42-94 | the octets of a context field of each kind, numerals being the shortest |
| `WireFormat.WrittenTypes` | internal/encoding/encoding.go:288-340 | the declared types and values ContextAsbtractType accepts, by number |
| `WireFormat.WrittenOctets` | internal/encoding/encoding.go:96-132 | the octets each declared type is written as |
| `Decoding.Decoder.Unread` | internal/encoding/decoding.go:37-46 | the loop over UnreadByte gives back at most one octet, and fails for two or more |
| `Decoding.Decoder.GetContextValue` | internal/encoding/decoding.go:48-77 | the new state and target, with the backtrack on a wrong number |
| `Decoding.Decoder.GetContextObjectID` | internal/encoding/decoding.go:79-108 | the new state and target, with the backtrack on a wrong number and an ignored short read |
| `Decoding.Decoder.GetAppData` | internal/encoding/decoding.go:119-237 | the new state and target for every tag and kind of target |
| `Decoding.Decoder.GetContextAbstractType` | internal/encoding/decoding.go:245-284 | the new state and target of a bracketed application value |
| `WireFormat.UnsignedFromOctets` | internal/encoding/decoding.go:147-158 | the octets of an unsigned store the number they spell |
| `WireFormat.EnumeratedFromOctets` | internal/encoding/decoding.go:195-215 | the octets of an enumerated store the number they spell, cut to the width of the named type |
| `WireFormat.BooleanFromOctets` | internal/encoding/decoding.go:230-231 | a boolean is its tag's length field |
| `WireFormat.NonContextualIsStored` | internal/encoding/decoding.go:61-77 | a field of the right number under an application tag is an error and stored all the same |
| `WireFormat.ShortObjectIDIsZero` | internal/encoding/decoding.go:98-108 | an identifier cut short reads as zero without an error |
| `CodecProofs.AppDataReads` | internal/encoding/decoding.go:119-237 | an application value, read with its own kind or through an empty interface, comes back and leaves the suffix if it survives, and does not come back otherwise |
| `CodecProofs.ScriptRoundTrip` | internal/encoding/encoding.go:42-286 | any list of context unsigneds, context identifiers and application values a fresh encoder accepts is returned by the matching decoder calls, up to the suffix, if and only if every field survives |
| `CodecProofs.WrongTagBacktracks` | internal/encoding/decoding.go:61-67 | a wrong tag number ends in IncorrectTagID, with the octets back and the target untouched, if and only if the tag is one octet long; a longer one loses all but its last octet |
| `CodecProofs.RetryGuarantee` | internal/encoding/decoding.go:48-98 | whenever IncorrectTagID is the outcome, any operation after ResetError does what it would have done first |
| `CodecProofs.BracketedValueReads` | internal/encoding/decoding.go:245-284 | an application value between brackets reads back through an empty interface if and only if it survives |
| `CodecProofs.WrittenValueRoundTrip` | internal/encoding/encoding.go:288-340 | a written property value reads back if and only if its declared type is null, boolean, real or enumerated, and otherwise ends in the named error |
| `Services.MarshalWhoIs` | bacip/services.go:15-28 | limits together, ordered and in range are sent; one alone is not |
| `Services.WhoIsRef.UnmarshalBinary` | bacip/services.go:30-42 | the receiver and error after decoding, an empty payload changing nothing |
| `Services.MarshalIam` | bacip/services.go:51-58 | the four fields in order, or the first error |
| `Services.IamRef.UnmarshalBinary` | bacip/services.go:60-67 | the receiver and error after decoding the four fields over its old contents |
| `Services.MarshalReadProperty` | bacip/services.go:76-85 | object, property and the optional index |
| `Services.ReadPropertyRef.UnmarshalBinary` | bacip/services.go:87-104 | the receiver and error, the error being reset midway when it is IncorrectTagID |
| `Services.MarshalWriteProperty` | bacip/services.go:113-128 | the lead, the bracketed value and the priority unless zero; the value's error wins |
| `Services.ApduErrorRef.UnmarshalBinary` | bacip/services.go:147-152 | the receiver and error after decoding class and code |
| `ServiceProofs.WhoIsRoundTrip` | bacip/services.go:15-42 | accepted exactly for limits in order and range; comes back if and only if it has both limits or none |
| `ServiceProofs.IamIsScript` | bacip/services.go:51-67 | both directions of I-Am are the script of its four fields |
| `ServiceProofs.IamRoundTrip` | bacip/services.go:51-67 | comes back before any suffix if and only if its identifier has a ten-bit type |
| `ServiceProofs.ReadPropertyReplyRoundTrip` | bacip/services.go:76-104 | a request's octets followed by a bracketed value and any suffix decode to that object, property, optional index and value if and only if identifier and value survive |
| `ServiceProofs.MissingFieldsAreAccepted` | bacip/services.go:87-104 | a reply without property, or without object and property, decodes without error with those fields zero |
| `ReplyProofs.ReplyAcceptedIff` | bacip/services.go:87-104 | for all octets, a reply decodes without error if and only if it is well formed: a grammar over tags and octet counts, with the first absent field recognised by a one-octet bracket; and its decoding panics if and only if a string of length zero stands in that bracket |
| `ReplyProofs.ValuePanicsIff` | internal/encoding/decoding.go:119-237 | for all octets and every kind of target, storing an application value panics if and only if it is a boolean for a target that is neither boolean nor an empty interface, a complete unsigned for a named integer, or a string of length zero before its encoding octet |
| `ReplyProofs.ErrorAcceptedIff` | bacip/services.go:147-152 | for all octets, an Error decodes without error if and only if two values for its targets follow, and panics if and only if one of them does |
| `ReplyProofs.IamAcceptedIff` | bacip/services.go:60-67 | the same for an I-Am and its four targets |
| `ReplyProofs.ReplyNamesItsObject` | internal/encoding/decoding.go:79-108 | of an accepted reply, the object was read from octets, and does not depend on the receiver, if and only if the first tag is number 0; otherwise the reply starts at bracket 3 and the object is the receiver's |
| `ReplyProofs.ReplyNamesItsProperty` | internal/encoding/decoding.go:48-77 | of an accepted reply, the property was read from octets if and only if after the object comes tag 1 with a length of one to four; it is the number they spell, and zero otherwise |
| `ReplyProofs.ReplyNamesItsIndex` | bacip/services.go:92-100 | of an accepted reply, the index is present if and only if tag 2 follows object and property, and is the number its octets spell |
| `ReplyProofs.EmptyPropertyIsAccepted` | internal/encoding/decoding.go:329-332 | a property tag whose length is zero or over four is accepted and reads as property zero |
| `ServiceProofs.ReadRequestRoundTrip` | bacip/services.go:76-85 | a request reads back field by field to its last octet, with or without index, if and only if the identifier has a ten-bit type |
| `ServiceProofs.WritePropertyEncodes` | bacip/services.go:113-128 | encoding succeeds exactly for a valid identifier and an accepted value, and gives the lead, the bracketed value and the priority |
| `ServiceProofs.WritePropertyRoundTrip` | bacip/services.go:113-128 | a whole body reads back field by field to its last octet if and only if the identifier has a ten-bit type and the value a readable one |
| `WireFormat.WhoIsOctets` | bacip/services.go:15-28 | the octets of a Who-Is |
| `WireFormat.IamOctets` | bacip/services.go:51-58 | the octets of an I-Am, and when there are any |
| `WireFormat.ReadPropertyOctets` | bacip/services.go:76-85 | the octets of a ReadProperty, and when there are any |
| `WireFormat.WritePropertyOctets` | bacip/services.go:113-128 | the octets of a WriteProperty, the value in bracket 3 and the priority in field 4, and when there are any |
| `WireFormat.ReplyOctets` | bacip/services.go:87-104 | the octets of the replies that the round trips are about |
| `Network.MarshalApdu` | bacip/network_types.go:279-294 | header and payload, a control octet and invoke id only for confirmed requests |
| `Network.ApduRef.UnmarshalBinary` | bacip/network_types.go:295-329 | the receiver and error, an invoke id only for replies, the payload selected by type and service |
| `Network.ControlOctet` | bacip/network_types.go:46-66 | each of the four flags and the priority can be told from the bits of the summed octet |
| `Network.MarshalNpdu` | bacip/network_types.go:43-96 | the header fields that apply, in order, then the APDU, or the first error |
| `Network.NpduRef.UnmarshalBinary` | bacip/network_types.go:98-179 | the receiver and error for all octets, the partially filled receiver included |
| `Network.MarshalBvlc` | bacip/network_types.go:373-385 | header, wrapped length and NPDU |
| `Network.BvlcRef.UnmarshalBinary` | bacip/network_types.go:389-415 | the receiver and error for all octets |
| `NetworkProofs.ApduRoundTrip` | bacip/network_types.go:279-329 | an APDU the client can encode comes back if and only if it is neither a confirmed request nor a reply and its payload is the Who-Is, I-Am or octets of its type and service and survives |
| `NetworkProofs.ReadAckDecodes` | bacip/network_types.go:301-319 | a device's acknowledgement of a ReadProperty decodes to its invoke id, object, property, index and value |
| `NetworkProofs.ErrorReplyDecodes` | bacip/network_types.go:321-322 | a device's error decodes to its invoke id, class and code |
| `FrameFormat.ApduOctetsSent` | bacip/network_types.go:279-294 | the octets of an APDU, and that an Error or a nil payload has none |
| `FrameFormat.ApduFromOctets` | bacip/network_types.go:295-329 | for all octets of an APDU, its type, invoke id, service and error, and which of five payloads its type and service number select |
| `FrameFormat.WhoIsArrives` | bacip/network_types.go:311-313 | a Who-Is behind 0x10 and 8 comes back if and only if it has both limits or none |
| `FrameFormat.WhoIsSetsBoth` | bacip/services.go:30-42 | an empty Who-Is leaves its receiver alone, any other sets both limits |
| `FrameFormat.IamArrives` | bacip/network_types.go:314-315 | an I-Am behind 0x10 and 0 comes back if and only if its identifier has a ten-bit type |
| `FrameFormat.ReadAckArrives` | bacip/network_types.go:317-319 | the octets of a device's acknowledgement, written out, decode to its id and reply |
| `FrameFormat.ErrorArrives` | bacip/network_types.go:320-322 | the octets of a device's Error, with numerals of any length, decode to its id, class and code |
| `FrameFormat.UnknownPropertyArrives` | bacip/network_types.go:320-322 | seven octets decode to class 2 and code 32 |
| `NetworkProofs.HeaderDecodes` | bacip/network_types.go:98-179 | a fitting NPDU header decodes to its normal form around whatever the octets after it decode to |
| `NetworkProofs.DecodedIsFramed` | bacip/network_types.go:98-179 | whatever the octets, an NPDU decoded without error has version 1, addresses that fit, and an APDU exactly when it is not a network message |
| `NetworkProofs.NpduRoundTrip` | bacip/network_types.go:43-179 | decodes to its normal form if and only if the header fits, an APDU is present exactly when it is not a network message, type 0x80 has no vendor id, and the APDU comes back |
| `NetworkProofs.NormalFormEncodesAlike` | bacip/network_types.go:43-96 | the normal form is encoded as the same octets |
| `FrameFormat.NpduOctetsSent` | bacip/network_types.go:43-96 | the octets of an NPDU, and when there are any |
| `FrameFormat.HeaderFromOctets` | bacip/network_types.go:98-179 | for every control octet of no network message, reserved bits included, and any addresses, networks of zero included, what the header decodes to |
| `NetworkProofs.LengthFieldCounts` | bacip/network_types.go:381-383 | the length field is the octet count if and only if the frame has at most 65535 octets |
| `NetworkProofs.FrameRoundTrip` | bacip/network_types.go:279-415 | through all layers a frame the client can encode decodes to its normal form if and only if it is BACnet/IP, at most 65535 octets long, and its NPDU comes back |
| `FrameFormat.FrameOctetsSent` | bacip/network_types.go:373-385 | the octets of a frame around those of its NPDU, the length wrapped |
| `FrameFormat.FrameFromOctets` | bacip/network_types.go:389-415 | foreign, coherent and incoherent frames, and what they decode to |
| `FrameFormat.WholeFrameSent` | bacip/network_types.go:279-385 | the octets of a frame around an APDU, from its first to the payload |
| `NetworkProofs.ApduComesFromOctets` | bacip/network_types.go:98-179 | for all octets of a frame, it has an APDU if and only if its BVLC and NPDU headers are complete and it is no network message; the APDU and the error are those of the octets behind them |
| `NetworkProofs.DeviceFrameOctets` | bacip/network_types.go:373-415 | in a frame built around some octets, these are the octets of its APDU |
| `TransactionTable.Transactions.constructor` | bacip/transaction.go:18-27 | no transaction, and the 256 ids queued in order |
| `TransactionTable.Transactions.GetID` | bacip/transaction.go:29-33 | takes the head of the queue |
| `TransactionTable.Transactions.FreeID` | bacip/transaction.go:35-38 | appends to the queue, which must have room |
| `TransactionTable.Transactions.SetTransaction` | bacip/transaction.go:40-50 | sets one entry and nothing else |
| `TransactionTable.Transactions.StopTransaction` | bacip/transaction.go:52-56 | removes one entry and nothing else |
| `TransactionTable.Transactions.GetTransaction` | bacip/transaction.go:58-63 | the entry under the id, if any |
| `Protocol.InitInvariant` | bacip/transaction.go:18-27 | the fresh client satisfies the invariant |
| `Protocol.InvariantStep` | bacip/client.go:185-196 | every step of every call and handler keeps id ownership, the exactness of the table and the match of replies to ids |
| `ProtocolRuns.IdOwnership` | bacip/transaction.go:18-38 | in every run each id is queued once or held by one call; an id can be taken exactly while fewer than 256 calls hold one; giving one back never blocks |
| `ProtocolRuns.RegistrationConsistency` | bacip/transaction.go:43-63 | in every run each entry is that of the one live call holding the id, with its channel and context; each live call has one; no free id has any |
| `ProtocolRuns.StopRemovesOwnEntry` | bacip/transaction.go:52-56 | StopTransaction removes the caller's own entry and keeps every other live call's |
| `ProtocolRuns.DeregisteredBeforeFreed` | bacip/client.go:302-324 | whatever way a call ends, it is deregistered before its id is given back and the id has no entry in between |
| `ProtocolRuns.ReplyIsolation` | bacip/client.go:185-196 | a delivery hands a received reply to the call that was registered under the reply's id at the lookup, and changes no other call |
| `ProtocolRuns.AnswerProvenance` | bacip/client.go:322-342 | any answer of any call was decoded from a received datagram, looked up while that call was registered under the decoded id, and delivered while it waited, by one handler |
| `ProtocolRuns.OneReplyPerCall` | bacip/client.go:329-342 | two deliveries never go to the same call |
| `ProtocolRuns.CallIsMade` | bacip/client.go:302-303 | in every run a call has the context it was made with and the id that was then at the head of the queue |
| `ProtocolRuns.EndedIff` | bacip/client.go:194-195 | in every run a context has ended if and only if some step ended it |
| `ProtocolRuns.UnansweredBecause` | bacip/client.go:326-342 | in every run a call that is through without an answer either could not send, or waited until its context had ended |
| `ProtocolRuns.AbandonedBecause` | bacip/client.go:194-195 | in every run a handler that gave up did so after the context of its call had ended |
| `ProtocolRuns.ReplyConservation` | bacip/client.go:185-196 | lookups that found a transaction are as many as deliveries, abandonments and waiting handlers together, and deliveries as many as answered calls |
| `ProtocolRuns.ProgressIff` | bacip/client.go:191-196 | a waiting handler can be released if and only if its call still waits or its context has ended |
| `ProtocolRuns.LateReplyWaitsForContext` | bacip/client.go:191-196 | a handler whose call no longer waits stays blocked as long as the call's context lasts |
| `ProtocolRuns.DuplicateIsHeld` | bacip/client.go:185-196 | a reply received twice for a waiting call can always leave one of its handlers in that position |
| `ProtocolRuns.WaitingCallCanEnd` | bacip/client.go:185-196 | a reply under the id of a waiting call can be looked up and delivered and end the call, which returns its id to the tail of the queue and changes no other call |
| `ProtocolRuns.NoNewHoldersAfterStop` | bacip/transaction.go:52-63 | once a call is deregistered the handlers holding its transaction can only become fewer |
| `ProtocolRuns.EndedContextDrains` | bacip/client.go:194-195 | once a context has ended all its handlers can leave by one abandonment each |
| `ProtocolRuns.FifoReuse` | bacip/transaction.go:18-38 | an id freed behind k others is next handed out by a step if and only if exactly k ids were taken in between |
| `ProtocolRuns.FreedIdIsUnlisted` | bacip/transaction.go:18-38 | until then the id has no entry, so a reply to its last call finds no transaction |
| `Client.HandleMessage` | bacip/client.go:168-198 | what a datagram leads to, given the shared state, up to the select, and what it hands to the subscription |
| `Client.HandlerStepsAgree` | bacip/client.go:185-196 | the method offers a reply to a transaction exactly when the protocol's arrival and lookup capture that transaction |
| `Client.Call` | bacip/client.go:301-406 | the frame sent, the outcome, a panic for a MAC of less than six octets, and that every exit, panics included, leaves no entry and the id at the tail of the queue |
| `ClientProofs.CallStepsAgree` | bacip/client.go:301-388 | the protocol's steps of a call whose send fails or whose context ends leave the shared state that the method leaves |
| `Client.Collect` | bacip/client.go:245-299 | fails exactly on an I-Am with another payload; otherwise lists exactly one device per distinct accepted I-Am, at the address of its last occurrence |
| `Client.Discover` | bacip/client.go:202-299 | the broadcast that is sent, and the datagrams through handleMessage into that loop: fails if and only if the broadcast cannot be sent or one of their messages is mismatched, otherwise lists the devices of their accepted I-Ams |
| `DispatchProofs.ReplyIdIs` | bacip/network_types.go:300-307 | the invoke id of a reply is its second octet if there is one, and zero if there is none |
| `DispatchProofs.HandlerPanicsIff` | bacip/network_types.go:295-329 | for all octets of an APDU, decoding it panics if and only if the tags of its payload say so |
| `DispatchProofs.CrashIff` | bacip/client.go:148-172 | for every datagram, its handler panics, without lookup or notification, if and only if it holds such an APDU |
| `DispatchProofs.DispatchIs` | bacip/client.go:168-198 | for all octets of a datagram, which of the six ways handleMessage takes, and whether the subscription is notified |
| `DispatchProofs.OutcomesAre` | bacip/client.go:329-382 | for all octets of a reply, the outcome of ReadProperty and of WriteProperty, by type and service number |
| `DispatchProofs.ConversionPanicsIff` | bacip/client.go:330-339 | the unchecked conversions fail if and only if the reply is an Error whose APDU ends before its service octet |
| `ClientProofs.TruncatedErrorPanicsItsCall` | bacip/client.go:170-196 | in every run each such Error, of one octet or two, reaches the live call whose id it counts as, which can end with it, and makes either kind of call panic |
| `ClientProofs.NamelessReplyEndsCallZero` | bacip/client.go:170-196 | in every run a reply of one octet reaches the live call with id zero and ends it, with a panic for an Error and as an invalid answer otherwise |
| `ClientProofs.AnswerNamesItsCall` | bacip/client.go:170-196 | in every run any answer of any call was decoded from the APDU octets of a received frame, whose second octet is the call's id, or which is a single octet and the id zero |
| `DispatchProofs.ErrorIsDecodedIff` | bacip/client.go:332-334 | both calls return an error's class and code if and only if its three leading octets are there, and these were decoded without error if and only if two values for them follow |
| `DispatchProofs.IamIsDecodedIff` | bacip/client.go:264-290 | a Who-Is takes a device from an I-Am if and only if its two leading octets are there, and it was decoded without error if and only if four values for it follow |
| `DispatchProofs.TruncatedIamIsAccepted` | bacip/client.go:264-290 | an I-Am of those two octets alone is taken for the device of type and number zero unless the limits exclude it |
| `DispatchProofs.AnswerIsDecodedIff` | bacip/client.go:335-338 | ReadProperty returns a value if and only if the acknowledgement's three leading octets are there, and that value was decoded without error if and only if the rest is a well-formed reply |
| `ClientProofs.TruncatedAckAnswersNil` | bacip/client.go:335-338 | in every run an acknowledgement cut off behind its service reaches its call and makes ReadProperty succeed with nil |
| `DispatchProofs.MismatchIff` | bacip/client.go:264-270 | the type-mismatch exit is taken if and only if the APDU is the lone octet of an unconfirmed request |
| `DispatchProofs.DecodedIamIsIam` | bacip/client.go:264-270 | it is never taken for a frame decoded without error |
| `DiscoveryProofs.DiscoveryFailsIff` | bacip/client.go:245-299 | over any sequence of datagrams, some message is mismatched if and only if one of them holds that lone octet, so none is if all decode without error |
| `DiscoveryProofs.MessagesInOrder` | bacip/client.go:232-241 | the loop gets the messages in the order of their datagrams |
| `DiscoveryProofs.MessageOfPacket` | bacip/client.go:179-184 | one from each datagram with an APDU that did not panic, none from the others |
| `DiscoveryProofs.ListsLastAnnounced` | bacip/client.go:245-297 | whatever was received, the list holds exactly the devices announced in range by some I-Am and by no later one again, each once, with the I-Am's four values and its sender's address, behind the router's network when the frame names one |
| `DiscoveryProofs.AnnouncedDeviceIsListed` | bacip/client.go:264-297 | the device of an I-Am in range, in a frame that comes back from the wire, is listed at the source network and address of that frame, or at the sender alone, unless a later I-Am announces it again |
| `DispatchProofs.TruncatedFrameMismatches` | bacip/client.go:170-182 | a concrete seven-octet frame takes it |
| `ClientProofs.OfferGoesToHolder` | bacip/client.go:185-193 | in every run a reply is offered to the live call holding its id, with that call's channel and context, or to nobody |
| `ClientProofs.AnswerReachesItsCall` | bacip/client.go:322-338 | in every run a device's answer, whatever object and property it names and in any well-formed envelope, is offered to the registered call; while the call waits, lookup and delivery can end it with that answer, and it returns the device's value |
| `ClientProofs.ErrorReachesItsCall` | bacip/client.go:330-334 | the same for an error's class and code, for both kinds of call |
| `ClientProofs.AckReachesItsCall` | bacip/client.go:367-382 | the same for a simple acknowledgement, which makes WriteProperty succeed |
| `ClientProofs.ReplyReachesItsCall` | bacip/client.go:168-198 | in every run a reply under a live call's id, cleanly decoded or not, reaches that call if and only if decoding it does not panic; if it does, its handler is gone and no step hands the reply on |
| `ClientProofs.PanickingReplyIsLost` | bacip/client.go:148-172 | in no state can any handler arrive with a frame whose APDU panics |
| `ClientProofs.UnsignedClassPanics` | internal/encoding/decoding.go:147-158 | a concrete Error, with an unsigned for its class, does |
| `RequestProofs.RequestOctetsSent` | bacip/client.go:304-320 | a whole request frame in octets, with the route to the device's network if it names one |
| `RequestProofs.RequestHeaders` | bacip/client.go:304-320 | the two NPDU headers a request can have, without a router and with one, addressed to the device |
| `RequestProofs.WhoIsOctetsSent` | bacip/client.go:203-218 | the whole broadcast of a Who-Is in octets |
| `RequestProofs.RequestIsFramed` | bacip/client.go:302-320 | a request the client can send is a frame around the four octets of its header and its body, and its NPDU decodes to normal form |
| `RequestProofs.ReadRequestArrives` | bacip/client.go:301-325 | the whole frame of a ReadProperty carries its invoke id and service, and its body gives back object, property and index if and only if the identifier has a ten-bit type |
| `RequestProofs.WriteRequestArrives` | bacip/client.go:345-370 | the same for a WriteProperty, with value and priority, if and only if moreover the value is a readable one |
| `ClientProofs.LateReplyHappens` | bacip/client.go:185-196 | a concrete run of eight steps in which a duplicated acknowledgement leaves a handler held by a call that has its answer |

## Left out

- Sockets, interface discovery, `listen`, timers and logging: I/O; datagrams, ends of contexts and the success of a send are steps or parameters.
- `Client.HandleMessage`: what the subscription is handed is returned, and `Discover` passes such messages to `Collect` as a sequence; that the callback can block the handler while it holds the read lock is not modelled.
- `Client.Call`: one call without interference; the interleavings of calls and handlers are in `Protocol`, whose steps are the same critical sections.
- `TransactionTable.Transactions.GetID`: blocking is a precondition here and an enabling condition in `Protocol`.
- The payload of a struct that is reached through a pointer inside another struct (the APDU in an NPDU, the payload in an APDU) is stored by value: the code never shares it.
- The octet, character and bit string, date and time helpers of the encoder that nothing calls, and the stub `WriteProperty.UnmarshalBinary`.
- Error messages and wrapping: only what a caller can tell apart is kept.
- Configuration, command line and the baetyl glue (main.go, baetyl-bacnet, dmp), and the constant tables.
- Unbounded memory: a string tag of up to 2^32 octets is read as one sequence.
