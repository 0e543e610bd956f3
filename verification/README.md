# Zeek WebSocket client library: verified model

This project models the logic of the Zeek WebSocket client library and proves properties of it with
Dafny 4.11. `dafny verify dfyconfig.toml` checks everything.

The modules follow the library:

- `Ordering`, `Values`, `ValueOrder`: the recursive Zeek value, its derived order (`ValueOrder` says what
  it is in terms of what values hold), and sets and tables as the strictly ascending sequences that the
  B-trees of the Rust standard library iterate over. Collecting entries into a container is `Collect`:
  later entries replace earlier ones with an equal key.
- `Decimal`, `Timespans`, `Ports`: the text forms that the library prints and parses by hand, with
  64-bit and 16-bit bounds and the integer parser of the standard library.
- `Json`, `ValueCodec`, `Documents`, `Messages`, `MessageDocuments`: the tagged JSON encoding of values,
  the recognition of events and the messages of the protocol, over JSON trees (sections 3 to 7 of
  RFC 8259). Objects are sequences of members, read in document order, so member order, unknown members
  and duplicates are part of the model.
  `Documents` and `MessageDocuments` write the documents out, with literal names, for both directions.
- `Protocol`: the sans-I/O binding. It is a class of two queue objects and a state; the ghost field
  `history` records all public calls. `BindingState` is the same binding as a value.
- `ServiceRuns`, `Reactions`, `Client`, `EndToEnd`: the service loop. `ServiceRuns` is a state machine
  whose labels are what the environment does (clients publish or hang up, sends complete, a `select!`
  branch becomes ready, callbacks are made). `Client.Service` is the loop itself as a class with the loops of the
  program, run against a script of such labels; it makes exactly the run of the state machine.
  `Reactions` writes out what each frame and each send does, and `EndToEnd` joins the loop with the codec.
- `Records`: what the derive macro generates, as an encoder and a decoder over a schema with nested
  records.
- `Floats`, `NodeTimespans`, `NodeIntegers`, `NodeValues`: the Node conversions. Rounding to `f64` is
  roundTiesToEven of section 4.3.1 of IEEE 754-2019 on reals; `NodeIntegers` restates the conversion of
  timespans in integers.
- `PythonValues`, `PythonOrder`: the Python conversions and the order of the Python values.

Things outside the library are parameters: the text forms of timestamps, addresses and subnets
(`ValueCodec.Texts`, whose law is that each reads back what it prints; a timestamp may have no text), the
local-time conversion of Node timestamps (`NodeValues.Host`), and everything the network and the clients
do (`ServiceRuns.Label`).

Where the code and its comments differ, the code is modelled:

- `src/client.rs:149-151` speaks of a channel of size 1; the default configuration has 256 entries. The
  capacity is a parameter here.
- Serialization "should never fail" (`crates/zeek-websocket-types/src/lib.rs:500`), but it fails for
  timespans with a sub-second part outside the `i64` nanoseconds, and for timestamps without a local
  time; the service then panics (`EndToEnd.PublishPanics`, `EndToEnd.PanickingRun`).
- Reading a timespan in minutes, hours or days panics when the seconds leave `i64`
  (`Timespans.ParsePanics`, `Timespans.DaysPanic`); a run of the service then ends with the outcome `Panicked`.
- A comment in `src/protocol.rs:373-374` says an ACK is in the inbox; no ACK ever is
  (`Protocol.RunConserves`).
- The Node conversion of a count ignores the sign of the big integer (`NodeValues.CountFromNode`,
  `NodeValues.NegativeCount`).

## Model

| member | source | states |
|---|---|---|
| `Ordering.CollectSpec` | crates/zeek-websocket-types/src/lib.rs:625-631 | a collected container is strictly ascending and holds, for each key, exactly the last entry given |
| `Ordering.AscendingUnique` | crates/zeek-websocket-types/src/lib.rs:41-49 | an ascending container is determined by its elements: the canonical form |
| `Ordering.CollectMapCollect` | src/python.rs:441-452 | collecting, translating keys one-to-one and collecting again is collecting once |
| `Values.CmpTransitive` | crates/zeek-websocket-types/src/lib.rs:19-50 | the derived comparison is transitive through vectors, sets and tables at any depth |
| `Values.CmpEqual` | crates/zeek-websocket-types/src/lib.rs:19-50 | the comparison answers equal exactly on equal values |
| `Values.ValueOrderTotal` | crates/zeek-websocket-types/src/lib.rs:19-50 | the derived order is a strict total order on values, and table entries are equivalent exactly when their keys are equal |
| `ValueOrder.DeclarationOrder` | crates/zeek-websocket-types/src/lib.rs:22-49 | values of any two different variants are ordered as the variants are declared, whatever they hold |
| `ValueOrder.TextOrder` | crates/zeek-websocket-types/src/lib.rs:35-37 | strings, and enum values, are ordered by the first differing character, a proper prefix being smaller |
| `ValueOrder.TextsAscend` | crates/zeek-websocket-types/src/lib.rs:42 | collecting "foo" and "bar" gives the set of "bar" and "foo" |
| `ValueOrder.NumberOrder` | crates/zeek-websocket-types/src/lib.rs:27-34 | `false` is below `true`, and counts, integers and timestamps are ordered as numbers |
| `ValueOrder.FloatOrder` | crates/zeek-websocket-types/src/lib.rs:30 | negative infinity is below the finite numbers, these below infinity, and `NaN` is above all |
| `ValueOrder.TimespanOrder` | crates/zeek-websocket-types/src/lib.rs:31-32 | timespans are ordered by length |
| `ValueOrder.AddressOrder` | crates/zeek-websocket-types/src/lib.rs:38-39 | IPv4 addresses come before IPv6 ones, then the bits decide; subnets are ordered by address and then prefix |
| `ValueOrder.PortOrder` | crates/zeek-websocket-types/src/lib.rs:194-198 | ports are ordered by number and then TCP, UDP, ICMP, unknown |
| `ValueOrder.LexicographicOrder` | crates/zeek-websocket-types/src/lib.rs:19-50 | vectors, and sets by ascending elements, are ordered by their first difference, a proper prefix being smaller |
| `ValueOrder.TableOrder` | crates/zeek-websocket-types/src/lib.rs:41-49 | tables are ordered by the first difference of their ascending entries, keys before values |
| `Values.SetCanonical` | crates/zeek-websocket-types/src/lib.rs:121-128 | a collected set is canonical, holds exactly the given elements, and two are equal exactly when their elements are |
| `Values.TableCanonical` | crates/zeek-websocket-types/src/lib.rs:130-143 | a collected table is canonical and holds exactly the last entry given for each key |
| `Decimal.ParseIntExact` | crates/zeek-websocket-types/src/lib.rs:386 | the integer parser accepts exactly an optional sign (minus only for signed types) and digits whose number is in range |
| `Decimal.OverflowText` | crates/zeek-websocket-types/src/lib.rs:386 | a text is refused for overflow exactly if it starts with a sign and digits whose number leaves the range |
| `Decimal.EmptyText` | crates/zeek-websocket-types/src/lib.rs:386 | only the empty text is refused as empty |
| `Decimal.ParseShow` | crates/zeek-websocket-types/src/lib.rs:354-365 | a printed integer is parsed back, extreme values included |
| `Timespans.ParseExact` | crates/zeek-websocket-types/src/lib.rs:368-402 | a text is accepted with a duration exactly when it is an optional minus, digits and one of seven units, the number and its seconds fit `i64`, and the duration is number times unit |
| `Timespans.ParsePanics` | crates/zeek-websocket-types/src/lib.rs:394-402 | parsing aborts exactly on literals whose number fits `i64` while their seconds do not |
| `Timespans.DaysPanic` | crates/zeek-websocket-types/src/lib.rs:400 | such texts exist: every printed number of days from 106751991167301 up to the greatest `i64` aborts |
| `Timespans.ScaleMeaning` | crates/zeek-websocket-types/src/lib.rs:394-402 | the constructor chosen by a unit succeeds exactly in range and multiplies by the unit |
| `Timespans.FineUnits` | crates/zeek-websocket-types/src/lib.rs:394-397 | a printed number with `ns`, `us`, `ms` or `s` is that many nanoseconds, microseconds, milliseconds or seconds |
| `Timespans.CoarseUnits` | crates/zeek-websocket-types/src/lib.rs:398-400 | a printed number with `min`, `h` or `d` is that many times 60, 3600 or 86400 seconds, or aborts |
| `Timespans.ParseErrors` | crates/zeek-websocket-types/src/lib.rs:374-391 | a bad number is reported before a bad unit, and of the unit the whole rest of the text |
| `Timespans.NoUnit` | crates/zeek-websocket-types/src/lib.rs:374-386 | a text of only digits and minuses is refused for an empty number |
| `Timespans.UnitStartIsByteBoundary` | crates/zeek-websocket-types/src/lib.rs:374-389 | the index counted in characters is the byte offset of a character boundary |
| `Timespans.RoundTrip` | crates/zeek-websocket-types/src/lib.rs:348-366 | serialization succeeds exactly without a sub-second part or when the nanoseconds fit `i64`, and parsing the text returns the duration |
| `Ports.ParseExact` | crates/zeek-websocket-types/src/lib.rs:244-258 | a port is read from exactly an optional plus, digits for a 16-bit number, a slash and a protocol name |
| `Ports.Names` | crates/zeek-websocket-types/src/lib.rs:236-242 | the protocols are written `tcp`, `udp`, `icmp` and `?` |
| `Ports.ParseErrors` | crates/zeek-websocket-types/src/lib.rs:244-258 | a missing slash, then a bad number before the first slash, then an unknown name behind it is reported, with the text concerned |
| `Ports.RoundTrip` | crates/zeek-websocket-types/src/lib.rs:236-258 | a printed port is parsed back |
| `ValueCodec.ValueFields` | crates/zeek-websocket-types/src/lib.rs:20-21 | in any member order and with any other members, an object is read as a value exactly when its tag occurs once and names a variant and its content occurs once and is read as that variant, or is missing for a `none` |
| `ValueCodec.EntryFields` | crates/zeek-websocket-types/src/lib.rs:431-435 | a table entry is read exactly when key and value each occur once and are read, in any order |
| `ValueCodec.AbortComesFirst` | crates/zeek-websocket-types/src/lib.rs:431-435 | fields are decoded in document order, so an overflowing timespan aborts even before a missing or repeated field |
| `ValueCodec.SerializeTable` | crates/zeek-websocket-types/src/lib.rs:613-623 | the table serializer writes one element for each entry in order, or returns the first failure |
| `ValueCodec.EncodeSucceeds` | crates/zeek-websocket-types/src/lib.rs:20-50 | a value is encoded exactly when every timespan and timestamp in it, at any depth, has a text form |
| `ValueCodec.RoundTrip` | crates/zeek-websocket-types/src/lib.rs:19-50 | an encoded value is decoded to itself exactly when its reals are finite |
| `ValueCodec.DecodedValid` | crates/zeek-websocket-types/src/lib.rs:41-49 | whatever document a value is decoded from, its sets and tables are canonical |
| `ValueCodec.DecodeTableLastWins` | crates/zeek-websocket-types/src/lib.rs:625-631 | of several decoded entries with one key exactly the last is kept |
| `ValueCodec.EncodedTableAscends` | crates/zeek-websocket-types/src/lib.rs:613-623 | a table is written entry by entry in strictly ascending order of its keys |
| `Documents.PlainDocuments` | crates/zeek-websocket-types/src/lib.rs:21-50 | the documents of none, booleans, counts, integers, strings and enum values, tag and content; none has an empty object |
| `Documents.RealDocument` | crates/zeek-websocket-types/src/lib.rs:30 | a finite real is written as a number, any other one as `null` |
| `Documents.TimespanDocument` | crates/zeek-websocket-types/src/lib.rs:348-366 | whole seconds are written with `s`, other lengths as nanoseconds with `ns` if these fit `i64`, and otherwise not |
| `Documents.HostDocuments` | crates/zeek-websocket-types/src/lib.rs:33-39 | timestamps, addresses and subnets are written as their texts |
| `Documents.PortDocument` | crates/zeek-websocket-types/src/lib.rs:227-242 | a port is written as number, slash and the name of its protocol |
| `Documents.SequenceDocuments` | crates/zeek-websocket-types/src/lib.rs:41-42 | vectors and sets are written as the array of the documents of their elements, in order |
| `Documents.TableDocument` | crates/zeek-websocket-types/src/lib.rs:613-623 | a table is written as an array of objects with a key and a value |
| `Documents.ReadCount` | crates/zeek-websocket-types/src/lib.rs:28 | a count is read exactly from a non-negative integer |
| `Documents.ReadInteger` | crates/zeek-websocket-types/src/lib.rs:29 | an integer is read exactly from an integer that fits `i64` |
| `Documents.ReadReal` | crates/zeek-websocket-types/src/lib.rs:30 | a real is read from a number, an integer being rounded, and not from `null` |
| `Documents.ReadTimespanText` | crates/zeek-websocket-types/src/lib.rs:368-402 | a timespan is read from a text; overflow aborts, any other failure is an error |
| `Documents.ReadVector` | crates/zeek-websocket-types/src/lib.rs:41 | a vector is read element by element in order, the first failing element deciding the error |
| `Documents.ReadSet` | crates/zeek-websocket-types/src/lib.rs:42 | so is a set, whose elements are then collected |
| `Documents.ReadTable` | crates/zeek-websocket-types/src/lib.rs:625-631 | a table is read entry by entry, key before value, and then collected |
| `Documents.UnknownTag` | crates/zeek-websocket-types/src/lib.rs:20-21 | exactly the fifteen tags name variants |
| `Documents.MissingMembers` | crates/zeek-websocket-types/src/lib.rs:20-21 | the error names the missing member |
| `Documents.Mistyped` | crates/zeek-websocket-types/src/lib.rs:20-21 | a tag that is no text and an entry that is no object are refused |
| `Documents.RepeatedMembers` | crates/zeek-websocket-types/src/lib.rs:20-21 | the error names the repeated member |
| `Documents.ThirdMember` | crates/zeek-websocket-types/src/lib.rs:20-21 | a third tag or content is an error only once the value has been read |
| `Documents.ContentFirst` | crates/zeek-websocket-types/src/lib.rs:20-21 | a content before its tag is read as one behind it, whatever follows |
| `Documents.EntryMembers` | crates/zeek-websocket-types/src/lib.rs:431-435 | of a table entry the missing or repeated member is named |
| `Documents.EntryThird` | crates/zeek-websocket-types/src/lib.rs:431-435 | a third key or value is an error only once the entry has been read |
| `Messages.EventRecognised` | crates/zeek-websocket-types/src/lib.rs:552-573 | whatever the first element and the trailing ones, the number 1 and a vector of name and arguments make an event; its metadata is empty, the elements of a third vector, or any other third element alone |
| `Messages.OnlyEventsRecognised` | crates/zeek-websocket-types/src/lib.rs:552-573 | exactly the values of this shape are events, and all others are kept as they are |
| `Messages.NormalisedFixes` | crates/zeek-websocket-types/src/lib.rs:552-595 | decoding after encoding is the identity on events, and on other data exactly when it is not event-shaped |
| `Messages.RecognitionNormalForm` | crates/zeek-websocket-types/src/lib.rs:552-595 | recognition is unchanged by encode-decode, and encode-decode is idempotent |
| `Messages.EventCanonicalIff` | crates/zeek-websocket-types/src/lib.rs:552-595 | encode-decode fixes an event-shaped value exactly when its format number is 1, nothing is left over and the metadata is a vector |
| `Messages.EventDocument` | crates/zeek-websocket-types/src/lib.rs:575-595 | the document of an event is the tree that the protocol prescribes |
| `MessageDocuments.ControlDocuments` | crates/zeek-websocket-types/src/lib.rs:450-468 | the documents of acknowledgements and errors, member by member |
| `MessageDocuments.AckRead` | crates/zeek-websocket-types/src/lib.rs:454-459 | in any order and with any other members, exactly the objects with one type `ack`, one text endpoint and one text version are acknowledgements |
| `MessageDocuments.ErrorRead` | crates/zeek-websocket-types/src/lib.rs:462-468 | exactly those with one type `error`, one code and one of context and message are errors |
| `MessageDocuments.DataRead` | crates/zeek-websocket-types/src/lib.rs:471-479 | exactly those with one type `data-message` and one topic that are themselves documents of a value are data messages |
| `MessageDocuments.TypeRefused` | crates/zeek-websocket-types/src/lib.rs:450-452 | a missing, mistyped or unknown type is refused as such |
| `MessageDocuments.Repeated` | crates/zeek-websocket-types/src/lib.rs:450-480 | a repeated type or topic is refused as such |
| `MessageDocuments.TextMissing` | crates/zeek-websocket-types/src/lib.rs:454-468 | of the two texts of an acknowledgement or error the missing one is named |
| `MessageDocuments.TextRepeated` | crates/zeek-websocket-types/src/lib.rs:454-468 | a repeated one is named, under its first name |
| `Messages.MessageRoundTrip` | crates/zeek-websocket-types/src/lib.rs:450-480 | a message is encoded exactly when its timespans and timestamps have text forms, and then decoded to its normalised form exactly when its reals are finite |
| `Messages.ErrorAlias` | crates/zeek-websocket-types/src/lib.rs:465-466 | an error whose context is named `message` is read like any other |
| `Messages.FlatteningInvisible` | crates/zeek-websocket-types/src/lib.rs:472-480 | removing the fields of the message does not change the value read from the rest, for any members in any order |
| `Protocol.HandleConserves` | src/protocol.rs:97-117 | a message is rejected exactly if it is a repeated ACK or carries no event, and then changes nothing; only events and errors enter the inbox |
| `Protocol.ApplyConserves` | src/protocol.rs:71-179 | every public call conserves both queues |
| `Protocol.RunConserves` | src/protocol.rs:97-149 | over every sequence of public calls, results and inbox are the accepted messages in order, taken and pending documents are the subscription and the published events in order, and neither unreachable site is reached |
| `Protocol.Inbox.NextEvent` | src/protocol.rs:198-210 | removes exactly the shortest prefix ending in the first event, or everything when there is none |
| `Protocol.Inbox.DrainEvents` | src/protocol.rs:198-210 | asking until there is none yields exactly the event subsequence of the queue, in order |
| `Protocol.Outbox.NextData` | src/protocol.rs:218-220 | removes and returns the head of the queue, if any |
| `Protocol.Outbox.Enqueue` | src/protocol.rs:223-228 | appends one document; serialization must succeed |
| `Protocol.Binding.constructor` | src/protocol.rs:79-89 | a new binding is subscribing, with an empty inbox and the subscription queued |
| `Protocol.Binding.HandleIncoming` | src/protocol.rs:97-117 | refines the binding value, keeps the invariant, and changes nothing on an error |
| `Protocol.Binding.Outgoing` | src/protocol.rs:120-122 | refines the binding value and keeps the invariant |
| `Protocol.Binding.ReceiveEvent` | src/protocol.rs:129-149 | refines the binding value; both unreachable sites are proved dead |
| `Protocol.Binding.PublishEvent` | src/protocol.rs:162-167 | appends the event to the outbox and keeps the invariant |
| `Protocol.Binding.Split` | src/protocol.rs:175-177 | gives up both queues; together with what was returned they hold everything accepted and published |
| `ServiceRuns.StepInv` | src/client.rs:168-262 | every step of every interleaving keeps the invariant |
| `ServiceRuns.RunInv` | src/client.rs:168-262 | every reachable state satisfies the invariant |
| `ServiceRuns.CallbacksDetermined` | src/client.rs:208-258 | whatever the interleaving, channel and subscription, the callbacks made are those that the frames read call for, or all but the one being made |
| `ServiceRuns.CallbacksPrefix` | src/client.rs:229-256 | reading more frames only adds callbacks, at most one for each frame |
| `ServiceRuns.FramesSent` | src/client.rs:181-227 | the frames sent are always a prefix of the subscription, the accepted events in channel order and one Close; the channel stays within its capacity and no more accepted events than that are behind |
| `ServiceRuns.GracefulClose` | src/client.rs:210-227 | Close (section 5.5.1 of RFC 6455) has been sent exactly if all handles are dropped and every accepted event was sent, once and in order, before it |
| `ServiceRuns.DrainFinishes` | src/client.rs:210-227 | progress: from every loop head reached with all handles dropped and encodable events in the channel, sending alone ends the run with every accepted event sent, once and in order, and then Close |
| `ServiceRuns.HandshakeSafety` | src/client.rs:181-206 | the subscription is the first frame, `connected` is the first callback and made once, and nothing else is sent or called before it |
| `ServiceRuns.AckLimit` | src/client.rs:186-206 | at most three ACKs are read in a run, and the third is what ends it with `AlreadySubscribed` |
| `ServiceRuns.LaterAck` | src/client.rs:186-248 | the first ACK after the handshake leaves no trace but the state, the second ends the run |
| `ServiceRuns.FailureDetermined` | src/client.rs:229-248 | a run has ended with a protocol failure exactly if the frames it read prescribe that failure |
| `ServiceRuns.LoopHead` | src/client.rs:222-255 | at the head of the main loop both queues are empty, and each inner loop runs for one element |
| `Reactions.PingSkipped` | src/client.rs:193-195 | a ping in the handshake or in the main loop changes nothing but what was read |
| `Reactions.PingsDoNotMatter` | src/client.rs:236-238 | two runs that read the same frames but for pings make the same callbacks |
| `Reactions.NeverStuck` | src/client.rs:208-258 | in every reachable state the service can go on until it has ended, listens to both sides in the main loop, and clients can publish while there is room and hang up |
| `Reactions.HandshakeErrors` | src/client.rs:197 | in the handshake an unexpected frame and a bad document end the service, each with its own error, and an aborting one with a panic |
| `Reactions.HandshakeMessages` | src/client.rs:197-205 | an ACK opens the main loop with the connected callback, any other message ends the service |
| `Reactions.LoopErrors` | src/client.rs:240-246 | in the main loop the error callback is made with the cause, and the loop goes on |
| `Reactions.LoopRefuses` | src/protocol.rs:105-110 | data that is no event ends the service, with that data in the error |
| `Reactions.LoopAck` | src/protocol.rs:99-104 | an ACK in the main loop changes the subscription state once and then ends the service |
| `Reactions.LoopDelivers` | src/client.rs:248-255 | events and errors are queued and passed to the event and error callbacks |
| `Reactions.StreamEnds` | src/client.rs:187-192 | the end of the stream ends the service without an error, a broken stream with one |
| `Reactions.Sending` | src/client.rs:182-184 | documents are sent from the head of the outbox, and a failing send ends the service |
| `Reactions.Closes` | src/client.rs:211-220 | with no handle and no event left a Close frame is sent and the service ends |
| `Reactions.Publishes` | src/client.rs:222-226 | the oldest event leaves the channel and is queued, or the service panics if it has no document |
| `Client.Service.SendAll` | src/client.rs:182-184 | the drain loop terminates with an empty outbox, having made exactly the sends of the state machine |
| `Client.Service.AwaitAck` | src/client.rs:186-206 | the handshake loop follows the state machine to the main loop or to an outcome |
| `Client.Service.PublishNext` | src/client.rs:210-227 | the publish branch follows the state machine and returns to empty queues |
| `Client.Service.DeliverAll` | src/client.rs:250-255 | the callback loop terminates with an empty inbox and follows the state machine |
| `Client.Service.ReceiveNext` | src/client.rs:229-256 | the stream branch follows the state machine and returns to empty queues |
| `Client.Service.Serve` | src/client.rs:168-262 | the program makes exactly the run of the state machine that the script describes, with the same frames, callbacks and outcome |
| `EndToEnd.SubscriptionDocument` | crates/zeek-websocket-types/src/lib.rs:672-673 | the subscription is the array of its topics in order |
| `EndToEnd.UnreadableFrame` | src/client.rs:240-246 | a frame without a document, or with one that is no message, leads to the error callback and nothing else |
| `EndToEnd.PeerReadsEvents` | src/client.rs:222-226 | in every run the peer decodes from the documents sent exactly the accepted events, in order |
| `EndToEnd.EventReachesClient` | src/client.rs:237-255 | an event that a peer serializes reaches the `event` callback unchanged |
| `EndToEnd.PublishPanics` | crates/zeek-websocket-types/src/lib.rs:496-502 | taking an event from the channel panics exactly if its serialization fails |
| `EndToEnd.UnprintableEvent` | crates/zeek-websocket-types/src/lib.rs:1158-1166 | an event exists whose serialization fails |
| `EndToEnd.PanickingRun` | crates/zeek-websocket-types/src/lib.rs:496-502 | the run that publishes it right after the handshake ends with a panic |
| `Records.DecodeRecord` | crates/zeek-websocket-derive/src/lib.rs:250-266 | the field-by-field loop with early return computes the record decoder |
| `Records.DecodeSucceeds` | crates/zeek-websocket-derive/src/lib.rs:219-266 | decoding succeeds exactly on vectors whose padding with `None` matches every field's type and range, at any depth |
| `Records.FirstError` | crates/zeek-websocket-derive/src/lib.rs:219-266 | the error is that of the first failing field in declaration order |
| `Records.PlainFields` | crates/zeek-websocket-types/src/lib.rs:69-76 | a field takes the values of one variant, and any other variant is a mismatch |
| `Records.CountFields` | crates/zeek-websocket-types/src/lib.rs:82-85 | an unsigned field of 8, 16, 32 or 64 bits takes the counts in range; others are domain errors |
| `Records.IntegerFields` | crates/zeek-websocket-types/src/lib.rs:86-89 | a signed field takes the integers in range; others are domain errors |
| `Records.ErrorExact` | crates/zeek-websocket-derive/src/lib.rs:219-266 | the decoder fails with exactly the error that the first failing field calls for, at any depth |
| `Records.EncodedFields` | crates/zeek-websocket-derive/src/lib.rs:178-209 | a record is written as the vector of its fields in declaration order, unset ones as `None` |
| `Records.DecodePrefix` | crates/zeek-websocket-derive/src/lib.rs:224-228 | decoding depends only on the padded elements at the declared positions |
| `Records.RoundTrip` | crates/zeek-websocket-derive/src/lib.rs:178-209 | a typed record is decoded from its own encoding |
| `Records.DecodeOld` | crates/zeek-websocket-derive/src/lib.rs:178-267 | an encoding under the old schema read with the evolved one is the record with the added optional fields unset, nested records included |
| `Records.DecodeNew` | crates/zeek-websocket-derive/src/lib.rs:178-267 | an encoding under the evolved schema read with the old one is the projection |
| `Records.ProjectExtend` | crates/zeek-websocket-derive/src/lib.rs:178-267 | projecting the extended record gives the old record back |
| `Floats.RoundError` | bindings/node/zeek-websocket-node/src/lib.rs:168-173 | rounding to `f64` is off by at most half a unit in the last place |
| `Floats.RoundOfInt` | bindings/node/zeek-websocket-node/src/lib.rs:169 | the conversion of an integer to `f64` is an integer computation |
| `NodeTimespans.RepresentableIff` | bindings/node/zeek-websocket-node/src/lib.rs:169 | an integer survives the conversion to `f64` exactly when at most 53 bits remain without its trailing zeros |
| `NodeTimespans.NodeExact` | bindings/node/zeek-websocket-node/src/lib.rs:168-178 | up to 2^53 nanoseconds the computed seconds and rest are the integer quotient and remainder, and converting back returns the nanoseconds |
| `NodeTimespans.ToDurationGeneral` | bindings/node/zeek-websocket-node/src/lib.rs:168-178 | for every `i64` nothing saturates or aborts, the error is the difference of two rounding errors, and the timespan survives exactly when they agree |
| `NodeIntegers.SecondsInteger` | bindings/node/zeek-websocket-node/src/lib.rs:171 | for every `i64` the seconds computed in floating point are an integer quotient, with 512 nanoseconds added from 2^33 seconds on |
| `NodeIntegers.ToDurationSettled` | bindings/node/zeek-websocket-node/src/lib.rs:168-178 | for every `i64` the conversion yields a duration of the rounded nanoseconds less what rounding the whole seconds added |
| `NodeIntegers.SettledIff` | bindings/node/zeek-websocket-node/src/lib.rs:168-178 | this length is the original one exactly if up to 2^62 it is representable, and beyond if it is a multiple of 1024 (even seconds) or a multiple of 2048 away from the whole seconds (odd seconds) |
| `NodeIntegers.NodeRoundTrip` | bindings/node/zeek-websocket-node/src/lib.rs:168-178 | every `i64` comes back from its duration exactly if it meets that condition |
| `NodeIntegers.NodeInexact` | bindings/node/zeek-websocket-node/src/lib.rs:168-178 | from 2^53 + 1 on, up to the end of `i64`, every odd number of nanoseconds is lost |
| `NodeIntegers.SecondTripKept` | bindings/node/zeek-websocket-node/src/lib.rs:168-178 | whatever the length, after two conversions it is one that the conversion keeps |
| `NodeValues.PlainForms` | bindings/node/zeek-websocket-node/src/lib.rs:221-227 | none, booleans, counts, integers and reals keep their variant in both directions |
| `NodeValues.TextForms` | bindings/node/zeek-websocket-node/src/lib.rs:228-251 | so do strings, enum values and ports |
| `NodeValues.HostForms` | bindings/node/zeek-websocket-node/src/lib.rs:252-275 | addresses and subnets pass as texts, timespans and timestamps as nanoseconds |
| `NodeValues.ContainerForms` | bindings/node/zeek-websocket-node/src/lib.rs:230-241 | vectors and sets keep their kind and the order of their elements |
| `NodeValues.TableForms` | bindings/node/zeek-websocket-node/src/lib.rs:242-247 | tables keep the order of their entries, keys and values in their places |
| `NodeValues.FromHostForms` | bindings/node/zeek-websocket-node/src/lib.rs:156-209 | texts and instants that the host does not read, and numbers of several words, are refused |
| `NodeValues.ContainersFrom` | bindings/node/zeek-websocket-node/src/lib.rs:184-195 | any vector from Node keeps its elements, any set is collected |
| `NodeValues.TablesFrom` | bindings/node/zeek-websocket-node/src/lib.rs:196-201 | any table from Node is collected, the last entry for a key being kept |
| `NodeValues.ToNodeSucceeds` | bindings/node/zeek-websocket-node/src/lib.rs:216-278 | the conversion to Node succeeds exactly if every timespan fits `i64` nanoseconds and every timestamp has a Node form, at any depth |
| `NodeValues.NodeRounds` | bindings/node/zeek-websocket-node/src/lib.rs:149-278 | for every value, the way to Node and back fails exactly on timespans outside `i64` and instants that the host does not convert, never aborts, and otherwise settles every timespan, takes every instant through the host and collects containers anew |
| `NodeValues.NodeRoundTripValue` | bindings/node/zeek-websocket-node/src/lib.rs:149-278 | a value that comes back unchanged has only timespans that the conversion keeps, and if the host keeps its instants that is sufficient |
| `NodeValues.CountFromNode` | bindings/node/zeek-websocket-node/src/lib.rs:156-161 | a big integer is accepted exactly when it is one word, and comes back unchanged exactly when it is not negative |
| `NodeValues.NegativeCount` | bindings/node/zeek-websocket-node/src/lib.rs:156-161 | minus five arrives as five |
| `PythonValues.PyOrderTotal` | src/python.rs:53-78 | the derived order of Python values is a strict total order agreeing with equality |
| `PythonOrder.PyDeclarationOrder` | src/python.rs:53-78 | Python values of any two different variants are ordered as the variants are declared |
| `PythonOrder.PyStringOrder` | src/python.rs:74 | strings are ordered by the first differing character |
| `PythonOrder.PyEnumOrder` | src/python.rs:76 | so are enum values |
| `PythonOrder.PyNumberOrder` | src/python.rs:59-64 | booleans, counts, integers and timestamps are ordered as numbers |
| `PythonOrder.PyMeasureOrder` | src/python.rs:62-63 | reals are ordered with infinities and `NaN`, timespans by length |
| `PythonOrder.PyAddressOrder` | src/python.rs:65-66 | addresses by family and bits, subnets by address and then prefix |
| `PythonOrder.PyPortOrder` | src/python.rs:508-517 | ports by number and then unknown, TCP, UDP, ICMP |
| `PythonOrder.PySequenceOrder` | src/python.rs:68-69 | vectors and sets by their first difference |
| `PythonOrder.PyTableOrder` | src/python.rs:70 | tables by their first differing entry, keys before values |
| `PythonOrder.PyRecordOrder` | src/python.rs:71 | records by their first differing field, names before values, and their fields ascend by name |
| `PythonOrder.ProtocolOrderDiffers` | src/python.rs:508-517 | the unknown protocol is the smallest in Python and the greatest on the wire |
| `PythonValues.ToWireSucceeds` | src/python.rs:426-471 | the conversion to the wire succeeds exactly when every subnet prefix fits its address |
| `PythonValues.NumberForms` | src/python.rs:431-434 | booleans, counts, integers and reals keep their variant in both directions |
| `PythonValues.TimeForms` | src/python.rs:435-436 | so do timespans, timestamps and none |
| `PythonValues.TextForms` | src/python.rs:437-463 | so do strings and enum values |
| `PythonValues.NetworkForms` | src/python.rs:457-458 | so do addresses and ports |
| `PythonValues.SubnetForms` | src/python.rs:459-462 | a subnet is converted exactly if its prefix is at most 32 for IPv4 and 128 for IPv6 |
| `PythonValues.SequenceForms` | src/python.rs:438-445 | a vector keeps its elements, a set is collected |
| `PythonValues.RecordForms` | src/python.rs:453-456 | a record becomes the vector of its values in the order of their names |
| `PythonValues.TableForms` | src/python.rs:446-452 | a table is collected from its converted entries |
| `PythonValues.WireValid` | src/python.rs:441-457 | what reaches the wire has canonical sets and tables |
| `PythonValues.WireRoundTrip` | src/python.rs:473-510 | a wire value comes back from Python unchanged |
| `PythonValues.WireErases` | src/python.rs:426-510 | to the wire and back is exactly the erasure of records, including the merging of keys and elements |
| `PythonValues.EraseShape` | src/python.rs:441-457 | erasure leaves no record, keeps containers canonical and never makes a set or table larger |
| `PythonValues.EraseIdentity` | src/python.rs:426-510 | erasure changes nothing exactly on values without records |
| `PythonValues.ErasedTableKeepsLast` | src/python.rs:447-453 | of the keys that erasure makes equal the last in Python order keeps its entry |
| `PythonOrder.ErasureMerges` | src/python.rs:454-457 | a record and the vector of its value are two elements of a set before and one after |

## Left out

- Sockets, TLS, the HTTP upgrade and the tokio runtime: the stream is any sequence of frames, failures and an end, the channel a bounded queue.
- JSON text, escaping and number formatting: the model starts at JSON trees, with numbers outside 64 bits as floating-point ones.
- The array forms and numeric variant tags that generated deserializers also accept for objects: only the object forms are modelled.
- Error texts: failures are told apart by kind.
- The two zeros of a floating-point number are one value, as their comparison says; the sign of zero is not modelled.
- `Floats.Round`: has no largest exponent, since no value here reaches the overflow threshold.
- `NodeValues.NodeRoundTripValue`: sufficient only when the host keeps the instants of the value, because their Node conversion reinterprets local time.
- The host's reasons for not converting a Node timestamp: they are one error.
- `Client.Service`: the callbacks and the network are labels of the script, so nothing is said about how long they take.
- Timestamps, addresses and subnets as texts: their formats belong to other crates.
- Conversions from Rust scalars, hash containers and `f32` into values: single wrappers.
- The C binding, the Node and Python protocol wrappers, Python type inference and dataclass construction, the mock server, benchmarks and examples: forwarding, or decided by another runtime.
- Macro token handling and compile errors: the meaning of the generated code is modelled, not its quoting.
