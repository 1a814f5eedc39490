# Polling dispatch and JSON message mapping, modelled in Dafny

This project models two pieces of Spring Integration as pure functions over immutable values, and proves what they promise.

**The polling dispatch pipeline.** The test fixture builds a channel that holds at most ten messages and puts a polling dispatcher in front of it. The polling dispatcher owns a broadcasting dispatcher, and each dispatcher test subscribes one byte-stream consumer to it. The two single-message tests skip the dispatcher and call the consumer's `send` directly. A test sends messages into the channel and then calls `run()` by hand. Each call drains the channel from the head for one cycle, within the configured message limit and receive timeout. Every message drained is passed on to each subscriber, and the consumer appends the payload's bytes to its stream.

The channel and the byte streams form the state that a cycle transforms. A stream is a byte sequence, and the model holds the contents of `ByteArrayOutputStream`s as a sequence of such streams. A target names the stream it writes to.

**The JSON outbound message mapper.** `JsonOutboundMessageMapper.fromMessage` writes a message as compact JSON text. By default the text is an object with a `headers` member, holding the id, the timestamp and any history, and a `payload` member. The model writes it as `{"headers":{"id":…,"timestamp":…,"history":[…]},"payload":…}`. That member order is the model's choice. With `shouldExtractPayload` set, the text is the payload's JSON alone. `MessageHistory.write` returns a new message whose history ends with the writing component's name and type.

Each half has a reference for its proofs:
- A JSON reader (`JsonParser`) is proved to read back every document the serialiser writes. Statements about the mapper's output therefore come in two forms: what the text parses back to, and what substrings it contains, which is what the tests check.
- A UTF-8 decoder is proved inverse to the encoder that turns a `String` payload into bytes.

Modules, leaf first:
- `Wrappers`: `Option` and `Result`.
- `Utf8`: bytes, plus encoding and decoding.
- `Text`: substring search and decimal numerals.
- `Json`: JSON values, the serialiser and string escaping.
- `JsonParser`: the reader and the round-trip proof.
- `Messaging`: messages, headers and history writes.
- `Channel`: `QueueChannel`.
- `Stream`: `ByteStreamTarget`.
- `Dispatcher`: `BroadcastingDispatcher`.
- `Bus`: `PollingDispatcher`.
- `JsonMapper`: `JsonOutboundMessageMapper`.
- `Scenarios`: the tests' fixtures, stated as lemmas.

Choices the model makes explicit:
- A `maxMessagesPerPoll` of 0 or less means no limit. The default is -1, so no limit. The default receive timeout is 1000 ms.
- The model is single-threaded. A receive or send with a timeout of 0 or more therefore ends as a zero timeout does. A negative timeout waits without limit, and the model reports that outcome (`SendBlocks`, `ReceiveBlocks`, `WaitsForProducer`) instead of looping for ever.
- A channel of capacity 0 accepts nothing. It is neither unbounded nor a rendezvous channel.
- A cycle ends in one of three ways:
  - the limit is reached, in which case no further receive is attempted;
  - a receive comes back empty;
  - it would wait for a producer.
- Subscribers form a set, so subscribing twice has no effect. A `ByteStreamTarget` refuses a payload that is neither `byte[]` nor `String`, and writes nothing for it. Delivery to the other subscribers, and the rest of the cycle, carry on.
- The mapper writes a `String` payload as a JSON string and a bean as the JSON object of its properties. A `byte[]` payload has no JSON form here and maps to `UnsupportedPayload`.

## Model

All `ByteStreamTargetTests.java` rows cite `org.springframework.integration.adapter/src/test/java/org/springframework/integration/adapter/stream/ByteStreamTargetTests.java`. All `JsonOutboundMessageMapperTests.java` rows cite `spring-integration-core/src/test/java/org/springframework/integration/json/JsonOutboundMessageMapperTests.java`.

| member | source | states |
|---|---|---|
| Channel.NewQueueChannel | org.springframework.integration.adapter/src/test/java/org/springframework/integration/adapter/stream/ByteStreamTargetTests.java:44-48 | a new channel is empty, holds its capacity, and is well formed (never more messages than capacity) |
| Channel.Send | org.springframework.integration.adapter/src/test/java/org/springframework/integration/adapter/stream/ByteStreamTargetTests.java:79-81 | a send is accepted exactly when there is room; an accepted message is appended at the tail and the earlier messages are unchanged; with a full buffer a negative timeout blocks and any other timeout declines |
| Channel.Receive | org.springframework.integration.adapter/src/test/java/org/springframework/integration/adapter/stream/ByteStreamTargetTests.java:82 | a receive succeeds exactly when the buffer is not empty and returns the head, leaving the rest in order; on an empty buffer only a negative timeout blocks |
| Channel.SendEachAppends | org.springframework.integration.adapter/src/test/java/org/springframework/integration/adapter/stream/ByteStreamTargetTests.java:79-81 | zero-timeout sends append at the tail in send order until the buffer is full; later sends change nothing |
| Channel.ReceiveUpToTakesOldest | org.springframework.integration.adapter/src/test/java/org/springframework/integration/adapter/stream/ByteStreamTargetTests.java:127-138 | receiving `n` messages takes the oldest `min(n, queued)` in order and leaves the rest queued |
| Channel.FifoRoundTrip | org.springframework.integration.adapter/src/test/java/org/springframework/integration/adapter/stream/ByteStreamTargetTests.java:79-86 | messages sent into an empty channel with room for them come back out in send order, leaving it empty |
| Stream.PayloadBytes | org.springframework.integration.adapter/src/test/java/org/springframework/integration/adapter/stream/ByteStreamTargetTests.java:52-70 | a byte array is written as it is; text is written as bytes that decode back to the text; any other payload is refused |
| Stream.Send | org.springframework.integration.adapter/src/test/java/org/springframework/integration/adapter/stream/ByteStreamTargetTests.java:52-70 | `send` succeeds exactly for byte and text payloads; it keeps the target stream's old contents as a prefix, appends the payload bytes (or bytes decoding to the text) after them, and leaves every other stream alone |
| Stream.WrittenAllAppend | org.springframework.integration.adapter/src/test/java/org/springframework/integration/adapter/stream/ByteStreamTargetTests.java:130-138 | the bytes written for two runs of messages are the first run's followed by the second's |
| Utf8.DecodeEncode | org.springframework.integration.adapter/src/test/java/org/springframework/integration/adapter/stream/ByteStreamTargetTests.java:67-70 | decoding the UTF-8 encoding of any string gives the string back |
| Utf8.EncodeDecode | org.springframework.integration.adapter/src/test/java/org/springframework/integration/adapter/stream/ByteStreamTargetTests.java:67-70 | bytes that decode are exactly the encoding of what they decode to |
| Utf8.EncodeAscii | org.springframework.integration.adapter/src/test/java/org/springframework/integration/adapter/stream/ByteStreamTargetTests.java:67-69 | an ASCII string encodes to one byte per character, each the character's code |
| Dispatcher.Subscribe | org.springframework.integration.adapter/src/test/java/org/springframework/integration/adapter/stream/ByteStreamTargetTests.java:78 | after subscribing, the subscribers are the old ones plus the target, still without duplicates |
| Dispatcher.NewBroadcastingDispatcher | org.springframework.integration.adapter/src/test/java/org/springframework/integration/adapter/stream/ByteStreamTargetTests.java:47 | a new broadcasting dispatcher has no subscribers and is well formed |
| Dispatcher.BroadcastDelivered | org.springframework.integration.adapter/src/test/java/org/springframework/integration/adapter/stream/ByteStreamTargetTests.java:47 | a broadcast reports delivery exactly when some target's `send` succeeded, which is when there is a target and the payload is bytes or text |
| Dispatcher.Dispatch | org.springframework.integration.adapter/src/test/java/org/springframework/integration/adapter/stream/ByteStreamTargetTests.java:47 | dispatch reports delivery exactly when someone is subscribed and the payload is one a target accepts; for distinct subscribers, each subscribed stream gets the message's bytes appended once and every other stream is unchanged |
| Dispatcher.BroadcastAppendsToEach | org.springframework.integration.adapter/src/test/java/org/springframework/integration/adapter/stream/ByteStreamTargetTests.java:47 | broadcasting target by target gives the same streams as appending the bytes once to every subscribed stream |
| Dispatcher.BroadcastAppendsOnce | org.springframework.integration.adapter/src/test/java/org/springframework/integration/adapter/stream/ByteStreamTargetTests.java:47 | broadcasting to distinct targets appends the message's bytes exactly once to each subscribed stream and leaves the others alone |
| Dispatcher.DispatchAppendsOnce | org.springframework.integration.adapter/src/test/java/org/springframework/integration/adapter/stream/ByteStreamTargetTests.java:78-86 | one dispatch appends the message's bytes once to a stream if and only if its target is subscribed |
| Bus.NewPollingDispatcher | org.springframework.integration.adapter/src/test/java/org/springframework/integration/adapter/stream/ByteStreamTargetTests.java:47 | a new polling dispatcher has no message limit and a finite positive receive timeout |
| Bus.SetMaxMessagesPerPoll | org.springframework.integration.adapter/src/test/java/org/springframework/integration/adapter/stream/ByteStreamTargetTests.java:77 | the limit is set and nothing else changes |
| Bus.SetReceiveTimeout | org.springframework.integration.adapter/src/test/java/org/springframework/integration/adapter/stream/ByteStreamTargetTests.java:109 | the timeout is set and nothing else changes |
| Bus.Subscribe | org.springframework.integration.adapter/src/test/java/org/springframework/integration/adapter/stream/ByteStreamTargetTests.java:78 | subscribing through the polling dispatcher adds the target to its dispatcher's set and leaves the limits alone |
| Bus.RunFrom | org.springframework.integration.adapter/src/test/java/org/springframework/integration/adapter/stream/ByteStreamTargetTests.java:74-117 | the receive-and-dispatch recursion takes exactly the next `Quota` messages from the head, delivers them in order, leaves the rest queued, and ends for the reason the count and timeout dictate |
| Bus.Run | org.springframework.integration.adapter/src/test/java/org/springframework/integration/adapter/stream/ByteStreamTargetTests.java:82 | one `run()` equals the declarative cycle `CycleSpec` (oldest `Quota` messages delivered in order, the rest still queued) and leaves a state the dispatcher can run on again |
| Bus.RunLoop | org.springframework.integration.adapter/src/test/java/org/springframework/integration/adapter/stream/ByteStreamTargetTests.java:82 | `run()` written as its receive/dispatch/count loop computes the same cycle as the functional definition |
| Bus.DeliverAllAppends | org.springframework.integration.adapter/src/test/java/org/springframework/integration/adapter/stream/ByteStreamTargetTests.java:74-86 | delivering a run of messages appends their bytes, in order, once, to a stream if and only if its target is subscribed |
| Bus.DeliverAllConcat | org.springframework.integration.adapter/src/test/java/org/springframework/integration/adapter/stream/ByteStreamTargetTests.java:121-139 | delivering two runs one after the other is delivering their concatenation |
| Bus.RunAppendsOldest | org.springframework.integration.adapter/src/test/java/org/springframework/integration/adapter/stream/ByteStreamTargetTests.java:90-101 | a cycle appends to each subscribed stream the bytes of the oldest `Quota` queued messages after what it already held; unsubscribed streams are unchanged |
| Bus.RunOnlyAppends | org.springframework.integration.adapter/src/test/java/org/springframework/integration/adapter/stream/ByteStreamTargetTests.java:162-201 | what every stream held before a cycle is a prefix of what it holds after |
| Bus.RunLimitEqualsQueued | org.springframework.integration.adapter/src/test/java/org/springframework/integration/adapter/stream/ByteStreamTargetTests.java:74-86 | with the limit equal to the number queued, a cycle receives all of them, empties the channel, ends on the limit and appends all their bytes in order |
| Bus.RunLimitBelowQueued | org.springframework.integration.adapter/src/test/java/org/springframework/integration/adapter/stream/ByteStreamTargetTests.java:90-101 | with the limit below the number queued, a cycle receives exactly `limit` messages, the oldest, and leaves the rest queued in order |
| Bus.RunLimitAboveQueued | org.springframework.integration.adapter/src/test/java/org/springframework/integration/adapter/stream/ByteStreamTargetTests.java:105-117 | with the limit above the number queued (or none) and a timeout that is not unlimited, a cycle drains exactly what is queued and ends on the empty channel |
| Bus.RunOnEmptyChannel | org.springframework.integration.adapter/src/test/java/org/springframework/integration/adapter/stream/ByteStreamTargetTests.java:155-158 | a cycle on an empty channel receives nothing and changes nothing |
| Bus.TwoRunsResume | org.springframework.integration.adapter/src/test/java/org/springframework/integration/adapter/stream/ByteStreamTargetTests.java:121-139 | a second cycle resumes where the first stopped: together they deliver the oldest messages in order, each once, and leave the rest queued |
| Bus.RunTimesMatchesSpec | org.springframework.integration.adapter/src/test/java/org/springframework/integration/adapter/stream/ByteStreamTargetTests.java:130-134 | `t` successive `run()` calls are `t` successive applications of the declarative cycle |
| Bus.SpecTimesDeliversOldest | org.springframework.integration.adapter/src/test/java/org/springframework/integration/adapter/stream/ByteStreamTargetTests.java:121-158 | `t` declarative cycles deliver the oldest messages in order and leave the rest queued |
| Bus.RepeatedRunsDrainInOrder | org.springframework.integration.adapter/src/test/java/org/springframework/integration/adapter/stream/ByteStreamTargetTests.java:121-158 | after `t` runs with limit `k`, the oldest `min(t * k, queued)` messages have been delivered in order, each once, and the rest are still queued |
| Scenarios.FilledReady | org.springframework.integration.adapter/src/test/java/org/springframework/integration/adapter/stream/ByteStreamTargetTests.java:44-48 | the fixture's three sends are all accepted in order, and the configured dispatcher has the target subscribed with the given limit and timeout |
| Scenarios.SingleByteArray | org.springframework.integration.adapter/src/test/java/org/springframework/integration/adapter/stream/ByteStreamTargetTests.java:52-60 | sending `[1,2,3]` to a target leaves exactly `[1,2,3]` in its stream |
| Scenarios.SingleString | org.springframework.integration.adapter/src/test/java/org/springframework/integration/adapter/stream/ByteStreamTargetTests.java:64-70 | sending `"foo"` writes three bytes that decode to `"foo"` |
| Scenarios.LimitSameAsCount | org.springframework.integration.adapter/src/test/java/org/springframework/integration/adapter/stream/ByteStreamTargetTests.java:74-86 | limit 3 on three messages: the stream holds the nine bytes 1 to 9 |
| Scenarios.LimitBelowCount | org.springframework.integration.adapter/src/test/java/org/springframework/integration/adapter/stream/ByteStreamTargetTests.java:90-101 | limit 2: the stream holds the six bytes 1 to 6 |
| Scenarios.LimitAboveCount | org.springframework.integration.adapter/src/test/java/org/springframework/integration/adapter/stream/ByteStreamTargetTests.java:105-117 | limit 5 with timeout 0: the stream holds all nine bytes and the cycle ended on the empty channel |
| Scenarios.LimitBelowCountTwoCycles | org.springframework.integration.adapter/src/test/java/org/springframework/integration/adapter/stream/ByteStreamTargetTests.java:121-139 | limit 2, two cycles: bytes 1 to 6 after the first cycle, 1 to 9 after the second |
| Scenarios.LimitAboveCountTwoCycles | org.springframework.integration.adapter/src/test/java/org/springframework/integration/adapter/stream/ByteStreamTargetTests.java:142-158 | limit 5, two cycles: all nine bytes after the first cycle, and the second adds nothing |
| Scenarios.ResetBetweenCycles | org.springframework.integration.adapter/src/test/java/org/springframework/integration/adapter/stream/ByteStreamTargetTests.java:162-179 | a stream reset between the cycles holds exactly 7, 8, 9 after the second |
| Scenarios.WriteBetweenCycles | org.springframework.integration.adapter/src/test/java/org/springframework/integration/adapter/stream/ByteStreamTargetTests.java:182-201 | a byte 123 written between the cycles stays at index 6, followed by 7, 8, 9 |
| Messaging.Build | spring-integration-core/src/test/java/org/springframework/integration/json/JsonOutboundMessageMapperTests.java:49 | a built message carries the payload, the given id and timestamp, and no history |
| Messaging.HistoryWrite | spring-integration-core/src/test/java/org/springframework/integration/json/JsonOutboundMessageMapperTests.java:61-63 | a history write returns a new message with the same payload, the old history extended by the component's name and type, and the new id and timestamp |
| Messaging.WriteAllRecordsInOrder | spring-integration-core/src/test/java/org/springframework/integration/json/JsonOutboundMessageMapperTests.java:60-63 | successive writes keep the payload, append the components' entries in write order, and leave the last write's id and timestamp |
| JsonMapper.NewMapper | spring-integration-core/src/test/java/org/springframework/integration/json/JsonOutboundMessageMapperTests.java:50 | a new mapper writes headers and payload |
| JsonMapper.SetShouldExtractPayload | spring-integration-core/src/test/java/org/springframework/integration/json/JsonOutboundMessageMapperTests.java:84 | the extract flag is set as given |
| JsonMapper.FromMessage | spring-integration-core/src/test/java/org/springframework/integration/json/JsonOutboundMessageMapperTests.java:48-56 | mapping succeeds exactly for payloads with a JSON form, and the text reads back as the document: the envelope of headers and payload, or the payload alone when extracting; the whole-document equality is in the model's member order |
| JsonMapper.HeadersReadBack | spring-integration-core/src/test/java/org/springframework/integration/json/JsonOutboundMessageMapperTests.java:52-54 | the headers object reads back the message's id and timestamp, and its history only when the history is not empty |
| JsonMapper.HistoryReadBack | spring-integration-core/src/test/java/org/springframework/integration/json/JsonOutboundMessageMapperTests.java:66-76 | the history array has one element per entry, in order, each reading back the entry's name and type |
| JsonMapper.DefaultReadsBack | spring-integration-core/src/test/java/org/springframework/integration/json/JsonOutboundMessageMapperTests.java:90-99 | the default output's `payload` member reads back as the payload and its `headers` member as the headers |
| JsonMapper.ExtractReadsBack | spring-integration-core/src/test/java/org/springframework/integration/json/JsonOutboundMessageMapperTests.java:103-111 | in extract mode the output reads back as the payload alone |
| JsonMapper.ExtractIgnoresHeaders | spring-integration-core/src/test/java/org/springframework/integration/json/JsonOutboundMessageMapperTests.java:103-109 | in extract mode the output does not depend on the headers at all |
| JsonMapper.ExtractPlainText | spring-integration-core/src/test/java/org/springframework/integration/json/JsonOutboundMessageMapperTests.java:80-86 | in extract mode a string with nothing to escape is written as exactly that string in double quotes |
| JsonMapper.EnvelopeContains | spring-integration-core/src/test/java/org/springframework/integration/json/JsonOutboundMessageMapperTests.java:52-55 | the envelope's text contains `"headers":{`, the headers' text, and `"payload":` followed by the payload's text |
| JsonMapper.HeadersContain | spring-integration-core/src/test/java/org/springframework/integration/json/JsonOutboundMessageMapperTests.java:53-54 | the headers' text contains `"id":` with the quoted id and `"timestamp":` with the timestamp's digits |
| JsonMapper.DefaultContainsHeadersAndPayload | spring-integration-core/src/test/java/org/springframework/integration/json/JsonOutboundMessageMapperTests.java:48-56 | the default output contains `"headers":{`, the timestamp, the quoted id and `"payload":` with the payload's JSON |
| JsonMapper.DefaultContainsPlainText | spring-integration-core/src/test/java/org/springframework/integration/json/JsonOutboundMessageMapperTests.java:54-55 | a plain string payload and id appear verbatim as `"payload":"<text>"` and `"id":"<id>"` |
| JsonMapper.EntryContains | spring-integration-core/src/test/java/org/springframework/integration/json/JsonOutboundMessageMapperTests.java:71-76 | a history entry's text contains its quoted name and type |
| JsonMapper.HistoryContains | spring-integration-core/src/test/java/org/springframework/integration/json/JsonOutboundMessageMapperTests.java:70-76 | a non-empty history appears in the headers as `"history":` with every entry's text inside |
| JsonMapper.DefaultContainsHistory | spring-integration-core/src/test/java/org/springframework/integration/json/JsonOutboundMessageMapperTests.java:66-76 | with history present, the default output contains `"history":` and each recorded name and type, quoted |
| JsonMapper.DefaultContainsPlainHistory | spring-integration-core/src/test/java/org/springframework/integration/json/JsonOutboundMessageMapperTests.java:71-76 | a recorded name and type with nothing to escape appear verbatim in the default output |
| JsonMapper.MappedAfterWrites | spring-integration-core/src/test/java/org/springframework/integration/json/JsonOutboundMessageMapperTests.java:59-68 | after history writes, the output reads back with the original payload, the last write's id and timestamp, and the components' entries in write order, as a whole document in the model's member order and entry shape |
| JsonParser.ParseSerialize | spring-integration-core/src/test/java/org/springframework/integration/json/JsonOutboundMessageMapperTests.java:114-121 | every serialised JSON document reads back as exactly the value written |
| JsonParser.ParseValueSerialize | spring-integration-core/src/test/java/org/springframework/integration/json/JsonOutboundMessageMapperTests.java:114-121 | a serialised value followed by a separator, closer or end reads back as the value, leaving what follows |
| Json.EscapePlain | spring-integration-core/src/test/java/org/springframework/integration/json/JsonOutboundMessageMapperTests.java:82 | text with nothing to escape is written inside a JSON string unchanged |
| Json.FieldsContainEach | spring-integration-core/src/test/java/org/springframework/integration/json/JsonOutboundMessageMapperTests.java:52-55 | every member of an object appears, serialised, in the object's text |
| Json.ItemsContainEach | spring-integration-core/src/test/java/org/springframework/integration/json/JsonOutboundMessageMapperTests.java:70-76 | every element of an array appears, serialised, in the array's text |
| Scenarios.ThreeEntries | spring-integration-core/src/test/java/org/springframework/integration/json/JsonOutboundMessageMapperTests.java:124-142 | the history written by components 1 to 3 holds, at position `k`, the entry of component `k + 1`, whose name and type need no escaping |
| Scenarios.HistoryOfThreeComponents | spring-integration-core/src/test/java/org/springframework/integration/json/JsonOutboundMessageMapperTests.java:59-77 | after components 1, 2 and 3 write history, the default output contains `"history":`, and `testName-n` and `testType-n` for each of them |

## Left out

- The source files of `QueueChannel`, `PollingDispatcher`, `BroadcastingDispatcher`, `ByteStreamTarget`, `JsonOutboundMessageMapper` and `MessageHistory` are not part of this model. Their behaviour is modelled from what the two test classes fix.
- `PollingSchedule`: it only decides when `run()` is called. The model calls `Run` directly.
- Concurrency, real blocking and elapsed time are left out. The model is single-threaded, so no timeout of 0 or more can see a new message arrive. An unlimited wait is reported as an outcome instead of modelled.
- `unsubscribe` is not exercised by the tests, so the model has no operation for it.
- Exceptions thrown by a consumer, and logging, are left out. Only a refused payload is modelled: the target writes nothing and delivery continues.
- A consumer is identified by the stream it writes to. Two targets on the same stream are the same subscriber here.
- Message ids come from a UUID generator and timestamps from the clock. Both are parameters (`Build`, `HistoryWrite`, `Stamp`).
- Jackson's general bean serialisation is left out. A bean payload is given directly as the JSON object of its properties. A `byte[]` payload, which Jackson would write as base64, is rejected with `UnsupportedPayload`.
- JSON floats, whitespace between tokens, and `\u` escapes for characters outside the Basic Multilingual Plane are left out. The serialiser writes none of them. The reader accepts more than the serialiser writes. It takes every JSON escape, including `\/`. It takes `\uXXXX` escapes of BMP scalar values, with hex digits in either case. It also reads integers with leading zeros, so `01` reads as 1, although JSON's grammar forbids them.
- Jackson chooses the order of the members it writes. In the envelope the model writes `headers` before `payload`. Spring writes headers from a map, so the order of their members is the map's, and the model fixes it as id, timestamp, history. The member-wise read-back lemmas (`JsonMapper.HeadersReadBack`, `JsonMapper.HistoryReadBack`, `JsonMapper.DefaultReadsBack`) and the substring lemmas do not depend on that order. The whole-document read-back in `JsonMapper.FromMessage` and `JsonMapper.MappedAfterWrites` does: it holds for the model's own member order and entry shape, and Jackson's output, with its own order and an entry timestamp, would read back as a different document.
- The timestamp that Spring records in each history entry is left out. Entries carry the name and type, which is all the tests inspect.
- `SocketWriter` (spring-integration-ip) is an interface whose framing modes are not shown, so there is no behaviour to model. The XML `MarshallingTransformerParserTests` cover container configuration and marshaller internals.
- JsonMapper.ExtractReadsBack: states that the extract-mode text parses back to the payload alone, not that it never contains the characters `headers`. A bean with a property of that name would contain them.
- JsonMapper.DefaultContainsPlainText: covers ids and string payloads with nothing to escape, which includes every UUID and the tests' `myPayloadStuff`. Other strings appear escaped, as `JsonMapper.DefaultContainsHeadersAndPayload` states.
- Bus.RepeatedRunsDrainInOrder: needs a positive limit. Without a limit, the first cycle already drains everything (`Bus.RunLimitAboveQueued`) and later cycles change nothing (`Bus.RunOnEmptyChannel`).
- Stream.PayloadBytes, Stream.Send: the source of `ByteStreamTarget` is not part of this model, so the charset it uses to turn a `String` into bytes cannot be seen. The tests read the bytes back with `new String(bytes)`, which uses the platform's default charset. The model always uses UTF-8. This gives the same bytes for ASCII text, such as the tests' `"foo"`, but other text can differ under another default charset.
- Utf8.EncodeAscii: Java's `new String(bytes)` uses the platform charset. The model fixes UTF-8, which agrees with every ASCII-compatible charset on the tests' `"foo"`.
