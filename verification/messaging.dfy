/**
  Messages: an immutable payload with headers. Writing message history does
  not change a message; it builds a new one, as `MessageBuilder` does, with a
  fresh id and timestamp that the caller supplies (id generation and the clock
  are outside the model).
*/
module Messaging {
  import Utf8
  import Json

  /** The payload kinds the pipeline and the mapper handle: `byte[]`, `String` and a bean Jackson can write. */
  datatype Payload =
    | Bytes(bytes: seq<Utf8.byte>)
    | Text(text: string)
    | Bean(properties: Json.Json)

  /** One provenance record: the name and type of a component the message passed through. */
  datatype HistoryEntry = HistoryEntry(name: string, componentType: string)

  datatype MessageHeaders = MessageHeaders(id: string, timestamp: int, history: seq<HistoryEntry>)

  datatype Message = Message(payload: Payload, headers: MessageHeaders)

  /** A component that records itself in message history (Spring's `NamedComponent`). */
  datatype NamedComponent = NamedComponent(componentName: string, componentType: string)

  /** `MessageBuilder.withPayload(payload).build()`: a new message with no history yet. */
  function Build(payload: Payload, id: string, timestamp: int): (m: Message)
    ensures m.payload == payload && m.headers.history == []
    ensures m.headers.id == id && m.headers.timestamp == timestamp
  {
    Message(payload, MessageHeaders(id, timestamp, []))
  }

  function EntryFor(c: NamedComponent): HistoryEntry {
    HistoryEntry(c.componentName, c.componentType)
  }

  /**
    `MessageHistory.write(message, component)`: a new message whose history is
    the old one followed by the component's entry.
  */
  function HistoryWrite(m: Message, c: NamedComponent, newId: string, newTimestamp: int): (r: Message)
    ensures r.payload == m.payload
    ensures |r.headers.history| == |m.headers.history| + 1
    ensures r.headers.history[..|m.headers.history|] == m.headers.history
    ensures r.headers.history[|m.headers.history|] == HistoryEntry(c.componentName, c.componentType)
    ensures r.headers.id == newId && r.headers.timestamp == newTimestamp
  {
    Message(m.payload, MessageHeaders(newId, newTimestamp, m.headers.history + [EntryFor(c)]))
  }

  /** One fresh id and timestamp for each message a sequence of writes builds. */
  datatype Stamp = Stamp(id: string, timestamp: int)

  /** Writes the components into the history one after another, each write on the previous write's result. */
  function WriteAll(m: Message, cs: seq<NamedComponent>, stamps: seq<Stamp>): Message
    requires |stamps| == |cs|
    decreases |cs|
  {
    if |cs| == 0 then m
    else
      WriteAll(HistoryWrite(m, cs[0], stamps[0].id, stamps[0].timestamp), cs[1..], stamps[1..])
  }

  /** The history entries the components record, in order. */
  function Entries(cs: seq<NamedComponent>): (es: seq<HistoryEntry>)
    ensures |es| == |cs|
  {
    if |cs| == 0 then [] else [EntryFor(cs[0])] + Entries(cs[1..])
  }

  /**
    Successive writes keep the payload, record the components in the order
    they were written after whatever history was there, and leave the message
    with the last write's id and timestamp.
  */
  lemma {:induction false} WriteAllRecordsInOrder(m: Message, cs: seq<NamedComponent>, stamps: seq<Stamp>)
    requires |stamps| == |cs|
    ensures var r := WriteAll(m, cs, stamps);
      && r.payload == m.payload
      && r.headers.history == m.headers.history + Entries(cs)
      && (|cs| == 0 ==> r.headers == m.headers)
      && (|cs| > 0 ==> r.headers.id == stamps[|cs| - 1].id && r.headers.timestamp == stamps[|cs| - 1].timestamp)
    decreases |cs|
  {
    if |cs| > 0 {
      var m1 := HistoryWrite(m, cs[0], stamps[0].id, stamps[0].timestamp);
      assert WriteAll(m, cs, stamps) == WriteAll(m1, cs[1..], stamps[1..]);
      WriteAllRecordsInOrder(m1, cs[1..], stamps[1..]);
      assert m1.headers.history + Entries(cs[1..]) == m.headers.history + Entries(cs) by {
        assert Entries(cs) == [EntryFor(cs[0])] + Entries(cs[1..]);
        assert m1.headers.history == m.headers.history + [EntryFor(cs[0])];
      }
      if |cs| > 1 {
        assert stamps[1..][|cs[1..]| - 1] == stamps[|cs| - 1];
      }
    }
  }
}
