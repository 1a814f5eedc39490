/**
  The pipeline fixture, written out: a channel of capacity 10 holding three
  byte-array messages `[1,2,3]`, `[4,5,6]`, `[7,8,9]`, a polling dispatcher
  whose broadcasting dispatcher has one `ByteStreamTarget` subscribed, and
  that target's stream, initially empty. Each lemma states what the stream
  holds after the cycles a scenario runs.
*/
module Scenarios {
  import opened Wrappers
  import opened Utf8
  import opened Messaging
  import opened Channel
  import opened Stream
  import opened Dispatcher
  import opened Bus
  import Text
  import Json
  import JsonMapper

  const Capacity: nat := 10

  /** The three messages every scenario queues, oldest first. */
  function Batch(): seq<Message> {
    [Build(Bytes([1, 2, 3]), "1", 0), Build(Bytes([4, 5, 6]), "2", 0), Build(Bytes([7, 8, 9]), "3", 0)]
  }

  /** The dispatcher with the given limit and receive timeout and the one target, writing to stream 0, subscribed. */
  function Configured(max: int, timeout: int): PollingDispatcher {
    var d := NewPollingDispatcher(NewBroadcastingDispatcher());
    Bus.Subscribe(SetReceiveTimeout(SetMaxMessagesPerPoll(d, max), timeout), ByteStreamTarget(0))
  }

  /** The channel after the three sends with timeout 0, and the empty stream. */
  function Filled(): State {
    State(SendEach(NewQueueChannel(Capacity), Batch()), [[]])
  }

  /** All three sends are accepted, so the channel holds the batch in order; the dispatcher can run on it. */
  lemma FilledReady(max: int, timeout: int)
    ensures Filled().channel.queue == Batch()
    ensures Ready(Configured(max, timeout), Filled())
    ensures ByteStreamTarget(0) in Configured(max, timeout).dispatcher.subscribers
    ensures Configured(max, timeout).maxMessagesPerPoll == max
    ensures Configured(max, timeout).receiveTimeout == timeout
  {
    SendEachAppends(NewQueueChannel(Capacity), Batch());
    assert Batch()[..3] == Batch();
  }

  /** The bytes the batch's messages are written as, one message, two, or all three. */
  lemma BatchBytes()
    ensures WrittenAll(Batch()[..2]) == [1, 2, 3, 4, 5, 6]
    ensures WrittenAll(Batch()) == [1, 2, 3, 4, 5, 6, 7, 8, 9]
    ensures WrittenAll(Batch()[2..]) == [7, 8, 9]
  {
    var b := Batch();
    assert b[..2][1..] == [b[1]];
    assert b[1..][1..] == [b[2]];
    assert b[2..][..1] == [b[2]];
  }

  /** The byte sequences the two-cycle scenarios put together. */
  lemma Appended()
    ensures var last: seq<byte> := [7, 8, 9];
      && [1, 2, 3, 4, 5, 6] + last == [1, 2, 3, 4, 5, 6, 7, 8, 9]
      && [1, 2, 3, 4, 5, 6, 123] + last == [1, 2, 3, 4, 5, 6, 123, 7, 8, 9]
  {
  }

  /** A byte array sent straight to a target is written as it is. */
  lemma SingleByteArray()
    ensures Stream.Send(ByteStreamTarget(0), Build(Bytes([1, 2, 3]), "1", 0), [[]]) == Success([[1, 2, 3]])
  {
    var r := Stream.Send(ByteStreamTarget(0), Build(Bytes([1, 2, 3]), "1", 0), [[]]);
    assert r.value[0] == r.value[0][0..] == [1, 2, 3];
    assert r.value == [[1, 2, 3]];
  }

  /** A string sent straight to a target is written as its three bytes, which read back as the string. */
  lemma SingleString()
    ensures var r := Stream.Send(ByteStreamTarget(0), Build(Text("foo"), "1", 0), [[]]);
      && r.Success? && |r.value[0]| == 3 && Decode(r.value[0]) == Some("foo")
  {
    var r := Stream.Send(ByteStreamTarget(0), Build(Text("foo"), "1", 0), [[]]);
    assert IsAscii("foo");
    EncodeAscii("foo");
    assert r.value[0][0..] == r.value[0];
  }

  /** One cycle with the limit equal to the three queued messages writes all nine bytes. */
  lemma LimitSameAsCount()
    ensures Run(Configured(3, DefaultReceiveTimeout), Filled()).state.streams[0] == [1, 2, 3, 4, 5, 6, 7, 8, 9]
  {
    FilledReady(3, DefaultReceiveTimeout);
    RunLimitEqualsQueued(Configured(3, DefaultReceiveTimeout), Filled(), 0);
    BatchBytes();
  }

  /** One cycle with limit 2 writes the first two messages' six bytes. */
  lemma LimitBelowCount()
    ensures Run(Configured(2, DefaultReceiveTimeout), Filled()).state.streams[0] == [1, 2, 3, 4, 5, 6]
  {
    FilledReady(2, DefaultReceiveTimeout);
    RunLimitBelowQueued(Configured(2, DefaultReceiveTimeout), Filled(), 0);
    BatchBytes();
  }

  /** One cycle with limit 5 and timeout 0 writes all nine bytes and ends on the empty channel. */
  lemma LimitAboveCount()
    ensures Run(Configured(5, 0), Filled()).state.streams[0] == [1, 2, 3, 4, 5, 6, 7, 8, 9]
    ensures Run(Configured(5, 0), Filled()).end == ChannelEmpty
  {
    FilledReady(5, 0);
    RunLimitAboveQueued(Configured(5, 0), Filled(), 0);
    BatchBytes();
  }

  /** The first of the limit-2 cycles writes six bytes and leaves the third message queued. */
  lemma FirstOfTwoCycles()
    ensures var first := Run(Configured(2, 0), Filled());
      && first.state.streams == [[1, 2, 3, 4, 5, 6]]
      && first.state.channel.queue == Batch()[2..]
  {
    var d := Configured(2, 0);
    FilledReady(2, 0);
    BatchBytes();
    RunLimitBelowQueued(d, Filled(), 0);
    var streams := Run(d, Filled()).state.streams;
    assert |streams| == |Filled().streams| == 1;
    assert streams[0] == [1, 2, 3, 4, 5, 6];
  }

  /** The second of the limit-2 cycles, whatever the stream holds by then, appends the third message's bytes. */
  lemma SecondOfTwoCycles(s: State)
    requires s.channel.Valid() && s.channel.queue == Batch()[2..] && |s.streams| == 1
    ensures Ready(Configured(2, 0), s)
    ensures Run(Configured(2, 0), s).state.streams[0] == s.streams[0] + [7, 8, 9]
  {
    FilledReady(2, 0);
    assert |Filled().streams| == |s.streams|;
    BatchBytes();
    RunLimitAboveQueued(Configured(2, 0), s, 0);
  }

  /** Two cycles with limit 2: six bytes after the first, all nine after the second, the seventh being 7. */
  lemma LimitBelowCountTwoCycles()
    ensures var first := Run(Configured(2, 0), Filled());
      && first.state.streams[0] == [1, 2, 3, 4, 5, 6]
      && Run(Configured(2, 0), first.state).state.streams[0] == [1, 2, 3, 4, 5, 6, 7, 8, 9]
  {
    FirstOfTwoCycles();
    var first := Run(Configured(2, 0), Filled()).state;
    assert first.streams[0] == [1, 2, 3, 4, 5, 6];
    SecondOfTwoCycles(first);
    Appended();
  }

  /** Two cycles with limit 5: the first writes all nine bytes, the second finds the channel empty and writes nothing. */
  lemma LimitAboveCountTwoCycles()
    ensures var first := Run(Configured(5, 0), Filled());
      && first.state.streams[0] == [1, 2, 3, 4, 5, 6, 7, 8, 9]
      && Run(Configured(5, 0), first.state).state.streams[0] == [1, 2, 3, 4, 5, 6, 7, 8, 9]
  {
    var d := Configured(5, 0);
    FilledReady(5, 0);
    var first := Run(d, Filled());
    RunLimitAboveQueued(d, Filled(), 0);
    RunOnEmptyChannel(d, first.state);
    BatchBytes();
  }

  /** Resetting the stream between cycles leaves the second cycle's bytes alone in it: 7, 8, 9. */
  lemma ResetBetweenCycles()
    ensures var first := Run(Configured(2, 0), Filled());
      var reset := first.state.(streams := [[]]);
      Run(Configured(2, 0), reset).state.streams[0] == [7, 8, 9]
  {
    FirstOfTwoCycles();
    SecondOfTwoCycles(Run(Configured(2, 0), Filled()).state.(streams := [[]]));
  }

  /** A byte the owner writes between cycles stays where it was written, followed by the second cycle's bytes. */
  lemma WriteBetweenCycles()
    ensures var first := Run(Configured(2, 0), Filled());
      var written := first.state.(streams := [first.state.streams[0] + [123]]);
      Run(Configured(2, 0), written).state.streams[0] == [1, 2, 3, 4, 5, 6, 123, 7, 8, 9]
  {
    FirstOfTwoCycles();
    var first := Run(Configured(2, 0), Filled());
    var written := first.state.(streams := [first.state.streams[0] + [123]]);
    assert written.streams[0] == [1, 2, 3, 4, 5, 6, 123];
    SecondOfTwoCycles(written);
    Appended();
  }

  // ---------------------------------------------------------------------------
  // The JSON mapper fixture: components 1 to 3 written into the history

  /** Component `n`, named `testName-n` with type `testType-n`. */
  function Component(n: nat): NamedComponent
    requires n < 10
  {
    NamedComponent("testName-" + [Text.DigitChar(n)], "testType-" + [Text.DigitChar(n)])
  }

  /** The history entry at `k` is the one recorded for component `k + 1`, and it has nothing to escape. */
  lemma ThreeEntries(k: nat)
    requires k < 3
    ensures Entries([Component(1), Component(2), Component(3)])[k] == EntryFor(Component(k + 1))
    ensures Json.IsPlain(Component(k + 1).componentName) && Json.IsPlain(Component(k + 1).componentType)
  {
    var cs := [Component(1), Component(2), Component(3)];
    assert Entries(cs) == [EntryFor(cs[0])] + Entries(cs[1..]);
    assert Entries(cs[1..]) == [EntryFor(cs[1])] + Entries(cs[1..][1..]);
    assert cs[1..][1..] == [cs[2]];
  }

  /**
    After components 1, 2 and 3 write history, the default output names
    each of them and its type.
  */
  lemma HistoryOfThreeComponents(m: Message, stamps: seq<Stamp>, out: string, n: nat)
    requires |stamps| == 3 && !m.payload.Bytes? && m.headers.history == []
    requires 1 <= n <= 3
    requires JsonMapper.FromMessage(JsonMapper.NewMapper(),
               WriteAll(m, [Component(1), Component(2), Component(3)], stamps)) == Success(out)
    ensures Text.Contains(out, "\"history\":")
    ensures Text.Contains(out, Component(n).componentName)
    ensures Text.Contains(out, Component(n).componentType)
  {
    var cs := [Component(1), Component(2), Component(3)];
    var written := WriteAll(m, cs, stamps);
    WriteAllRecordsInOrder(m, cs, stamps);
    assert written.headers.history == Entries(cs);
    ThreeEntries(n - 1);
    JsonMapper.DefaultContainsHistory(written, out, n - 1);
    JsonMapper.DefaultContainsPlainHistory(written, out, n - 1);
  }
}
