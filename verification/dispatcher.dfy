/**
  `BroadcastingDispatcher`: hands every message to each subscribed consumer.
  Subscribers form a set, so subscribing twice has no effect. A consumer that
  refuses a message writes nothing, and delivery carries on with the
  remaining subscribers.
*/
module Dispatcher {
  import opened Wrappers
  import opened Utf8
  import opened Messaging
  import opened Stream

  datatype BroadcastingDispatcher = BroadcastingDispatcher(subscribers: seq<ByteStreamTarget>) {
    /** No consumer is subscribed twice. */
    predicate Valid() {
      Distinct(subscribers)
    }
  }

  /** Every target in `ts` writes to a stream that exists. */
  predicate WriteWithin(ts: seq<ByteStreamTarget>, streams: Streams) {
    forall k :: 0 <= k < |ts| ==> ts[k].stream < |streams|
  }

  predicate Distinct(ts: seq<ByteStreamTarget>) {
    forall i, j :: 0 <= i < j < |ts| ==> ts[i] != ts[j]
  }

  function NewBroadcastingDispatcher(): (d: BroadcastingDispatcher)
    ensures d.Valid() && d.subscribers == []
  {
    BroadcastingDispatcher([])
  }

  /** `subscribe(target)`: add the target to the subscriber set. */
  function Subscribe(d: BroadcastingDispatcher, t: ByteStreamTarget): (r: BroadcastingDispatcher)
    requires d.Valid()
    ensures r.Valid()
    ensures forall x :: x in r.subscribers <==> x in d.subscribers || x == t
  {
    if t in d.subscribers then d else BroadcastingDispatcher(d.subscribers + [t])
  }

  /** The result of delivering one message: the streams afterwards, and whether any consumer took it. */
  datatype Delivery = Delivery(streams: Streams, delivered: bool)

  /**
    Delivers `m` to each target in turn; a target that refuses it leaves its
    stream as it was. The message counts as delivered once some target's
    `send` succeeded.
  */
  function Broadcast(ts: seq<ByteStreamTarget>, m: Message, streams: Streams): (r: Delivery)
    requires WriteWithin(ts, streams)
    ensures |r.streams| == |streams|
    decreases |ts|
  {
    if |ts| == 0 then Delivery(streams, false)
    else
      match Send(ts[0], m, streams)
      case Success(streams') => Broadcast(ts[1..], m, streams').(delivered := true)
      case Failure(_) => Broadcast(ts[1..], m, streams)
  }

  /** A broadcast is delivered exactly when there is a target and targets accept the payload. */
  lemma {:induction false} BroadcastDelivered(ts: seq<ByteStreamTarget>, m: Message, streams: Streams)
    requires WriteWithin(ts, streams)
    ensures Broadcast(ts, m, streams).delivered <==> |ts| > 0 && !m.payload.Bean?
    decreases |ts|
  {
    if |ts| > 0 {
      match Send(ts[0], m, streams)
      case Success(_) =>
      case Failure(_) => BroadcastDelivered(ts[1..], m, streams);
    }
  }

  /**
    The streams with `bytes` appended once to each one a target in `ts`
    writes to, and every other stream as it was.
  */
  function AppendToEach(ts: seq<ByteStreamTarget>, bytes: seq<byte>, streams: Streams): Streams {
    seq(|streams|, i requires 0 <= i < |streams| =>
      if ByteStreamTarget(i) in ts then streams[i] + bytes else streams[i])
  }

  /**
    `dispatch(message)`: broadcast to every subscriber. It reports delivery
    exactly when someone is subscribed and the payload is one a target
    writes; each subscribed stream gets the message's bytes once, the others
    nothing.
  */
  function Dispatch(d: BroadcastingDispatcher, m: Message, streams: Streams): (r: Delivery)
    requires WriteWithin(d.subscribers, streams)
    ensures |r.streams| == |streams|
    ensures r.delivered <==> |d.subscribers| > 0 && !m.payload.Bean?
    ensures d.Valid() ==> forall i {:trigger AppendToEach(d.subscribers, Written(m), streams)[i]} ::
      0 <= i < |streams| ==> r.streams[i] == AppendToEach(d.subscribers, Written(m), streams)[i]
  {
    BroadcastDelivered(d.subscribers, m, streams);
    if d.Valid() then BroadcastAppendsToEach(d.subscribers, m, streams); Broadcast(d.subscribers, m, streams)
    else Broadcast(d.subscribers, m, streams)
  }

  /**
    Broadcasting appends the message's bytes exactly once to the stream of
    every subscribed target and leaves every other stream alone.
  */
  lemma {:induction false} BroadcastAppendsOnce(ts: seq<ByteStreamTarget>, m: Message, streams: Streams, i: nat)
    requires Distinct(ts)
    requires WriteWithin(ts, streams)
    requires i < |streams|
    ensures Broadcast(ts, m, streams).streams[i]
         == if ByteStreamTarget(i) in ts then streams[i] + Written(m) else streams[i]
    decreases |ts|
  {
    if |ts| > 0 {
      var tail := ts[1..];
      assert Distinct(tail);
      assert ByteStreamTarget(i) in ts <==> ts[0] == ByteStreamTarget(i) || ByteStreamTarget(i) in tail;
      assert ts[0] !in tail;
      match Send(ts[0], m, streams)
      case Success(streams') =>
        BroadcastAppendsOnce(tail, m, streams', i);
        if ts[0].stream == i {
          assert streams'[i] == streams[i] + Written(m);
        } else {
          assert streams'[i] == streams[i];
        }
      case Failure(_) =>
        BroadcastAppendsOnce(tail, m, streams, i);
        assert Written(m) == [];
    }
  }

  /** Broadcasting to distinct targets appends the message's bytes once to each of their streams. */
  lemma BroadcastAppendsToEach(ts: seq<ByteStreamTarget>, m: Message, streams: Streams)
    requires Distinct(ts)
    requires WriteWithin(ts, streams)
    ensures Broadcast(ts, m, streams).streams == AppendToEach(ts, Written(m), streams)
  {
    var r := Broadcast(ts, m, streams).streams;
    forall i | 0 <= i < |streams|
      ensures r[i] == AppendToEach(ts, Written(m), streams)[i]
    {
      BroadcastAppendsOnce(ts, m, streams, i);
    }
  }

  /** What a dispatch does to one stream, stated without reference to the order of subscribers. */
  lemma DispatchAppendsOnce(d: BroadcastingDispatcher, m: Message, streams: Streams, i: nat)
    requires d.Valid() && WriteWithin(d.subscribers, streams) && i < |streams|
    ensures Dispatch(d, m, streams).streams[i]
         == if ByteStreamTarget(i) in d.subscribers then streams[i] + Written(m) else streams[i]
  {
    assert AppendToEach(d.subscribers, Written(m), streams)[i]
        == if ByteStreamTarget(i) in d.subscribers then streams[i] + Written(m) else streams[i];
  }
}
