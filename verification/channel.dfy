/**
  `QueueChannel`: a bounded FIFO buffer of messages.

  The model is single-threaded: no producer or consumer acts while a call
  waits. A timeout of zero or more therefore ends the same way a zero
  timeout does (the wait only costs time), and a negative timeout, which
  waits without limit, would wait for ever on a full or empty buffer. That
  last outcome is reported explicitly instead of being hidden.
*/
module Channel {
  import opened Messaging

  /** The buffer holds the oldest message at index 0. */
  datatype QueueChannel = QueueChannel(capacity: nat, queue: seq<Message>) {
    /** The buffer never holds more messages than its capacity. */
    predicate Valid() {
      |queue| <= capacity
    }
  }

  /** `new QueueChannel(capacity)`: an empty channel. A capacity of 0 accepts nothing. */
  function NewQueueChannel(capacity: nat): (c: QueueChannel)
    ensures c.Valid() && c.capacity == capacity && c.queue == []
  {
    QueueChannel(capacity, [])
  }

  datatype SendOutcome =
    | Accepted(channel: QueueChannel)
    /** The buffer stayed full for the whole timeout; `send` returned false. */
    | Declined
    /** The buffer is full and the timeout is unlimited: only a consumer could end the wait. */
    | SendBlocks

  /** `send(message, timeout)`: enqueue at the tail if there is room. */
  function Send(c: QueueChannel, m: Message, timeout: int): (r: SendOutcome)
    requires c.Valid()
    ensures r.Accepted? <==> |c.queue| < c.capacity
    ensures r.Accepted? ==> r.channel.Valid() && r.channel.capacity == c.capacity
    ensures r.Accepted? ==> |r.channel.queue| == |c.queue| + 1
    ensures r.Accepted? ==> r.channel.queue[..|c.queue|] == c.queue && r.channel.queue[|c.queue|] == m
    ensures r.SendBlocks? <==> |c.queue| == c.capacity && timeout < 0
  {
    if |c.queue| < c.capacity then Accepted(QueueChannel(c.capacity, c.queue + [m]))
    else if timeout < 0 then SendBlocks
    else Declined
  }

  datatype ReceiveOutcome =
    | Received(message: Message, channel: QueueChannel)
    /** The buffer stayed empty for the whole timeout; `receive` returned null. */
    | TimedOut
    /** The buffer is empty and the timeout is unlimited: only a producer could end the wait. */
    | ReceiveBlocks

  /** `receive(timeout)`: take the oldest message, if there is one. */
  function Receive(c: QueueChannel, timeout: int): (r: ReceiveOutcome)
    requires c.Valid()
    ensures r.Received? <==> |c.queue| > 0
    ensures r.Received? ==> r.channel.Valid() && r.channel.capacity == c.capacity
    ensures r.Received? ==> [r.message] + r.channel.queue == c.queue
    ensures r.Received? ==> r.message == c.queue[0] && r.channel.queue == c.queue[1..]
    ensures r.ReceiveBlocks? <==> |c.queue| == 0 && timeout < 0
  {
    if |c.queue| > 0 then Received(c.queue[0], QueueChannel(c.capacity, c.queue[1..]))
    else if timeout < 0 then ReceiveBlocks
    else TimedOut
  }

  /** Sends the messages one after another with a zero timeout, as the producers in the tests do. */
  function SendEach(c: QueueChannel, ms: seq<Message>): (r: QueueChannel)
    requires c.Valid()
    ensures r.Valid() && r.capacity == c.capacity
    decreases |ms|
  {
    if |ms| == 0 then c
    else
      var sent := Send(c, ms[0], 0);
      if sent.Accepted? then SendEach(sent.channel, ms[1..]) else SendEach(c, ms[1..])
  }

  /** Receives up to `n` messages with a zero timeout, returning them oldest first. */
  function ReceiveUpTo(c: QueueChannel, n: nat): (r: (seq<Message>, QueueChannel))
    requires c.Valid()
    ensures r.1.Valid() && r.1.capacity == c.capacity
    decreases n
  {
    if n == 0 then ([], c)
    else
      var got := Receive(c, 0);
      if got.Received? then
        var (ms, c') := ReceiveUpTo(got.channel, n - 1);
        ([got.message] + ms, c')
      else ([], c)
  }

  function Min(a: int, b: int): int {
    if a <= b then a else b
  }

  /**
    Sends with a zero timeout append at the tail in send order until the
    buffer is full; every later send is declined and changes nothing.
  */
  lemma {:induction false} SendEachAppends(c: QueueChannel, ms: seq<Message>)
    requires c.Valid()
    ensures var accepted := Min(|ms|, c.capacity - |c.queue|);
      SendEach(c, ms).queue == c.queue + ms[..accepted]
    decreases |ms|
  {
    if |ms| > 0 {
      if |c.queue| < c.capacity {
        var c' := QueueChannel(c.capacity, c.queue + [ms[0]]);
        SendEachAppends(c', ms[1..]);
        var k := Min(|ms[1..]|, c.capacity - |c'.queue|);
        assert c'.queue + ms[1..][..k] == c.queue + ms[..k + 1];
      } else {
        SendEachAppends(c, ms[1..]);
      }
    }
  }

  /** Receiving takes messages from the head: the first `n` come out in order and the rest stay queued. */
  lemma {:induction false} ReceiveUpToTakesOldest(c: QueueChannel, n: nat)
    requires c.Valid()
    ensures var k := Min(n, |c.queue|);
      ReceiveUpTo(c, n) == (c.queue[..k], QueueChannel(c.capacity, c.queue[k..]))
    decreases n
  {
    if n > 0 && |c.queue| > 0 {
      var c' := QueueChannel(c.capacity, c.queue[1..]);
      ReceiveUpToTakesOldest(c', n - 1);
      var k := Min(n - 1, |c'.queue|);
      assert [c.queue[0]] + c'.queue[..k] == c.queue[..k + 1];
      assert c'.queue[k..] == c.queue[k + 1..];
    }
  }

  /**
    FIFO: messages sent into an empty channel with room for them all are
    received back in exactly the order they were sent, leaving it empty.
  */
  lemma FifoRoundTrip(capacity: nat, ms: seq<Message>)
    requires |ms| <= capacity
    ensures ReceiveUpTo(SendEach(NewQueueChannel(capacity), ms), |ms|) == (ms, NewQueueChannel(capacity))
  {
    var empty := NewQueueChannel(capacity);
    SendEachAppends(empty, ms);
    var c := SendEach(empty, ms);
    assert ms[..|ms|] == ms;
    assert c == QueueChannel(capacity, ms);
    ReceiveUpToTakesOldest(c, |ms|);
    assert ms[|ms|..] == [];
  }
}
