/**
  `PollingDispatcher`: one call of `run()` is one poll cycle. It receives
  messages from the channel one at a time and hands each to the
  broadcasting dispatcher, stopping once `maxMessagesPerPoll` messages have
  been received (a limit of 0 or less means no limit) or as soon as a
  receive finds the channel empty.

  The channel and the byte streams are the state a cycle changes; the
  dispatcher value holds only its configuration and subscribers. The poll
  schedule decides when `run()` is called and is not part of the model.
*/
module Bus {
  import opened Messaging
  import opened Channel
  import opened Stream
  import opened Dispatcher

  /** No limit on the messages received per cycle. */
  const DefaultMaxMessagesPerPoll: int := -1
  /** Milliseconds a receive waits on an empty channel; any value of 0 or more ends a cycle the same way here. */
  const DefaultReceiveTimeout: int := 1000

  datatype PollingDispatcher = PollingDispatcher(
    dispatcher: BroadcastingDispatcher,
    maxMessagesPerPoll: int,
    receiveTimeout: int)

  /** The channel a dispatcher drains and the streams its consumers write to. */
  datatype State = State(channel: QueueChannel, streams: Streams)

  /** The state is one the dispatcher can run on: a well-formed channel, and consumers whose streams exist. */
  predicate Ready(d: PollingDispatcher, s: State) {
    s.channel.Valid() && d.dispatcher.Valid() && WriteWithin(d.dispatcher.subscribers, s.streams)
  }

  /** `new PollingDispatcher(channel, schedule, dispatcher)`. */
  function NewPollingDispatcher(dispatcher: BroadcastingDispatcher): (d: PollingDispatcher)
    ensures d.dispatcher == dispatcher
    ensures d.maxMessagesPerPoll <= 0 && d.receiveTimeout > 0
  {
    PollingDispatcher(dispatcher, DefaultMaxMessagesPerPoll, DefaultReceiveTimeout)
  }

  function SetMaxMessagesPerPoll(d: PollingDispatcher, max: int): (r: PollingDispatcher)
    ensures r.maxMessagesPerPoll == max
    ensures r.dispatcher == d.dispatcher && r.receiveTimeout == d.receiveTimeout
  {
    d.(maxMessagesPerPoll := max)
  }

  function SetReceiveTimeout(d: PollingDispatcher, timeout: int): (r: PollingDispatcher)
    ensures r.receiveTimeout == timeout
    ensures r.dispatcher == d.dispatcher && r.maxMessagesPerPoll == d.maxMessagesPerPoll
  {
    d.(receiveTimeout := timeout)
  }

  /** `subscribe(target)`, passed on to the dispatcher. */
  function Subscribe(d: PollingDispatcher, t: ByteStreamTarget): (r: PollingDispatcher)
    requires d.dispatcher.Valid()
    ensures r.dispatcher.Valid()
    ensures forall x :: x in r.dispatcher.subscribers <==> x in d.dispatcher.subscribers || x == t
    ensures r.maxMessagesPerPoll == d.maxMessagesPerPoll && r.receiveTimeout == d.receiveTimeout
  {
    d.(dispatcher := Dispatcher.Subscribe(d.dispatcher, t))
  }

  /** Why a poll cycle ended. */
  datatype CycleEnd =
    /** `maxMessagesPerPoll` messages were received; no further receive was attempted. */
    | LimitReached
    /** A receive found the channel empty and its timeout ran out. */
    | ChannelEmpty
    /** A receive found the channel empty with an unlimited timeout: the cycle waits for a producer. */
    | WaitsForProducer

  datatype Cycle = Cycle(state: State, received: nat, end: CycleEnd)

  /** How many of `available` messages a cycle may still take after `count` with the given limit. */
  function Quota(max: int, count: nat, available: nat): nat
    requires max > 0 ==> count <= max
  {
    if max <= 0 then available else Min(max - count, available)
  }

  /** Reference behaviour: dispatch each message in order, each to every subscriber. */
  function DeliverAll(b: BroadcastingDispatcher, ms: seq<Message>, streams: Streams): (r: Streams)
    requires WriteWithin(b.subscribers, streams)
    ensures |r| == |streams|
    decreases |ms|
  {
    if |ms| == 0 then streams
    else DeliverAll(b, ms[1..], Dispatch(b, ms[0], streams).streams)
  }

  /** Receiving one more message leaves one fewer for the rest of the cycle to take. */
  lemma QuotaStep(max: int, count: nat, available: nat)
    requires available > 0 && (max > 0 ==> count < max)
    ensures Quota(max, count, available) == Quota(max, count + 1, available - 1) + 1
  {
  }

  /**
    Taking the head and then the next `n` messages is taking the oldest
    `n + 1`: what stays queued, and what is delivered.
  */
  lemma ResumeAfterHead(b: BroadcastingDispatcher, q: seq<Message>, n: nat, streams: Streams)
    requires WriteWithin(b.subscribers, streams) && n < |q|
    ensures q[1..][n..] == q[n + 1..]
    ensures DeliverAll(b, q[..n + 1], streams) == DeliverAll(b, q[1..][..n], Dispatch(b, q[0], streams).streams)
  {
    assert q[..n + 1][1..] == q[1..][..n];
  }

  /** The end a cycle comes to after receiving `total` messages when `available` were queued. */
  function EndAfter(d: PollingDispatcher, total: nat): CycleEnd {
    if d.maxMessagesPerPoll > 0 && total == d.maxMessagesPerPoll then LimitReached
    else if d.receiveTimeout < 0 then WaitsForProducer
    else ChannelEmpty
  }

  /**
    The rest of a poll cycle that has received `count` messages so far. It
    takes the next `Quota` messages from the head of the queue, delivers
    them in that order, and leaves the rest queued.
  */
  function RunFrom(d: PollingDispatcher, s: State, count: nat): (r: Cycle)
    requires s.channel.Valid() && WriteWithin(d.dispatcher.subscribers, s.streams)
    requires d.maxMessagesPerPoll > 0 ==> count <= d.maxMessagesPerPoll
    ensures var q := s.channel.queue;
      var n := Quota(d.maxMessagesPerPoll, count, |q|);
      && r.received == count + n
      && r.state.channel == QueueChannel(s.channel.capacity, q[n..])
      && r.state.streams == DeliverAll(d.dispatcher, q[..n], s.streams)
      && r.end == EndAfter(d, count + n)
    decreases |s.channel.queue|
  {
    if d.maxMessagesPerPoll > 0 && count >= d.maxMessagesPerPoll then
      Cycle(s, count, LimitReached)
    else
      var got := Receive(s.channel, d.receiveTimeout);
      if got.Received? then
        var q := s.channel.queue;
        var next := State(got.channel, Dispatch(d.dispatcher, got.message, s.streams).streams);
        var r := RunFrom(d, next, count + 1);
        QuotaStep(d.maxMessagesPerPoll, count, |q|);
        ResumeAfterHead(d.dispatcher, q, Quota(d.maxMessagesPerPoll, count + 1, |q| - 1), s.streams);
        r
      else
        Cycle(s, count, if got.ReceiveBlocks? then WaitsForProducer else ChannelEmpty)
  }

  /**
    What one cycle does, stated directly: the oldest `Quota` messages leave
    the channel and are delivered in queue order; the rest stay queued.
  */
  function CycleSpec(d: PollingDispatcher, s: State): (r: Cycle)
    requires s.channel.Valid() && WriteWithin(d.dispatcher.subscribers, s.streams)
    ensures r.state.channel.Valid() && WriteWithin(d.dispatcher.subscribers, r.state.streams)
  {
    var q := s.channel.queue;
    var n := Quota(d.maxMessagesPerPoll, 0, |q|);
    Cycle(State(QueueChannel(s.channel.capacity, q[n..]), DeliverAll(d.dispatcher, q[..n], s.streams)), n, EndAfter(d, n))
  }

  /** `run()`: one poll cycle, which does what `CycleSpec` states. */
  function Run(d: PollingDispatcher, s: State): (r: Cycle)
    requires Ready(d, s)
    ensures r == CycleSpec(d, s)
    ensures Ready(d, r.state)
  {
    RunFrom(d, s, 0)
  }

  /**
    `run()` written as the loop it is: receive, dispatch, count, until the
    limit is reached or a receive comes back empty.
  */
  method RunLoop(d: PollingDispatcher, s: State) returns (r: Cycle)
    requires Ready(d, s)
    ensures r == Run(d, s)
  {
    var count: nat := 0;
    var state := s;
    while true
      invariant state.channel.Valid() && WriteWithin(d.dispatcher.subscribers, state.streams)
      invariant d.maxMessagesPerPoll > 0 ==> count <= d.maxMessagesPerPoll
      invariant RunFrom(d, state, count) == Run(d, s)
      decreases |state.channel.queue|
    {
      if d.maxMessagesPerPoll > 0 && count >= d.maxMessagesPerPoll {
        return Cycle(state, count, LimitReached);
      }
      var got := Receive(state.channel, d.receiveTimeout);
      if !got.Received? {
        return Cycle(state, count, if got.ReceiveBlocks? then WaitsForProducer else ChannelEmpty);
      }
      var delivery := Dispatch(d.dispatcher, got.message, state.streams);
      state := State(got.channel, delivery.streams);
      count := count + 1;
    }
  }

  // ---------------------------------------------------------------------------
  // What a cycle does to the streams

  /** Delivering a run of messages appends their bytes to each subscribed stream, once, in order. */
  lemma {:induction false} DeliverAllAppends(b: BroadcastingDispatcher, ms: seq<Message>, streams: Streams, i: nat)
    requires b.Valid() && WriteWithin(b.subscribers, streams) && i < |streams|
    ensures DeliverAll(b, ms, streams)[i]
         == if ByteStreamTarget(i) in b.subscribers then streams[i] + WrittenAll(ms) else streams[i]
    decreases |ms|
  {
    if |ms| > 0 {
      var next := Dispatch(b, ms[0], streams).streams;
      DeliverAllHead(b, ms, streams, i);
      DeliverAllAppends(b, ms[1..], next, i);
      if ByteStreamTarget(i) in b.subscribers {
        WrittenAllHead(ms, streams[i]);
      }
    }
  }

  /** Delivering a run dispatches its head first: what that does to stream `i`, and that the rest follows. */
  lemma DeliverAllHead(b: BroadcastingDispatcher, ms: seq<Message>, streams: Streams, i: nat)
    requires b.Valid() && WriteWithin(b.subscribers, streams) && i < |streams| && |ms| > 0
    ensures var next := Dispatch(b, ms[0], streams).streams;
      && WriteWithin(b.subscribers, next) && i < |next|
      && DeliverAll(b, ms, streams) == DeliverAll(b, ms[1..], next)
      && next[i] == if ByteStreamTarget(i) in b.subscribers then streams[i] + Written(ms[0]) else streams[i]
  {
    DispatchAppendsOnce(b, ms[0], streams, i);
  }

  /** Delivering two runs of messages one after the other is delivering their concatenation. */
  lemma {:induction false} DeliverAllConcat(b: BroadcastingDispatcher, xs: seq<Message>, ys: seq<Message>, streams: Streams)
    requires WriteWithin(b.subscribers, streams)
    ensures WriteWithin(b.subscribers, DeliverAll(b, xs, streams))
    ensures DeliverAll(b, xs + ys, streams) == DeliverAll(b, ys, DeliverAll(b, xs, streams))
    decreases |xs|
  {
    if |xs| == 0 {
      assert xs + ys == ys;
    } else {
      assert (xs + ys)[1..] == xs[1..] + ys;
      DeliverAllConcat(b, xs[1..], ys, Dispatch(b, xs[0], streams).streams);
    }
  }

  /** Delivering the oldest `n1 + n2` messages is delivering the oldest `n1` and then the `n2` after them. */
  lemma DeliverPrefixSplit(b: BroadcastingDispatcher, q: seq<Message>, n1: nat, n2: nat, streams: Streams)
    requires WriteWithin(b.subscribers, streams) && n1 + n2 <= |q|
    ensures WriteWithin(b.subscribers, DeliverAll(b, q[..n1], streams))
    ensures DeliverAll(b, q[..n1 + n2], streams) == DeliverAll(b, q[n1..][..n2], DeliverAll(b, q[..n1], streams))
  {
    assert q[n1..][..n2] == q[n1..n1 + n2];
    assert q[..n1] + q[n1..n1 + n2] == q[..n1 + n2];
    DeliverAllConcat(b, q[..n1], q[n1..n1 + n2], streams);
  }

  /**
    One cycle appends to every subscribed stream the bytes of the oldest
    `n` queued messages, in queue order, after whatever the stream already
    held; streams nobody subscribed to are untouched.
  */
  lemma RunAppendsOldest(d: PollingDispatcher, s: State, i: nat)
    requires Ready(d, s) && i < |s.streams|
    ensures var n := Quota(d.maxMessagesPerPoll, 0, |s.channel.queue|);
      Run(d, s).state.streams[i]
      == if ByteStreamTarget(i) in d.dispatcher.subscribers
         then s.streams[i] + WrittenAll(s.channel.queue[..n])
         else s.streams[i]
  {
    DeliverAllAppends(d.dispatcher, s.channel.queue[..Quota(d.maxMessagesPerPoll, 0, |s.channel.queue|)], s.streams, i);
  }

  /** The consumers only append: what every stream held before the cycle is a prefix of what it holds after. */
  lemma RunOnlyAppends(d: PollingDispatcher, s: State)
    requires Ready(d, s)
    ensures var after := Run(d, s).state.streams;
      forall i :: 0 <= i < |s.streams| ==>
        |s.streams[i]| <= |after[i]| && after[i][..|s.streams[i]|] == s.streams[i]
  {
    forall i | 0 <= i < |s.streams|
      ensures |s.streams[i]| <= |Run(d, s).state.streams[i]|
      ensures Run(d, s).state.streams[i][..|s.streams[i]|] == s.streams[i]
    {
      RunAppendsOldest(d, s, i);
    }
  }

  // ---------------------------------------------------------------------------
  // How many messages a cycle takes

  /** With the limit equal to the number queued, a cycle takes them all and stops on the limit. */
  lemma RunLimitEqualsQueued(d: PollingDispatcher, s: State, i: nat)
    requires Ready(d, s) && i < |s.streams| && ByteStreamTarget(i) in d.dispatcher.subscribers
    requires d.maxMessagesPerPoll == |s.channel.queue| > 0
    ensures Run(d, s).received == |s.channel.queue|
    ensures Run(d, s).state.channel.queue == []
    ensures Run(d, s).end == LimitReached
    ensures Run(d, s).state.streams[i] == s.streams[i] + WrittenAll(s.channel.queue)
  {
    RunAppendsOldest(d, s, i);
    assert s.channel.queue[..|s.channel.queue|] == s.channel.queue;
  }

  /** With the limit below the number queued, a cycle takes exactly the oldest `limit` and leaves the rest in order. */
  lemma RunLimitBelowQueued(d: PollingDispatcher, s: State, i: nat)
    requires Ready(d, s) && i < |s.streams| && ByteStreamTarget(i) in d.dispatcher.subscribers
    requires 0 < d.maxMessagesPerPoll < |s.channel.queue|
    ensures Run(d, s).received == d.maxMessagesPerPoll
    ensures Run(d, s).state.channel.queue == s.channel.queue[d.maxMessagesPerPoll..]
    ensures Run(d, s).end == LimitReached
    ensures Run(d, s).state.streams[i] == s.streams[i] + WrittenAll(s.channel.queue[..d.maxMessagesPerPoll])
  {
    RunAppendsOldest(d, s, i);
  }

  /**
    With the limit above the number queued (or no limit) and a timeout that
    is not unlimited, a cycle drains exactly what is queued and stops when the
    next receive comes back empty.
  */
  lemma RunLimitAboveQueued(d: PollingDispatcher, s: State, i: nat)
    requires Ready(d, s) && i < |s.streams| && ByteStreamTarget(i) in d.dispatcher.subscribers
    requires d.maxMessagesPerPoll <= 0 || d.maxMessagesPerPoll > |s.channel.queue|
    requires d.receiveTimeout >= 0
    ensures Run(d, s).received == |s.channel.queue|
    ensures Run(d, s).state.channel.queue == []
    ensures Run(d, s).end == ChannelEmpty
    ensures Run(d, s).state.streams[i] == s.streams[i] + WrittenAll(s.channel.queue)
  {
    RunAppendsOldest(d, s, i);
    assert s.channel.queue[..|s.channel.queue|] == s.channel.queue;
  }

  /** A cycle on an empty channel receives nothing and changes no stream. */
  lemma RunOnEmptyChannel(d: PollingDispatcher, s: State)
    requires Ready(d, s) && s.channel.queue == []
    ensures Run(d, s).received == 0
    ensures Run(d, s).state == s
  {
    assert s.channel.queue[..0] == [];
  }

  // ---------------------------------------------------------------------------
  // Successive cycles

  /**
    A second cycle resumes at the head of what the first left queued: the
    two together deliver the oldest `n1 + n2` messages, in order, each once.
  */
  lemma TwoRunsResume(d: PollingDispatcher, s: State)
    requires Ready(d, s)
    ensures var first := Run(d, s);
      var second := Run(d, first.state);
      var q := s.channel.queue;
      var total := first.received + second.received;
      && total <= |q|
      && second.state.channel.queue == q[total..]
      && second.state.streams == DeliverAll(d.dispatcher, q[..total], s.streams)
  {
    var q := s.channel.queue;
    var first := Run(d, s);
    var n1 := first.received;
    RunTakes(d, s);
    RunTakes(d, first.state);
    var n2 := Run(d, first.state).received;
    DeliverPrefixSplit(d.dispatcher, q, n1, n2, s.streams);
    assert q[n1..][n2..] == q[n1 + n2..];
  }

  /** What one cycle takes from the channel and delivers, as `CycleSpec` states it. */
  lemma RunTakes(d: PollingDispatcher, s: State)
    requires Ready(d, s)
    ensures var q := s.channel.queue;
      var r := Run(d, s);
      && r.received <= |q|
      && Ready(d, r.state)
      && r.state.channel.queue == q[r.received..]
      && r.state.streams == DeliverAll(d.dispatcher, q[..r.received], s.streams)
  {
    assert Run(d, s) == CycleSpec(d, s);
  }

  /** `t` cycles one after another, each on the state the previous one left. */
  function RunTimes(d: PollingDispatcher, s: State, t: nat): (r: State)
    requires Ready(d, s)
    ensures Ready(d, r)
    decreases t
  {
    if t == 0 then s else RunTimes(d, Run(d, s).state, t - 1)
  }

  /** `t` applications of `CycleSpec`, one after another. */
  function SpecTimes(d: PollingDispatcher, s: State, t: nat): (r: State)
    requires s.channel.Valid() && WriteWithin(d.dispatcher.subscribers, s.streams)
    decreases t
  {
    if t == 0 then s else SpecTimes(d, CycleSpec(d, s).state, t - 1)
  }

  /** Repeated cycles are repeated applications of `CycleSpec`. */
  lemma {:induction false} RunTimesMatchesSpec(d: PollingDispatcher, s: State, t: nat)
    requires Ready(d, s)
    ensures RunTimes(d, s, t) == SpecTimes(d, s, t)
    decreases t
  {
    if t > 0 {
      var next := Run(d, s).state;
      assert next == CycleSpec(d, s).state;
      RunTimesMatchesSpec(d, next, t - 1);
    }
  }

  /**
    How many messages `t` cycles with limit `k` take from `len` queued ones
    when each cycle takes up to `k` of those that remain.
  */
  function Drained(t: nat, k: nat, len: nat): (n: nat)
    ensures n <= len
  {
    if t == 0 then 0 else Min(k, len) + Drained(t - 1, k, len - Min(k, len))
  }

  /** The first of `t` cycles takes `first`, and the remaining cycles take from what is left. */
  lemma DrainedStep(t: nat, k: nat, len: nat, first: nat)
    requires t > 0 && first == Min(k, len)
    ensures Drained(t, k, len) == first + Drained(t - 1, k, len - first)
  {
  }

  /** `t` cycles of up to `k` messages each take `t * k` messages, or all of them if fewer are queued. */
  lemma {:induction false} DrainedCount(t: nat, k: nat, len: nat)
    ensures Drained(t, k, len) == Min(t * k, len)
  {
    if t > 0 {
      DrainedCount(t - 1, k, len - Min(k, len));
      assert t * k == (t - 1) * k + k;
    }
  }

  /** Delivering the oldest `n1` messages and then the next `n2` delivers the oldest `n1 + n2`. */
  lemma CombineCycles(b: BroadcastingDispatcher, q: seq<Message>, n1: nat, n2: nat, streams: Streams, rest: State)
    requires WriteWithin(b.subscribers, streams) && n1 + n2 <= |q|
    requires WriteWithin(b.subscribers, DeliverAll(b, q[..n1], streams))
    requires rest.channel.queue == q[n1..][n2..]
    requires rest.streams == DeliverAll(b, q[n1..][..n2], DeliverAll(b, q[..n1], streams))
    ensures rest.channel.queue == q[n1 + n2..]
    ensures rest.streams == DeliverAll(b, q[..n1 + n2], streams)
  {
    DeliverPrefixSplit(b, q, n1, n2, streams);
    assert q[n1..][n2..] == q[n1 + n2..];
  }

  /** What `t` cycles leave behind: the oldest `Drained` messages delivered in order, the rest still queued. */
  predicate DeliveredOldest(d: PollingDispatcher, s: State, t: nat)
    requires s.channel.Valid() && WriteWithin(d.dispatcher.subscribers, s.streams)
    requires d.maxMessagesPerPoll > 0
  {
    var q := s.channel.queue;
    var n := Drained(t, d.maxMessagesPerPoll, |q|);
    && SpecTimes(d, s, t).channel.queue == q[n..]
    && SpecTimes(d, s, t).streams == DeliverAll(d.dispatcher, q[..n], s.streams)
  }

  /** If the cycles after the first deliver the oldest of what the first left, all `t` deliver the oldest overall. */
  lemma DeliveredOldestStep(d: PollingDispatcher, s: State, t: nat)
    requires s.channel.Valid() && WriteWithin(d.dispatcher.subscribers, s.streams)
    requires d.maxMessagesPerPoll > 0 && t > 0
    requires DeliveredOldest(d, CycleSpec(d, s).state, t - 1)
    ensures DeliveredOldest(d, s, t)
  {
    var q := s.channel.queue;
    var k := d.maxMessagesPerPoll;
    var next := CycleSpec(d, s).state;
    var n1 := Min(k, |q|);
    assert next.channel.queue == q[n1..];
    assert next.streams == DeliverAll(d.dispatcher, q[..n1], s.streams);
    var rest := SpecTimes(d, next, t - 1);
    assert SpecTimes(d, s, t) == rest;
    var n2 := Drained(t - 1, k, |q| - n1);
    assert rest.channel.queue == q[n1..][n2..];
    assert rest.streams == DeliverAll(d.dispatcher, q[n1..][..n2], DeliverAll(d.dispatcher, q[..n1], s.streams));
    CombineCycles(d.dispatcher, q, n1, n2, s.streams, rest);
    DrainedStep(t, k, |q|, n1);
    assert Drained(t, k, |q|) == n1 + n2;
  }

  /** Each of `t` cycles takes the oldest messages still queued: together they deliver the oldest `Drained` ones, in order. */
  lemma {:induction false} SpecTimesDeliversOldest(d: PollingDispatcher, s: State, t: nat)
    requires s.channel.Valid() && WriteWithin(d.dispatcher.subscribers, s.streams)
    requires d.maxMessagesPerPoll > 0
    decreases t
    ensures DeliveredOldest(d, s, t)
  {
    if t == 0 {
      var q := s.channel.queue;
      assert SpecTimes(d, s, t) == s && Drained(t, d.maxMessagesPerPoll, |q|) == 0;
      assert q[0..] == q && q[..0] == [];
    } else {
      SpecTimesDeliversOldest(d, CycleSpec(d, s).state, t - 1);
      DeliveredOldestStep(d, s, t);
    }
  }

  /**
    Repeated cycles with a positive limit `k` deliver the queue in order, `k`
    messages at a time: after `t` cycles the oldest `min(t * k, |queue|)`
    have been delivered, each once, and the others are still queued.
  */
  lemma RepeatedRunsDrainInOrder(d: PollingDispatcher, s: State, t: nat)
    requires Ready(d, s)
    requires d.maxMessagesPerPoll > 0
    ensures var q := s.channel.queue;
      var n := Drained(t, d.maxMessagesPerPoll, |q|);
      && n == Min(t * d.maxMessagesPerPoll, |q|)
      && RunTimes(d, s, t).channel.queue == q[n..]
      && RunTimes(d, s, t).streams == DeliverAll(d.dispatcher, q[..n], s.streams)
  {
    RunTimesMatchesSpec(d, s, t);
    SpecTimesDeliversOldest(d, s, t);
    DrainedCount(t, d.maxMessagesPerPoll, |s.channel.queue|);
  }
}
