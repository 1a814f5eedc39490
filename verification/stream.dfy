/**
  `ByteStreamTarget`: a consumer that writes each message's payload to the
  byte stream it wraps. The streams are owned outside the consumer; they are
  modelled as a sequence of byte buffers (`ByteArrayOutputStream` contents)
  and a target names the one it writes to. Their owner may reset or write to
  them between deliveries; the target only ever appends.
*/
module Stream {
  import opened Wrappers
  import opened Utf8
  import opened Messaging

  /** The contents of every byte stream, indexed by stream. */
  type Streams = seq<seq<byte>>

  datatype ByteStreamTarget = ByteStreamTarget(stream: nat)

  /** A payload that is neither `byte[]` nor `String` is refused before anything is written. */
  datatype DeliveryError = UnwritablePayload

  /** The bytes a payload is written as: a byte array as it is, text as its UTF-8 encoding. */
  function PayloadBytes(p: Payload): (r: Result<seq<byte>, DeliveryError>)
    ensures p.Bytes? ==> r == Success(p.bytes)
    ensures p.Text? ==> r.Success? && Decode(r.value) == Some(p.text)
    ensures p.Bean? <==> r.Failure?
  {
    match p
    case Bytes(bs) => Success(bs)
    case Text(s) => DecodeEncode(s); Success(Encode(s))
    case Bean(_) => Failure(UnwritablePayload)
  }

  /** `ByteStreamTarget.send(message)`: append the payload's bytes to the target's stream. */
  function Send(t: ByteStreamTarget, m: Message, streams: Streams): (r: Result<Streams, DeliveryError>)
    requires t.stream < |streams|
    ensures r.Success? <==> !m.payload.Bean?
    ensures r.Success? ==> |r.value| == |streams|
    ensures r.Success? ==> forall i :: 0 <= i < |streams| && i != t.stream ==> r.value[i] == streams[i]
    ensures r.Success? ==> |streams[t.stream]| <= |r.value[t.stream]|
    ensures r.Success? ==> r.value[t.stream][..|streams[t.stream]|] == streams[t.stream]
    ensures m.payload.Bytes? ==> r.Success? && r.value[t.stream][|streams[t.stream]|..] == m.payload.bytes
    ensures m.payload.Text? ==> r.Success? && Decode(r.value[t.stream][|streams[t.stream]|..]) == Some(m.payload.text)
  {
    match PayloadBytes(m.payload)
    case Success(bs) =>
      var s := streams[t.stream] + bs;
      assert s[|streams[t.stream]|..] == bs;
      Success(streams[t.stream := s])
    case Failure(e) => Failure(e)
  }

  /** What a target appends for a message: its payload bytes, or nothing when it refuses the payload. */
  function Written(m: Message): seq<byte> {
    match PayloadBytes(m.payload)
    case Success(bs) => bs
    case Failure(_) => []
  }

  /** What a target appends for a run of messages: their bytes concatenated in delivery order. */
  function WrittenAll(ms: seq<Message>): seq<byte> {
    if |ms| == 0 then [] else Written(ms[0]) + WrittenAll(ms[1..])
  }

  /** Appending a run's bytes is appending its head's bytes and then the rest's. */
  lemma WrittenAllHead(ms: seq<Message>, prefix: seq<byte>)
    requires |ms| > 0
    ensures prefix + Written(ms[0]) + WrittenAll(ms[1..]) == prefix + WrittenAll(ms)
  {
  }

  /** Writing two runs of messages writes the first run's bytes followed by the second's. */
  lemma {:induction false} WrittenAllAppend(a: seq<Message>, b: seq<Message>)
    ensures WrittenAll(a + b) == WrittenAll(a) + WrittenAll(b)
  {
    if |a| == 0 {
      assert a + b == b;
    } else {
      assert (a + b)[1..] == a[1..] + b;
      WrittenAllAppend(a[1..], b);
    }
  }
}
