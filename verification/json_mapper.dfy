/**
  `JsonOutboundMessageMapper.fromMessage`: a message as JSON text. By default
  the text is an object with two members, `"headers"` (the id, the
  timestamp and, once something was recorded, the message history) and
  `"payload"`. With `shouldExtractPayload` set, the text is the payload's
  JSON alone.
*/
module JsonMapper {
  import opened Wrappers
  import opened Text
  import opened Json
  import opened JsonParser
  import opened Messaging

  datatype JsonOutboundMessageMapper = JsonOutboundMessageMapper(shouldExtractPayload: bool)

  /** Why a message could not be written: its payload has no JSON form in this model. */
  datatype MappingError = UnsupportedPayload

  /** `new JsonOutboundMessageMapper()`: headers and payload both written. */
  function NewMapper(): (mapper: JsonOutboundMessageMapper)
    ensures !mapper.shouldExtractPayload
  {
    JsonOutboundMessageMapper(false)
  }

  function SetShouldExtractPayload(mapper: JsonOutboundMessageMapper, extract: bool): (r: JsonOutboundMessageMapper)
    ensures r.shouldExtractPayload == extract
  {
    mapper.(shouldExtractPayload := extract)
  }

  /** A string payload is a JSON string; a bean is the object of its properties; raw bytes have no form here. */
  function PayloadJson(p: Payload): Option<Json> {
    match p
    case Text(s) => Some(JString(s))
    case Bean(properties) => Some(properties)
    case Bytes(_) => None
  }

  /** One history entry as the object `{"name":…,"type":…}`. */
  function EntryJson(e: HistoryEntry): Json {
    JObject([Field("name", JString(e.name)), Field("type", JString(e.componentType))])
  }

  function HistoryJson(es: seq<HistoryEntry>): Json {
    JArray(seq(|es|, k requires 0 <= k < |es| => EntryJson(es[k])))
  }

  /** The headers object: id, timestamp, and the history only when it is not empty. */
  function HeadersJson(h: MessageHeaders): Json {
    JObject(
      [Field("id", JString(h.id)), Field("timestamp", JNumber(h.timestamp))]
      + (if |h.history| == 0 then [] else [Field("history", HistoryJson(h.history))]))
  }

  /** The default output's document: the headers object, then the payload. */
  function Envelope(h: MessageHeaders, payload: Json): Json {
    JObject([Field("headers", HeadersJson(h)), Field("payload", payload)])
  }

  /** The JSON value the mapper writes for `m`, if the payload has a JSON form. */
  function Document(mapper: JsonOutboundMessageMapper, m: Message): Option<Json> {
    match PayloadJson(m.payload)
    case None => None
    case Some(payload) =>
      if mapper.shouldExtractPayload then Some(payload)
      else Some(Envelope(m.headers, payload))
  }

  /** `fromMessage(message)`: the document as compact JSON text. */
  function FromMessage(mapper: JsonOutboundMessageMapper, m: Message): (r: Result<string, MappingError>)
    ensures r.Success? <==> !m.payload.Bytes?
    ensures r.Success? ==> Parse(r.value) == Document(mapper, m)
  {
    match Document(mapper, m)
    case None => Failure(UnsupportedPayload)
    case Some(j) =>
      ParseSerialize(j);
      Success(Serialize(j))
  }

  /** The default output is the envelope of the message's headers and payload, written out. */
  lemma DefaultOutput(m: Message)
    requires !m.payload.Bytes?
    ensures PayloadJson(m.payload).Some?
    ensures FromMessage(NewMapper(), m) == Success(Serialize(Envelope(m.headers, PayloadJson(m.payload).value)))
  {
  }

  // ---------------------------------------------------------------------------
  // Reading the output back

  /** The member at position `k` is what a lookup of its key finds when no earlier member has that key. */
  lemma {:induction false} LookupAt(fs: seq<Field>, k: nat)
    requires k < |fs|
    requires forall j :: 0 <= j < k ==> fs[j].key != fs[k].key
    ensures Lookup(fs, fs[k].key) == Some(fs[k].value)
  {
    if k > 0 {
      assert fs[1..][k - 1] == fs[k];
      forall j | 0 <= j < k - 1 ensures fs[1..][j].key != fs[k].key {
        assert fs[1..][j] == fs[j + 1];
      }
      LookupAt(fs[1..], k - 1);
    }
  }

  /** The headers object's members read back as the headers they were written from. */
  lemma HeadersReadBack(h: MessageHeaders)
    ensures Member(HeadersJson(h), "id") == Some(JString(h.id))
    ensures Member(HeadersJson(h), "timestamp") == Some(JNumber(h.timestamp))
    ensures |h.history| == 0 ==> Member(HeadersJson(h), "history") == None
    ensures |h.history| > 0 ==> Member(HeadersJson(h), "history") == Some(HistoryJson(h.history))
  {
    var fs := HeadersJson(h).fields;
    assert fs[0].key == "id" && fs[1].key == "timestamp";
    assert "id" != "timestamp" by { assert |"id"| != |"timestamp"|; }
    LookupAt(fs, 0);
    LookupAt(fs, 1);
    if |h.history| > 0 {
      assert fs[2].key == "history";
      assert "id" != "history" by { assert |"id"| != |"history"|; }
      assert "timestamp" != "history" by { assert |"timestamp"| != |"history"|; }
      LookupAt(fs, 2);
    } else {
      assert |fs| == 2;
      assert "id" != "history" by { assert |"id"| != |"history"|; }
      assert "timestamp" != "history" by { assert |"timestamp"| != |"history"|; }
    }
  }

  /** Each history entry reads back as the name and type it was written from, in recorded order. */
  lemma HistoryReadBack(es: seq<HistoryEntry>)
    ensures HistoryJson(es).JArray? && |HistoryJson(es).items| == |es|
    ensures forall k :: 0 <= k < |es| ==>
      && Member(HistoryJson(es).items[k], "name") == Some(JString(es[k].name))
      && Member(HistoryJson(es).items[k], "type") == Some(JString(es[k].componentType))
  {
    assert "name" != "type" by { assert "name"[0] != "type"[0]; }
    forall k | 0 <= k < |es|
      ensures Member(HistoryJson(es).items[k], "name") == Some(JString(es[k].name))
      ensures Member(HistoryJson(es).items[k], "type") == Some(JString(es[k].componentType))
    {
      var fs := EntryJson(es[k]).fields;
      LookupAt(fs, 0);
      LookupAt(fs, 1);
    }
  }

  /**
    By default the output reads back as an object whose `"payload"` member is
    the payload and whose `"headers"` member carries the message's id and
    timestamp, and its history in the order it was recorded (absent while
    the history is empty).
  */
  lemma DefaultReadsBack(m: Message)
    requires !m.payload.Bytes?
    ensures var doc := Parse(FromMessage(NewMapper(), m).value);
      && doc.Some?
      && Member(doc.value, "payload") == PayloadJson(m.payload)
      && Member(doc.value, "headers") == Some(HeadersJson(m.headers))
  {
    var fs := Envelope(m.headers, PayloadJson(m.payload).value).fields;
    assert "headers" != "payload" by { assert "headers"[0] != "payload"[0]; }
    LookupAt(fs, 0);
    LookupAt(fs, 1);
  }

  /** With `shouldExtractPayload` the output reads back as the payload alone: no headers are written. */
  lemma ExtractReadsBack(mapper: JsonOutboundMessageMapper, m: Message)
    requires mapper.shouldExtractPayload && !m.payload.Bytes?
    ensures Parse(FromMessage(mapper, m).value) == PayloadJson(m.payload)
  {
  }

  /** With `shouldExtractPayload` two messages with the same payload map to the same text, whatever their headers. */
  lemma ExtractIgnoresHeaders(mapper: JsonOutboundMessageMapper, m: Message, n: Message)
    requires mapper.shouldExtractPayload && m.payload == n.payload
    ensures FromMessage(mapper, m) == FromMessage(mapper, n)
  {
  }

  /** A quoted string with nothing to escape is the string between double quotes. */
  lemma QuotePlain(s: string)
    requires IsPlain(s)
    ensures Quote(s) == "\"" + s + "\""
  {
    EscapePlain(s);
  }

  /** An extracted string payload with nothing to escape is written as exactly that string in double quotes. */
  lemma ExtractPlainText(mapper: JsonOutboundMessageMapper, m: Message)
    requires mapper.shouldExtractPayload && m.payload.Text? && IsPlain(m.payload.text)
    ensures FromMessage(mapper, m) == Success("\"" + m.payload.text + "\"")
  {
    QuotePlain(m.payload.text);
  }

  // ---------------------------------------------------------------------------
  // What the text contains

  /** A member with a plain key appears in its object's text as `"key":value`. */
  lemma ObjectContainsField(fs: seq<Field>, k: nat, head: string)
    requires k < |fs| && IsPlain(fs[k].key) && head == "\"" + fs[k].key + "\":"
    ensures Contains(Serialize(JObject(fs)), head + Serialize(fs[k].value))
    ensures Contains(Serialize(JObject(fs)), Serialize(fs[k].value))
  {
    var f := fs[k];
    var text := SerializeField(f);
    var value := Serialize(f.value);
    FieldsContainEach(fs, k);
    ContainsInPart("{", SerializeFields(fs), "}", text);
    assert Quote(f.key) + ":" == head by {
      QuotePlain(f.key);
      assert "\"" + f.key + "\"" + ":" == "\"" + f.key + "\":";
    }
    assert text == head + value;
    ContainsMiddle(head, value, "");
    assert head + value + "" == text;
    ContainsTransitive(Serialize(JObject(fs)), text, value);
  }

  /** Each element of an array appears, serialised, in the array's text. */
  lemma ArrayContainsItem(xs: seq<Json>, k: nat)
    requires k < |xs|
    ensures Contains(Serialize(JArray(xs)), Serialize(xs[k]))
  {
    ItemsContainEach(xs, k);
    ContainsInPart("[", SerializeItems(xs), "]", Serialize(xs[k]));
  }

  /** `t` occurs in `s` when `s` contains some `u` that begins with `t`. */
  lemma ContainsStart(s: string, u: string, t: string, tail: string)
    requires Contains(s, u) && u == t + tail
    ensures Contains(s, t)
  {
    ContainsMiddle("", t, tail);
    assert "" + t + tail == u;
    ContainsTransitive(s, u, t);
  }

  /** An object's text opens with `{`. */
  lemma ObjectStart(fs: seq<Field>)
    ensures Serialize(JObject(fs)) == "{" + (SerializeFields(fs) + "}")
  {
  }

  /** A member whose value is an object appears as `"key":{`. */
  lemma ContainsObjectField(s: string, head: string, fs: seq<Field>)
    requires Contains(s, head + Serialize(JObject(fs)))
    ensures Contains(s, head + "{")
  {
    ObjectStart(fs);
    assert head + Serialize(JObject(fs)) == head + "{" + (SerializeFields(fs) + "}");
    ContainsStart(s, head + Serialize(JObject(fs)), head + "{", SerializeFields(fs) + "}");
  }

  /** The envelope's text contains its two members as `"headers":{…}` and `"payload":…`. */
  lemma EnvelopeContains(h: MessageHeaders, payload: Json)
    ensures Contains(Serialize(Envelope(h, payload)), "\"headers\":{")
    ensures Contains(Serialize(Envelope(h, payload)), Serialize(HeadersJson(h)))
    ensures Contains(Serialize(Envelope(h, payload)), "\"payload\":" + Serialize(payload))
  {
    var fs := Envelope(h, payload).fields;
    assert IsPlain("headers") && IsPlain("payload");
    ObjectContainsField(fs, 0, "\"headers\":");
    ContainsObjectField(Serialize(Envelope(h, payload)), "\"headers\":", HeadersJson(h).fields);
    assert "\"headers\":" + "{" == "\"headers\":{";
    ObjectContainsField(fs, 1, "\"payload\":");
  }

  /** The headers object's text contains `"id":<quoted id>` and `"timestamp":<digits>`. */
  lemma HeadersContain(h: MessageHeaders)
    ensures Contains(Serialize(HeadersJson(h)), "\"id\":" + Quote(h.id))
    ensures Contains(Serialize(HeadersJson(h)), "\"timestamp\":" + IntToString(h.timestamp))
  {
    var fs := HeadersJson(h).fields;
    assert IsPlain("id") && IsPlain("timestamp");
    ObjectContainsField(fs, 0, "\"id\":");
    ObjectContainsField(fs, 1, "\"timestamp\":");
  }

  /**
    The default output contains `"headers":{`, the timestamp as
    `"timestamp":<digits>`, the id as `"id":<quoted id>` and the payload as
    `"payload":<payload json>`.
  */
  lemma DefaultContainsHeadersAndPayload(m: Message, out: string)
    requires !m.payload.Bytes? && FromMessage(NewMapper(), m) == Success(out)
    ensures Contains(out, "\"headers\":{")
    ensures Contains(out, "\"timestamp\":" + IntToString(m.headers.timestamp))
    ensures Contains(out, "\"id\":" + Quote(m.headers.id))
    ensures Contains(out, "\"payload\":" + Serialize(PayloadJson(m.payload).value))
  {
    DefaultOutput(m);
    var hj := Serialize(HeadersJson(m.headers));
    EnvelopeContains(m.headers, PayloadJson(m.payload).value);
    HeadersContain(m.headers);
    ContainsTransitive(out, hj, "\"id\":" + Quote(m.headers.id));
    ContainsTransitive(out, hj, "\"timestamp\":" + IntToString(m.headers.timestamp));
  }

  /**
    A string payload with nothing to escape, and an id with nothing to
    escape, appear in the default output as `"payload":"<text>"` and
    `"id":"<id>"`.
  */
  lemma DefaultContainsPlainText(m: Message, out: string)
    requires m.payload.Text? && IsPlain(m.payload.text) && IsPlain(m.headers.id)
    requires FromMessage(NewMapper(), m) == Success(out)
    ensures Contains(out, "\"payload\":" + "\"" + m.payload.text + "\"")
    ensures Contains(out, "\"id\":" + "\"" + m.headers.id + "\"")
  {
    DefaultContainsHeadersAndPayload(m, out);
    assert Serialize(PayloadJson(m.payload).value) == Quote(m.payload.text);
    ContainsQuotedPlain(out, "\"payload\":", m.payload.text);
    ContainsQuotedPlain(out, "\"id\":", m.headers.id);
  }

  /** A plain text quoted after `key` is the text itself between double quotes after `key`. */
  lemma ContainsQuotedPlain(out: string, key: string, t: string)
    requires IsPlain(t) && Contains(out, key + Quote(t))
    ensures Contains(out, key + "\"" + t + "\"")
  {
    QuotePlain(t);
    assert key + Quote(t) == key + "\"" + t + "\"";
  }

  /** A history entry's text contains `"name":<quoted name>` and `"type":<quoted type>`. */
  lemma EntryContains(e: HistoryEntry)
    ensures Contains(Serialize(EntryJson(e)), "\"name\":" + Quote(e.name))
    ensures Contains(Serialize(EntryJson(e)), "\"type\":" + Quote(e.componentType))
  {
    var fs := EntryJson(e).fields;
    assert IsPlain("name") && IsPlain("type");
    ObjectContainsField(fs, 0, "\"name\":");
    ObjectContainsField(fs, 1, "\"type\":");
  }

  /** A non-empty history appears in the headers' text as `"history":[…]`, with each entry's text inside. */
  lemma HistoryContains(h: MessageHeaders, k: nat)
    requires k < |h.history|
    ensures Contains(Serialize(HeadersJson(h)), "\"history\":")
    ensures Contains(Serialize(HeadersJson(h)), Serialize(EntryJson(h.history[k])))
  {
    var fs := HeadersJson(h).fields;
    var history := HistoryJson(h.history);
    var hs := Serialize(HeadersJson(h));
    assert IsPlain("history");
    assert fs[2] == Field("history", history);
    ObjectContainsField(fs, 2, "\"history\":");
    ContainsStart(hs, "\"history\":" + Serialize(history), "\"history\":", Serialize(history));
    ArrayContainsItem(history.items, k);
    assert history.items[k] == EntryJson(h.history[k]);
    ContainsTransitive(hs, Serialize(history), Serialize(EntryJson(h.history[k])));
  }

  /**
    Once the history is not empty, the default output contains `"history":`
    and, for every recorded component, `"name":` and `"type":` with its
    name and type.
  */
  lemma DefaultContainsHistory(m: Message, out: string, k: nat)
    requires !m.payload.Bytes? && FromMessage(NewMapper(), m) == Success(out)
    requires k < |m.headers.history|
    ensures Contains(out, "\"history\":")
    ensures Contains(out, "\"name\":" + Quote(m.headers.history[k].name))
    ensures Contains(out, "\"type\":" + Quote(m.headers.history[k].componentType))
  {
    var e := m.headers.history[k];
    var hs := Serialize(HeadersJson(m.headers));
    DefaultOutput(m);
    EnvelopeContains(m.headers, PayloadJson(m.payload).value);
    HistoryContains(m.headers, k);
    EntryContains(e);
    ContainsTransitive(out, hs, "\"history\":");
    ContainsTransitive(out, hs, Serialize(EntryJson(e)));
    ContainsTransitive(out, Serialize(EntryJson(e)), "\"name\":" + Quote(e.name));
    ContainsTransitive(out, Serialize(EntryJson(e)), "\"type\":" + Quote(e.componentType));
  }

  /** A recorded name and type with nothing to escape appear verbatim in the default output. */
  lemma DefaultContainsPlainHistory(m: Message, out: string, k: nat)
    requires !m.payload.Bytes? && FromMessage(NewMapper(), m) == Success(out)
    requires k < |m.headers.history|
    requires IsPlain(m.headers.history[k].name) && IsPlain(m.headers.history[k].componentType)
    ensures Contains(out, m.headers.history[k].name)
    ensures Contains(out, m.headers.history[k].componentType)
  {
    var e := m.headers.history[k];
    DefaultContainsHistory(m, out, k);
    ContainsQuoted(out, "\"name\":", e.name);
    ContainsQuoted(out, "\"type\":", e.componentType);
  }

  /** A plain string that occurs quoted occurs as it is. */
  lemma ContainsQuoted(s: string, head: string, v: string)
    requires IsPlain(v) && Contains(s, head + Quote(v))
    ensures Contains(s, v)
  {
    QuotePlain(v);
    assert head + Quote(v) == head + "\"" + v + "\"";
    ContainsMiddle(head + "\"", v, "\"");
    ContainsTransitive(s, head + Quote(v), v);
  }

  // ---------------------------------------------------------------------------
  // Mapping after history writes

  /**
    After a message passes through components `cs` (each write building a
    new message), the default output reads back with the original payload,
    the last write's id and timestamp, and a history holding what the
    message had followed by those components in the order they were passed.
  */
  lemma MappedAfterWrites(m: Message, cs: seq<NamedComponent>, stamps: seq<Stamp>)
    requires |stamps| == |cs| > 0 && !m.payload.Bytes?
    ensures var out := FromMessage(NewMapper(), WriteAll(m, cs, stamps));
      && out.Success?
      && Parse(out.value) == Some(Envelope(
           MessageHeaders(stamps[|cs| - 1].id, stamps[|cs| - 1].timestamp, m.headers.history + Entries(cs)),
           PayloadJson(m.payload).value))
  {
    WriteAllRecordsInOrder(m, cs, stamps);
    DefaultOutput(WriteAll(m, cs, stamps));
  }
}
