/**
  JSON values and their compact textual form, as Jackson writes it: no
  insignificant whitespace, object members in order, strings escaped.
  Numbers are integers, which is all the message headers carry.
*/
module Json {
  import opened Wrappers
  import opened Text

  datatype Json =
    | JNull
    | JBool(b: bool)
    | JNumber(n: int)
    | JString(s: string)
    | JArray(items: seq<Json>)
    | JObject(fields: seq<Field>)

  /** One `"key":value` member of an object; members keep their order. */
  datatype Field = Field(key: string, value: Json)

  /** The value of the first member named `key`, if the value is an object holding one. */
  function Member(j: Json, key: string): Option<Json> {
    if j.JObject? then Lookup(j.fields, key) else None
  }

  function Lookup(fs: seq<Field>, key: string): (r: Option<Json>)
    ensures r.Some? <==> exists k :: 0 <= k < |fs| && fs[k].key == key
  {
    if |fs| == 0 then None
    else if fs[0].key == key then Some(fs[0].value)
    else
      assert forall k :: 1 <= k < |fs| ==> fs[k] == fs[1..][k - 1];
      Lookup(fs[1..], key)
  }

  function HexDigit(d: nat): (c: char)
    requires d < 16
  {
    "0123456789ABCDEF"[d]
  }

  /** Characters that may not appear raw inside a JSON string. */
  predicate NeedsEscape(c: char) {
    c == '"' || c == '\\' || (c as int) < 0x20
  }

  /** Text that is written into a JSON string unchanged. */
  predicate IsPlain(s: string) {
    forall k :: 0 <= k < |s| ==> !NeedsEscape(s[k])
  }

  /** How one character is written inside a JSON string. */
  function EscapeChar(c: char): (e: string)
    ensures |e| >= 1
    ensures !NeedsEscape(c) <==> e == [c]
    ensures NeedsEscape(c) ==> e[0] == '\\'
  {
    if c == '"' then "\\\""
    else if c == '\\' then "\\\\"
    else if c as int == 0x08 then "\\b"
    else if c == '\t' then "\\t"
    else if c == '\n' then "\\n"
    else if c as int == 0x0C then "\\f"
    else if c == '\r' then "\\r"
    else if (c as int) < 0x20 then
      "\\u00" + [HexDigit((c as int) / 16), HexDigit((c as int) % 16)]
    else [c]
  }

  /** The strings one after another. */
  function Concat(parts: seq<string>): string {
    if |parts| == 0 then "" else parts[0] + Concat(parts[1..])
  }

  /** A string's characters, each as it is written inside a JSON string. */
  function Escape(s: string): string {
    Concat(seq(|s|, k requires 0 <= k < |s| => EscapeChar(s[k])))
  }

  /** Escaping works one character at a time, from the front. */
  lemma EscapeFront(s: string)
    ensures |s| == 0 ==> Escape(s) == ""
    ensures |s| > 0 ==> Escape(s) == EscapeChar(s[0]) + Escape(s[1..])
  {
    if |s| > 0 {
      var parts := seq(|s|, k requires 0 <= k < |s| => EscapeChar(s[k]));
      assert parts[1..] == seq(|s[1..]|, k requires 0 <= k < |s[1..]| => EscapeChar(s[1..][k]));
    }
  }

  /** Plain text needs no escaping: escaping leaves it as it is. */
  lemma {:induction false} EscapePlain(s: string)
    requires IsPlain(s)
    ensures Escape(s) == s
  {
    EscapeFront(s);
    if |s| > 0 {
      assert !NeedsEscape(s[0]);
      assert IsPlain(s[1..]) by {
        forall k | 0 <= k < |s[1..]| ensures !NeedsEscape(s[1..][k]) {
          assert s[1..][k] == s[k + 1];
        }
      }
      EscapePlain(s[1..]);
      EscapeFront(s);
      assert [s[0]] + s[1..] == s;
    }
  }

  /** A JSON string literal: the escaped text between double quotes. */
  function Quote(s: string): string {
    "\"" + Escape(s) + "\""
  }

  function Serialize(j: Json): string
    decreases j
  {
    match j
    case JNull => "null"
    case JBool(b) => if b then "true" else "false"
    case JNumber(n) => IntToString(n)
    case JString(s) => Quote(s)
    case JArray(items) => "[" + SerializeItems(items) + "]"
    case JObject(fields) => "{" + SerializeFields(fields) + "}"
  }

  /** Array elements, separated by commas. */
  function SerializeItems(xs: seq<Json>): string
    decreases xs
  {
    if |xs| == 0 then ""
    else if |xs| == 1 then Serialize(xs[0])
    else Serialize(xs[0]) + "," + SerializeItems(xs[1..])
  }

  function SerializeField(f: Field): string
    decreases f
  {
    Quote(f.key) + ":" + Serialize(f.value)
  }

  /** Object members, separated by commas. */
  function SerializeFields(fs: seq<Field>): string
    decreases fs
  {
    if |fs| == 0 then ""
    else if |fs| == 1 then SerializeField(fs[0])
    else SerializeField(fs[0]) + "," + SerializeFields(fs[1..])
  }

  /** Every element of an array appears, serialised, in the array's text. */
  lemma {:induction false} ItemsContainEach(xs: seq<Json>, k: nat)
    requires k < |xs|
    ensures Contains(SerializeItems(xs), Serialize(xs[k]))
    decreases |xs|
  {
    if |xs| == 1 {
      ContainsMiddle("", Serialize(xs[0]), "");
      assert "" + Serialize(xs[0]) + "" == SerializeItems(xs);
    } else if k == 0 {
      ContainsMiddle("", Serialize(xs[0]), "," + SerializeItems(xs[1..]));
      assert "" + Serialize(xs[0]) + ("," + SerializeItems(xs[1..])) == SerializeItems(xs);
    } else {
      ItemsContainEach(xs[1..], k - 1);
      assert xs[1..][k - 1] == xs[k];
      ContainsInPart(Serialize(xs[0]) + ",", SerializeItems(xs[1..]), "", Serialize(xs[k]));
      assert Serialize(xs[0]) + "," + SerializeItems(xs[1..]) + "" == SerializeItems(xs);
    }
  }

  /** Every member of an object appears, serialised, in the object's text. */
  lemma {:induction false} FieldsContainEach(fs: seq<Field>, k: nat)
    requires k < |fs|
    ensures Contains(SerializeFields(fs), SerializeField(fs[k]))
    decreases |fs|
  {
    if |fs| == 1 {
      ContainsMiddle("", SerializeField(fs[0]), "");
      assert "" + SerializeField(fs[0]) + "" == SerializeFields(fs);
    } else if k == 0 {
      ContainsMiddle("", SerializeField(fs[0]), "," + SerializeFields(fs[1..]));
      assert "" + SerializeField(fs[0]) + ("," + SerializeFields(fs[1..])) == SerializeFields(fs);
    } else {
      FieldsContainEach(fs[1..], k - 1);
      assert fs[1..][k - 1] == fs[k];
      ContainsInPart(SerializeField(fs[0]) + ",", SerializeFields(fs[1..]), "", SerializeField(fs[k]));
      assert SerializeField(fs[0]) + "," + SerializeFields(fs[1..]) + "" == SerializeFields(fs);
    }
  }
}
