/**
  A reader for the compact JSON the serialiser writes, and the proof that it
  reads every serialised value back: `Parse(Serialize(j)) == Some(j)`.
  This is the reading side the mapper's output is checked against.
*/
module JsonParser {
  import opened Wrappers
  import opened Text
  import opened Json
  import Utf8

  function HexValue(c: char): (r: Option<nat>)
    ensures r.Some? ==> r.value < 16
  {
    if '0' <= c <= '9' then Some((c as int) - ('0' as int))
    else if 'A' <= c <= 'F' then Some((c as int) - ('A' as int) + 10)
    else if 'a' <= c <= 'f' then Some((c as int) - ('a' as int) + 10)
    else None
  }

  /** The code unit written by four hexadecimal digits, if they are digits. */
  function Hex4(s: string): (r: Option<nat>)
    requires |s| == 4
    ensures r.Some? ==> r.value < 0x1_0000
  {
    match (HexValue(s[0]), HexValue(s[1]), HexValue(s[2]), HexValue(s[3]))
    case (Some(a), Some(b), Some(c), Some(d)) => Some(((a * 16 + b) * 16 + c) * 16 + d)
    case _ => None
  }

  /**
    Reads the escape sequence after a backslash. A `\u` escape of a lone
    surrogate half is rejected: it is not a character on its own.
  */
  function ParseEscape(s: string): (r: Option<(char, string)>)
    ensures r.Some? ==> |r.value.1| < |s|
  {
    if |s| == 0 then None
    else if s[0] == '"' || s[0] == '\\' || s[0] == '/' then Some((s[0], s[1..]))
    else if s[0] == 'b' then Some((0x08 as char, s[1..]))
    else if s[0] == 't' then Some(('\t', s[1..]))
    else if s[0] == 'n' then Some(('\n', s[1..]))
    else if s[0] == 'f' then Some((0x0C as char, s[1..]))
    else if s[0] == 'r' then Some(('\r', s[1..]))
    else if s[0] == 'u' && |s| >= 5 then
      match Hex4(s[1..5])
      case Some(v) => if Utf8.IsScalar(v) then Some((v as char, s[5..])) else None
      case None => None
    else None
  }

  /** Reads the rest of a string literal after its opening quote, up to and including the closing quote. */
  function ParseStringBody(s: string): (r: Option<(string, string)>)
    ensures r.Some? ==> |r.value.1| < |s|
    decreases |s|
  {
    if |s| == 0 then None
    else if s[0] == '"' then Some(("", s[1..]))
    else if (s[0] as int) < 0x20 then None
    else if s[0] == '\\' then
      match ParseEscape(s[1..])
      case None => None
      case Some((c, tail)) =>
        match ParseStringBody(tail)
        case None => None
        case Some((t, rest)) => Some(([c] + t, rest))
    else
      match ParseStringBody(s[1..])
      case None => None
      case Some((t, rest)) => Some(([s[0]] + t, rest))
  }

  /** Reads the longest run of decimal digits at the front of `s`; there must be at least one. */
  function ParseDigits(s: string): (r: Option<(nat, string)>)
    ensures r.Some? ==> |r.value.1| < |s|
  {
    var k := DigitRun(s);
    if k == 0 then None else Some((DigitsValue(s[..k]), s[k..]))
  }

  /** Reads an integer: an optional minus sign and at least one digit. */
  function ParseNumber(s: string): (r: Option<(int, string)>)
    ensures r.Some? ==> |r.value.1| < |s|
  {
    if |s| > 0 && s[0] == '-' then
      match ParseDigits(s[1..])
      case None => None
      case Some((m, rest)) => Some((-(m as int), rest))
    else
      match ParseDigits(s)
      case None => None
      case Some((m, rest)) => Some((m, rest))
  }

  predicate StartsWith(s: string, p: string) {
    |p| <= |s| && s[..|p|] == p
  }

  /** Reads one value from the front of `s`, returning it with the text after it. */
  function ParseValue(s: string): (r: Option<(Json, string)>)
    ensures r.Some? ==> |r.value.1| < |s|
    decreases |s|, 1
  {
    if |s| == 0 then None
    else if s[0] == 'n' then
      if StartsWith(s, "null") then Some((JNull, s[4..])) else None
    else if s[0] == 't' then
      if StartsWith(s, "true") then Some((JBool(true), s[4..])) else None
    else if s[0] == 'f' then
      if StartsWith(s, "false") then Some((JBool(false), s[5..])) else None
    else if s[0] == '"' then
      match ParseStringBody(s[1..])
      case None => None
      case Some((t, rest)) => Some((JString(t), rest))
    else if s[0] == '[' then
      if |s| >= 2 && s[1] == ']' then Some((JArray([]), s[2..]))
      else
        match ParseItems(s[1..])
        case None => None
        case Some((xs, rest)) => Some((JArray(xs), rest))
    else if s[0] == '{' then
      if |s| >= 2 && s[1] == '}' then Some((JObject([]), s[2..]))
      else
        match ParseFields(s[1..])
        case None => None
        case Some((fs, rest)) => Some((JObject(fs), rest))
    else
      match ParseNumber(s)
      case None => None
      case Some((n, rest)) => Some((JNumber(n), rest))
  }

  /** Reads one or more comma-separated values and the closing bracket. */
  function ParseItems(s: string): (r: Option<(seq<Json>, string)>)
    ensures r.Some? ==> |r.value.1| < |s|
    decreases |s|, 2
  {
    match ParseValue(s)
    case None => None
    case Some((x, rest)) =>
      if |rest| > 0 && rest[0] == ']' then Some(([x], rest[1..]))
      else if |rest| > 0 && rest[0] == ',' then
        match ParseItems(rest[1..])
        case None => None
        case Some((xs, rest')) => Some(([x] + xs, rest'))
      else None
  }

  /** Reads one or more comma-separated `"key":value` members and the closing brace. */
  function ParseFields(s: string): (r: Option<(seq<Field>, string)>)
    ensures r.Some? ==> |r.value.1| < |s|
    decreases |s|, 2
  {
    if |s| == 0 || s[0] != '"' then None
    else
      match ParseStringBody(s[1..])
      case None => None
      case Some((key, afterKey)) =>
        if |afterKey| == 0 || afterKey[0] != ':' then None
        else
          match ParseValue(afterKey[1..])
          case None => None
          case Some((v, rest)) =>
            if |rest| > 0 && rest[0] == '}' then Some(([Field(key, v)], rest[1..]))
            else if |rest| > 0 && rest[0] == ',' then
              match ParseFields(rest[1..])
              case None => None
              case Some((fs, rest')) => Some(([Field(key, v)] + fs, rest'))
            else None
  }

  /** Reads a complete document: one value and nothing after it. */
  function Parse(s: string): Option<Json> {
    match ParseValue(s)
    case Some((j, rest)) => if rest == [] then Some(j) else None
    case None => None
  }

  // ---------------------------------------------------------------------------
  // Reading back what the serialiser wrote

  /** Text that may follow a value inside a document: its end, or a separator or closer. */
  predicate Delimited(rest: string) {
    rest == [] || rest[0] == ',' || rest[0] == ']' || rest[0] == '}'
  }

  lemma ParseEscapeChar(c: char, tail: string)
    requires NeedsEscape(c)
    ensures ParseEscape(EscapeChar(c)[1..] + tail) == Some((c, tail))
  {
    var cp := c as int;
    if c != '"' && c != '\\' && cp != 0x08 && cp != 0x09 && cp != 0x0A && cp != 0x0C && cp != 0x0D {
      var s := EscapeChar(c)[1..] + tail;
      assert s[0] == 'u';
      assert s[1..5] == ['0', '0', HexDigit(cp / 16), HexDigit(cp % 16)];
      assert HexValue(HexDigit(cp / 16)) == Some(cp / 16);
      assert HexValue(HexDigit(cp % 16)) == Some(cp % 16);
      assert Hex4(s[1..5]) == Some(cp);
      assert s[5..] == tail;
    }
  }

  /** How a raw character inside a string literal is read. */
  lemma ParseStringBodyRaw(s: string)
    requires |s| > 0 && !NeedsEscape(s[0])
    ensures ParseStringBody(s)
         == match ParseStringBody(s[1..]) case None => None case Some((t, rest)) => Some(([s[0]] + t, rest))
  {
  }

  /** How an escape sequence inside a string literal is read. */
  lemma ParseStringBodyEscaped(s: string)
    requires |s| > 0 && s[0] == '\\'
    ensures ParseStringBody(s)
         == match ParseEscape(s[1..])
            case None => None
            case Some((c, tail)) =>
              match ParseStringBody(tail) case None => None case Some((t, rest)) => Some(([c] + t, rest))
  {
  }

  /** One escaped character in front of a string body is read back as that character. */
  lemma ParseStringBodyChar(c: char, tail: string, t: string, rest: string)
    requires ParseStringBody(tail) == Some((t, rest))
    ensures ParseStringBody(EscapeChar(c) + tail) == Some(([c] + t, rest))
  {
    var e := EscapeChar(c);
    var s := e + tail;
    if NeedsEscape(c) {
      assert s[0] == '\\';
      assert s[1..] == e[1..] + tail;
      ParseEscapeChar(c, tail);
      ParseStringBodyEscaped(s);
    } else {
      assert s[0] == c && s[1..] == tail;
      ParseStringBodyRaw(s);
    }
  }

  /** A string literal's body is read back as the text that was escaped into it. */
  lemma {:induction false} ParseStringBodyEscape(t: string, rest: string)
    ensures ParseStringBody(Escape(t) + "\"" + rest) == Some((t, rest))
  {
    EscapeFront(t);
    if |t| == 0 {
      var s := Escape(t) + "\"" + rest;
      assert s == "\"" + rest;
      assert s[0] == '"' && s[1..] == rest;
    } else {
      var tail := Escape(t[1..]) + "\"" + rest;
      assert Escape(t) + "\"" + rest == EscapeChar(t[0]) + tail;
      ParseStringBodyEscape(t[1..], rest);
      ParseStringBodyChar(t[0], tail, t[1..], rest);
      assert [t[0]] + t[1..] == t;
    }
  }

  lemma ParseDigitsNatToString(m: nat, rest: string)
    requires Delimited(rest)
    ensures ParseDigits(NatToString(m) + rest) == Some((m, rest))
  {
    var d := NatToString(m);
    DigitsValueNatToString(m);
    DigitRunOfDigits(d, rest);
    assert (d + rest)[..|d|] == d && (d + rest)[|d|..] == rest;
  }

  lemma ParseNumberSerialize(n: int, rest: string)
    requires Delimited(rest)
    ensures ParseNumber(IntToString(n) + rest) == Some((n, rest))
  {
    if n < 0 {
      ParseNegativeSerialize(-n, rest);
      assert -(-n) == n;
    } else {
      var d := NatToString(n);
      var s := d + rest;
      assert s[0] != '-' by { assert IsDigit(d[0]); }
      ParseDigitsNatToString(n, rest);
    }
  }

  /** A minus sign and the digits of `m` are read back as `-m`. */
  lemma ParseNegativeSerialize(m: nat, rest: string)
    requires m > 0 && Delimited(rest)
    ensures ParseNumber("-" + NatToString(m) + rest) == Some((-(m as int), rest))
  {
    var t := NatToString(m) + rest;
    ParseDigitsNatToString(m, rest);
    ParseMinus(t);
    assert "-" + NatToString(m) + rest == "-" + t;
  }

  /** After a minus sign, the number read is the negated digits that follow. */
  lemma ParseMinus(t: string)
    ensures ParseNumber("-" + t) == match ParseDigits(t)
      case None => None
      case Some((m, rest)) => Some((-(m as int), rest))
  {
    assert ("-" + t)[1..] == t;
  }

  /** The first character of a serialised value opens a value: it never closes or separates one. */
  lemma SerializeStart(j: Json)
    ensures |Serialize(j)| > 0
    ensures Serialize(j)[0] !in {',', ']', '}', ':'}
  {
    match j
    case JNumber(n) =>
      if n >= 0 {
        assert IsDigit(NatToString(n)[0]);
      }
    case _ =>
  }

  lemma ParseLiteralSerialize(j: Json, rest: string)
    requires j.JNull? || j.JBool?
    ensures ParseValue(Serialize(j) + rest) == Some((j, rest))
  {
    var s := Serialize(j) + rest;
    if j.JNull? {
      assert StartsWith(s, "null") && s[4..] == rest;
    } else if j.b {
      assert StartsWith(s, "true") && s[4..] == rest;
    } else {
      assert StartsWith(s, "false") && s[5..] == rest;
    }
  }

  lemma ParseNumberValueSerialize(n: int, rest: string)
    requires Delimited(rest)
    ensures ParseValue(Serialize(JNumber(n)) + rest) == Some((JNumber(n), rest))
  {
    var s := Serialize(JNumber(n)) + rest;
    assert s == IntToString(n) + rest;
    assert s[0] == '-' || IsDigit(s[0]) by {
      if n >= 0 { assert IsDigit(NatToString(n)[0]); }
    }
    ParseNumberSerialize(n, rest);
  }

  lemma ParseStringValueSerialize(t: string, rest: string)
    ensures ParseValue(Serialize(JString(t)) + rest) == Some((JString(t), rest))
  {
    var s := Serialize(JString(t)) + rest;
    assert s[0] == '"';
    assert s[1..] == Escape(t) + "\"" + rest;
    ParseStringBodyEscape(t, rest);
  }

  /** How a value that opens a non-empty array is read. */
  lemma ParseArrayOpen(s: string)
    requires |s| >= 2 && s[0] == '[' && s[1] != ']'
    ensures ParseValue(s)
         == match ParseItems(s[1..]) case None => None case Some((xs, rest)) => Some((JArray(xs), rest))
  {
  }

  /** How a value that opens a non-empty object is read. */
  lemma ParseObjectOpen(s: string)
    requires |s| >= 2 && s[0] == '{' && s[1] != '}'
    ensures ParseValue(s)
         == match ParseFields(s[1..]) case None => None case Some((fs, rest)) => Some((JObject(fs), rest))
  {
  }

  /** Splitting a bracketed text after its opening character. */
  lemma Enclosed(open: char, body: string, close: char, rest: string)
    ensures var s := [open] + body + [close] + rest;
      && |s| > 1 && s[0] == open && s[1..] == body + [close] + rest
      && (|body| > 0 ==> s[1] == body[0])
      && (|body| == 0 ==> s[1] == close && s[2..] == rest)
  {
  }

  lemma SerializeFieldsStart(fs: seq<Field>)
    requires |fs| > 0
    ensures |SerializeFields(fs)| > 0 && SerializeFields(fs)[0] == '"'
  {
    assert SerializeField(fs[0])[0] == '"';
  }

  /** An array is read back once its elements are. */
  lemma ParseArrayStep(items: seq<Json>, rest: string)
    requires |items| > 0 ==> ParseItems(SerializeItems(items) + "]" + rest) == Some((items, rest))
    ensures ParseValue(Serialize(JArray(items)) + rest) == Some((JArray(items), rest))
  {
    var body := SerializeItems(items);
    assert Serialize(JArray(items)) + rest == ['['] + body + [']'] + rest;
    Enclosed('[', body, ']', rest);
    if |items| > 0 {
      SerializeStart(items[0]);
      assert body[0] == Serialize(items[0])[0];
      ParseArrayOpen(['['] + body + [']'] + rest);
    }
  }

  /** An object is read back once its members are. */
  lemma ParseObjectStep(fields: seq<Field>, rest: string)
    requires |fields| > 0 ==> ParseFields(SerializeFields(fields) + "}" + rest) == Some((fields, rest))
    ensures ParseValue(Serialize(JObject(fields)) + rest) == Some((JObject(fields), rest))
  {
    var body := SerializeFields(fields);
    assert Serialize(JObject(fields)) + rest == ['{'] + body + ['}'] + rest;
    Enclosed('{', body, '}', rest);
    if |fields| > 0 {
      SerializeFieldsStart(fields);
      ParseObjectOpen(['{'] + body + ['}'] + rest);
    }
  }

  /** Reading a serialised value, followed by anything that may follow a value, gives the value back. */
  lemma {:induction false} ParseValueSerialize(j: Json, rest: string)
    requires Delimited(rest)
    ensures ParseValue(Serialize(j) + rest) == Some((j, rest))
    decreases j, 0
  {
    match j
    case JNull => ParseLiteralSerialize(j, rest);
    case JBool(_) => ParseLiteralSerialize(j, rest);
    case JNumber(n) => ParseNumberValueSerialize(n, rest);
    case JString(t) => ParseStringValueSerialize(t, rest);
    case JArray(items) =>
      if |items| > 0 {
        ParseItemsSerialize(items, rest);
      }
      ParseArrayStep(items, rest);
    case JObject(fields) =>
      if |fields| > 0 {
        ParseFieldsSerialize(fields, rest);
      }
      ParseObjectStep(fields, rest);
  }

  lemma {:induction false} ParseItemsSerialize(xs: seq<Json>, rest: string)
    requires |xs| > 0
    ensures ParseItems(SerializeItems(xs) + "]" + rest) == Some((xs, rest))
    decreases xs, 1
  {
    var s := SerializeItems(xs) + "]" + rest;
    if |xs| == 1 {
      assert s == Serialize(xs[0]) + ("]" + rest);
      ParseValueSerialize(xs[0], "]" + rest);
      assert ("]" + rest)[1..] == rest;
      assert [xs[0]] == xs;
    } else {
      var tail := SerializeItems(xs[1..]) + "]" + rest;
      assert s == Serialize(xs[0]) + ("," + tail);
      ParseValueSerialize(xs[0], "," + tail);
      assert ("," + tail)[1..] == tail;
      ParseItemsSerialize(xs[1..], rest);
      assert [xs[0]] + xs[1..] == xs;
    }
  }

  /** The key and colon of a serialised member are read back, leaving its value and what follows. */
  lemma ParseMemberKey(f: Field, after: string)
    ensures var s := SerializeField(f) + after;
      && s[0] == '"'
      && ParseStringBody(s[1..]) == Some((f.key, ":" + Serialize(f.value) + after))
  {
    var s := SerializeField(f) + after;
    var tail := ":" + Serialize(f.value) + after;
    assert s == "\"" + Escape(f.key) + "\"" + tail;
    assert s[1..] == Escape(f.key) + "\"" + tail;
    ParseStringBodyEscape(f.key, tail);
  }

  /** A member followed by `after` is read as that member, leaving `after`. */
  lemma ParseMemberSerialize(f: Field, after: string)
    requires Delimited(after)
    ensures var s := SerializeField(f) + after;
      && s[0] == '"'
      && ParseStringBody(s[1..]) == Some((f.key, ":" + Serialize(f.value) + after))
      && (":" + Serialize(f.value) + after)[1..] == Serialize(f.value) + after
      && ParseValue(Serialize(f.value) + after) == Some((f.value, after))
    decreases f, 0
  {
    ParseMemberKey(f, after);
    var v := Serialize(f.value) + after;
    assert (":" + Serialize(f.value) + after)[1..] == v by {
      assert ":" + Serialize(f.value) + after == ":" + v;
    }
    ParseValueSerialize(f.value, after);
  }

  /** How a member list is read, given how its first member's key and value are read. */
  lemma ParseFieldsStep(s: string, key: string, afterKey: string, v: Json, after: string)
    requires |s| > 0 && s[0] == '"'
    requires ParseStringBody(s[1..]) == Some((key, afterKey))
    requires |afterKey| > 0 && afterKey[0] == ':'
    requires ParseValue(afterKey[1..]) == Some((v, after))
    requires |after| > 0 && (after[0] == '}' || after[0] == ',')
    ensures after[0] == '}' ==> ParseFields(s) == Some(([Field(key, v)], after[1..]))
    ensures after[0] == ',' ==>
              ParseFields(s)
              == match ParseFields(after[1..]) case None => None case Some((fs, rest)) => Some(([Field(key, v)] + fs, rest))
  {
  }

  lemma ParseLastFieldSerialize(f: Field, rest: string)
    ensures ParseFields(SerializeFields([f]) + "}" + rest) == Some(([f], rest))
    decreases f, 1
  {
    var s := SerializeFields([f]) + "}" + rest;
    var after := "}" + rest;
    assert s == SerializeField(f) + after;
    ParseMemberSerialize(f, after);
    ParseFieldsStep(s, f.key, ":" + Serialize(f.value) + after, f.value, after);
  }

  lemma ParseNextFieldSerialize(fs: seq<Field>, rest: string)
    requires |fs| > 1
    requires ParseFields(SerializeFields(fs[1..]) + "}" + rest) == Some((fs[1..], rest))
    ensures ParseFields(SerializeFields(fs) + "}" + rest) == Some((fs, rest))
    decreases fs, 0
  {
    var f := fs[0];
    var s := SerializeFields(fs) + "}" + rest;
    var more := SerializeFields(fs[1..]) + "}" + rest;
    var after := "," + more;
    SerializeFieldsNext(fs, rest);
    ParseMemberSerialize(f, after);
    ParseFieldsStep(s, f.key, ":" + Serialize(f.value) + after, f.value, after);
    assert after[1..] == more;
    assert [f] + fs[1..] == fs;
  }

  /** A list of two or more members is the first member, a comma, and the others. */
  lemma SerializeFieldsNext(fs: seq<Field>, rest: string)
    requires |fs| > 1
    ensures SerializeFields(fs) + "}" + rest == SerializeField(fs[0]) + ("," + (SerializeFields(fs[1..]) + "}" + rest))
  {
    var first := SerializeField(fs[0]);
    var others := SerializeFields(fs[1..]);
    assert SerializeFields(fs) == first + "," + others;
    Regroup(first, ",", others, "}", rest);
  }

  lemma Regroup(a: string, b: string, c: string, d: string, e: string)
    ensures a + b + c + d + e == a + (b + (c + d + e))
  {
  }

  lemma {:induction false} ParseFieldsSerialize(fs: seq<Field>, rest: string)
    requires |fs| > 0
    ensures ParseFields(SerializeFields(fs) + "}" + rest) == Some((fs, rest))
    decreases fs, 1
  {
    if |fs| == 1 {
      assert fs == [fs[0]];
      ParseLastFieldSerialize(fs[0], rest);
    } else {
      ParseFieldsSerialize(fs[1..], rest);
      ParseNextFieldSerialize(fs, rest);
    }
  }

  /** Round trip: a serialised document reads back as exactly the value written. */
  lemma ParseSerialize(j: Json)
    ensures Parse(Serialize(j)) == Some(j)
  {
    ParseValueSerialize(j, "");
    assert Serialize(j) + "" == Serialize(j);
  }
}
