/**
  Bytes and the UTF-8 encoding used to turn a text payload into bytes.

  A byte is an unsigned octet. Java's `byte` is the same eight bits read as a
  signed number; the tests only look at values below 128, where both readings agree.
*/
module Utf8 {
  import opened Wrappers

  type byte = x: int | 0 <= x < 256

  /** True for code points that are Unicode scalar values, i.e. what a Dafny `char` holds. */
  predicate IsScalar(cp: int) {
    (0 <= cp < 0xD800) || (0xE000 <= cp < 0x11_0000)
  }

  predicate IsContinuation(b: byte) {
    0x80 <= b < 0xC0
  }

  /** The six payload bits a continuation byte carries. */
  function Payload6(b: byte): int
    requires IsContinuation(b)
  {
    b as int - 0x80
  }

  /** The one to four bytes of one character. */
  function EncodeChar(c: char): (bs: seq<byte>)
    ensures 1 <= |bs| <= 4
    ensures |bs| == 1 <==> (c as int) < 0x80
    ensures forall k :: 1 <= k < |bs| ==> IsContinuation(bs[k])
  {
    var cp := c as int;
    if cp < 0x80 then
      [cp as byte]
    else if cp < 0x800 then
      [(0xC0 + cp / 64) as byte, (0x80 + cp % 64) as byte]
    else if cp < 0x1_0000 then
      [(0xE0 + cp / 4096) as byte, (0x80 + (cp / 64) % 64) as byte, (0x80 + cp % 64) as byte]
    else
      [(0xF0 + cp / 262144) as byte, (0x80 + (cp / 4096) % 64) as byte,
       (0x80 + (cp / 64) % 64) as byte, (0x80 + cp % 64) as byte]
  }

  /** The UTF-8 encoding of a string: its characters' encodings, in order. */
  function Encode(s: string): (bs: seq<byte>)
    ensures |s| <= |bs| <= 4 * |s|
  {
    if |s| == 0 then [] else EncodeChar(s[0]) + Encode(s[1..])
  }

  /**
    Decodes the character at the front of `bs`, returning it with the number
    of bytes it used. Overlong forms, surrogates and code points beyond
    U+10FFFF are rejected, so every byte sequence has at most one reading.
  */
  function DecodeChar(bs: seq<byte>): (r: Option<(char, nat)>)
    ensures r.Some? ==> 1 <= r.value.1 <= |bs| && r.value.1 <= 4
  {
    if |bs| == 0 then None
    else
      var b0 := bs[0] as int;
      if b0 < 0x80 then Some((b0 as char, 1))
      else if 0xC2 <= b0 < 0xE0 then
        if |bs| < 2 || !IsContinuation(bs[1]) then None
        else Some((((b0 - 0xC0) * 64 + Payload6(bs[1])) as char, 2))
      else if 0xE0 <= b0 < 0xF0 then
        if |bs| < 3 || !IsContinuation(bs[1]) || !IsContinuation(bs[2]) then None
        else
          var cp := (b0 - 0xE0) * 4096 + Payload6(bs[1]) * 64 + Payload6(bs[2]);
          if cp < 0x800 || !IsScalar(cp) then None else Some((cp as char, 3))
      else if 0xF0 <= b0 < 0xF5 then
        if |bs| < 4 || !IsContinuation(bs[1]) || !IsContinuation(bs[2]) || !IsContinuation(bs[3]) then None
        else
          var cp := (b0 - 0xF0) * 262144 + Payload6(bs[1]) * 4096 + Payload6(bs[2]) * 64 + Payload6(bs[3]);
          if cp < 0x1_0000 || !IsScalar(cp) then None else Some((cp as char, 4))
      else None
  }

  /** Decodes a whole byte sequence; fails on any malformed or truncated character. */
  function Decode(bs: seq<byte>): Option<string>
    decreases |bs|
  {
    if |bs| == 0 then Some([])
    else
      match DecodeChar(bs)
      case None => None
      case Some((c, n)) =>
        match Decode(bs[n..])
        case None => None
        case Some(rest) => Some([c] + rest)
  }

  lemma DecodeEncodeTwo(c: char, tail: seq<byte>)
    requires 0x80 <= c as int < 0x800
    ensures DecodeChar(EncodeChar(c) + tail) == Some((c, 2))
  {
    var bs := EncodeChar(c) + tail;
    var cp := c as int;
    assert bs[0] as int == 0xC0 + cp / 64 && bs[1] as int == 0x80 + cp % 64;
  }

  lemma DecodeEncodeThree(c: char, tail: seq<byte>)
    requires 0x800 <= c as int < 0x1_0000
    ensures DecodeChar(EncodeChar(c) + tail) == Some((c, 3))
  {
    var bs := EncodeChar(c) + tail;
    var cp := c as int;
    assert bs[0] as int == 0xE0 + cp / 4096;
    assert bs[1] as int == 0x80 + (cp / 64) % 64;
    assert bs[2] as int == 0x80 + cp % 64;
    assert (cp / 4096) * 64 + (cp / 64) % 64 == cp / 64;
  }

  lemma DecodeEncodeFour(c: char, tail: seq<byte>)
    requires 0x1_0000 <= c as int
    ensures DecodeChar(EncodeChar(c) + tail) == Some((c, 4))
  {
    var bs := EncodeChar(c) + tail;
    var cp := c as int;
    assert bs[0] as int == 0xF0 + cp / 262144;
    assert bs[1] as int == 0x80 + (cp / 4096) % 64;
    assert bs[2] as int == 0x80 + (cp / 64) % 64;
    assert bs[3] as int == 0x80 + cp % 64;
    assert (cp / 262144) * 64 + (cp / 4096) % 64 == cp / 4096;
    assert (cp / 4096) * 64 + (cp / 64) % 64 == cp / 64;
  }

  /** Decoding the front of one character's encoding gives that character back. */
  lemma DecodeEncodeChar(c: char, tail: seq<byte>)
    ensures DecodeChar(EncodeChar(c) + tail) == Some((c, |EncodeChar(c)|))
  {
    var cp := c as int;
    if cp < 0x80 {
    } else if cp < 0x800 {
      DecodeEncodeTwo(c, tail);
    } else if cp < 0x1_0000 {
      DecodeEncodeThree(c, tail);
    } else {
      DecodeEncodeFour(c, tail);
    }
  }

  /** Round trip: the bytes written for a text payload decode back to the text. */
  lemma {:induction false} DecodeEncode(s: string)
    ensures Decode(Encode(s)) == Some(s)
  {
    if |s| > 0 {
      var head := EncodeChar(s[0]);
      var bs := Encode(s);
      assert bs == head + Encode(s[1..]);
      DecodeEncodeChar(s[0], Encode(s[1..]));
      assert bs[|head|..] == Encode(s[1..]);
      DecodeEncode(s[1..]);
      assert [s[0]] + s[1..] == s;
    }
  }

  lemma EncodeDecodeTwo(bs: seq<byte>)
    requires DecodeChar(bs).Some? && 0xC0 <= bs[0] < 0xE0
    ensures EncodeChar(DecodeChar(bs).value.0) == bs[..2]
  {
    var b0 := bs[0] as int;
    var cp := DecodeChar(bs).value.0 as int;
    var p1 := Payload6(bs[1]);
    assert cp == (b0 - 0xC0) * 64 + p1;
    assert cp / 64 == b0 - 0xC0 && cp % 64 == p1;
  }

  lemma EncodeDecodeThree(bs: seq<byte>)
    requires DecodeChar(bs).Some? && 0xE0 <= bs[0] < 0xF0
    ensures EncodeChar(DecodeChar(bs).value.0) == bs[..3]
  {
    var b0 := bs[0] as int;
    var cp := DecodeChar(bs).value.0 as int;
    var p1, p2 := Payload6(bs[1]), Payload6(bs[2]);
    assert cp == (b0 - 0xE0) * 4096 + p1 * 64 + p2;
    assert cp / 64 == (b0 - 0xE0) * 64 + p1 && cp % 64 == p2;
    assert cp / 4096 == b0 - 0xE0 && (cp / 64) % 64 == p1;
  }

  lemma EncodeDecodeFour(bs: seq<byte>)
    requires DecodeChar(bs).Some? && 0xF0 <= bs[0]
    ensures EncodeChar(DecodeChar(bs).value.0) == bs[..4]
  {
    var b0 := bs[0] as int;
    var cp := DecodeChar(bs).value.0 as int;
    var p1, p2, p3 := Payload6(bs[1]), Payload6(bs[2]), Payload6(bs[3]);
    assert cp == (b0 - 0xF0) * 262144 + p1 * 4096 + p2 * 64 + p3;
    assert cp / 64 == (b0 - 0xF0) * 4096 + p1 * 64 + p2 && cp % 64 == p3;
    assert cp / 4096 == (b0 - 0xF0) * 64 + p1 && (cp / 64) % 64 == p2;
    assert cp / 262144 == b0 - 0xF0 && (cp / 4096) % 64 == p1;
  }

  /** A character decoded from the front of `bs` re-encodes to exactly the bytes it used. */
  lemma EncodeDecodeChar(bs: seq<byte>)
    requires DecodeChar(bs).Some?
    ensures EncodeChar(DecodeChar(bs).value.0) == bs[..DecodeChar(bs).value.1]
  {
    if bs[0] < 0x80 {
    } else if bs[0] < 0xE0 {
      EncodeDecodeTwo(bs);
    } else if bs[0] < 0xF0 {
      EncodeDecodeThree(bs);
    } else {
      EncodeDecodeFour(bs);
    }
  }

  /** Decoding is exact: a successful decode re-encodes to the very bytes it read. */
  lemma {:induction false} EncodeDecode(bs: seq<byte>)
    requires Decode(bs).Some?
    ensures Encode(Decode(bs).value) == bs
    decreases |bs|
  {
    if |bs| > 0 {
      DecodeFront(bs);
      var c := DecodeChar(bs).value.0;
      var n := DecodeChar(bs).value.1;
      var tail := Decode(bs[n..]).value;
      EncodeDecodeChar(bs);
      EncodeDecode(bs[n..]);
      EncodeJoin(bs, n, c, tail);
    }
  }

  /** A successful decoding is the first character followed by the decoding of the bytes after it. */
  lemma DecodeFront(bs: seq<byte>)
    requires |bs| > 0 && Decode(bs).Some?
    ensures DecodeChar(bs).Some?
    ensures Decode(bs[DecodeChar(bs).value.1..]).Some?
    ensures Decode(bs).value == [DecodeChar(bs).value.0] + Decode(bs[DecodeChar(bs).value.1..]).value
  {
  }

  /** The bytes of a character followed by the bytes of a string are the encoding of both together. */
  lemma EncodeJoin(bs: seq<byte>, n: nat, c: char, tail: string)
    requires n <= |bs| && EncodeChar(c) == bs[..n] && Encode(tail) == bs[n..]
    ensures Encode([c] + tail) == bs
  {
    EncodeFront(c, tail);
    assert bs == bs[..n] + bs[n..];
  }

  /** Encoding works one character at a time, from the front. */
  lemma EncodeFront(c: char, s: string)
    ensures Encode([c] + s) == EncodeChar(c) + Encode(s)
  {
    assert ([c] + s)[1..] == s;
  }

  /** Text made only of ASCII characters. */
  predicate IsAscii(s: string) {
    forall k :: 0 <= k < |s| ==> (s[k] as int) < 0x80
  }

  /** An ASCII string encodes to one byte per character, each the character's code. */
  lemma {:induction false} EncodeAscii(s: string)
    requires IsAscii(s)
    ensures |Encode(s)| == |s|
    ensures forall k :: 0 <= k < |s| ==> Encode(s)[k] == s[k] as int
  {
    if |s| > 0 {
      assert IsAscii(s[1..]) by {
        forall k | 0 <= k < |s[1..]| ensures (s[1..][k] as int) < 0x80 {
          assert s[1..][k] == s[k + 1];
        }
      }
      EncodeAscii(s[1..]);
    }
  }
}
