/** UTF-8 as section 3 of RFC 3629 defines it: byte counts, and why comparing bytes compares characters. */
module Utf8 {

  /** number_of_utf8_bytes. */
  function NumberOfBytes(c: char): nat
  {
    var code := c as int;
    if code <= 0x7F then 1
    else if code <= 0x7FF then 2
    else if code <= 0xFFFF then 3
    else 4
  }

  function Encode(c: char): seq<int>
  {
    var code := c as int;
    if code <= 0x7F then [code]
    else if code <= 0x7FF then [0xC0 + code / 64, 0x80 + code % 64]
    else if code <= 0xFFFF then [0xE0 + code / 4096, 0x80 + code / 64 % 64, 0x80 + code % 64]
    else [0xF0 + code / 262144, 0x80 + code / 4096 % 64, 0x80 + code / 64 % 64, 0x80 + code % 64]
  }

  function EncodeAll(s: string): seq<int>
  {
    if s == "" then [] else Encode(s[0]) + EncodeAll(s[1..])
  }

  function ByteLength(s: string): (n: nat)
    ensures |s| <= n
  {
    if s == "" then 0 else NumberOfBytes(s[0]) + ByteLength(s[1..])
  }

  lemma {:induction false} ByteLengthIsEncodedLength(s: string)
    ensures ByteLength(s) == |EncodeAll(s)|
  {
    if s != "" { ByteLengthIsEncodedLength(s[1..]); }
  }

  lemma {:induction false} ByteLengthAppend(a: string, b: string)
    ensures ByteLength(a + b) == ByteLength(a) + ByteLength(b)
  {
    if a == "" {
      assert a + b == b;
    } else {
      ByteLengthAppend(a[1..], b);
      assert (a + b)[1..] == a[1..] + b;
    }
  }

  /** The code of the character whose encoding starts the byte string. */
  function FirstCode(bytes: seq<int>): int
    requires bytes != []
  {
    if bytes[0] < 0x80 then bytes[0]
    else if bytes[0] < 0xE0 && |bytes| >= 2 then (bytes[0] - 0xC0) * 64 + bytes[1] - 0x80
    else if bytes[0] < 0xF0 && |bytes| >= 3 then ((bytes[0] - 0xE0) * 64 + bytes[1] - 0x80) * 64 + bytes[2] - 0x80
    else if |bytes| >= 4 then
      (((bytes[0] - 0xF0) * 64 + bytes[1] - 0x80) * 64 + bytes[2] - 0x80) * 64 + bytes[3] - 0x80
    else 0
  }

  lemma FirstCodeIsRead(c: char, rest: seq<int>)
    ensures FirstCode(Encode(c) + rest) == c as int
  {
    var code := c as int;
    var bytes := Encode(c) + rest;
    assert forall i :: 0 <= i < |Encode(c)| ==> bytes[i] == Encode(c)[i];
    assert code / 64 / 64 == code / 4096 && code / 4096 / 64 == code / 262144;
  }

  /** Equal bytes are equal characters, so words may be compared either way. */
  lemma {:induction false} EncodingIsInjective(a: string, b: string)
    requires EncodeAll(a) == EncodeAll(b)
    ensures a == b
  {
    if a != "" && b != "" {
      FirstCodeIsRead(a[0], EncodeAll(a[1..]));
      FirstCodeIsRead(b[0], EncodeAll(b[1..]));
      assert a[0] == b[0];
      assert EncodeAll(a[1..]) == EncodeAll(a)[|Encode(a[0])|..];
      assert EncodeAll(b[1..]) == EncodeAll(b)[|Encode(b[0])|..];
      EncodingIsInjective(a[1..], b[1..]);
    }
  }
}
