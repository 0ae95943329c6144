/**
 * UTF-8 decoding as done by Rust's `String::from_utf8`: a byte sequence is
 * accepted exactly when it is a concatenation of the well-formed code-unit
 * sequences of Table 3-7 in section 3.9 of the Unicode Standard (no overlong
 * forms, no surrogates, nothing above U+10FFFF).
 */
module Utf8 {
  import opened Wrappers

  type Byte = b: int | 0 <= b < 256

  /** The UTF-8 encoding of one scalar value. */
  function EncodeChar(c: char): (bs: seq<Byte>)
    ensures 1 <= |bs| <= 4
  {
    var n := c as int;
    if n < 0x80 then [n]
    else if n < 0x800 then [0xC0 + n / 64, 0x80 + n % 64]
    else if n < 0x1_0000 then [0xE0 + n / 64 / 64, 0x80 + n / 64 % 64, 0x80 + n % 64]
    else [0xF0 + n / 64 / 64 / 64, 0x80 + n / 64 / 64 % 64, 0x80 + n / 64 % 64, 0x80 + n % 64]
  }

  function Encode(s: string): seq<Byte>
  {
    if s == [] then [] else EncodeChar(s[0]) + Encode(s[1..])
  }

  predicate InRange(b: Byte, lo: int, hi: int) { lo <= b <= hi }

  /** The six payload bits of a continuation byte. */
  function Payload(b: Byte): int { b as int - 0x80 }

  /** Table 3-7: the allowed range of the second byte after a three-byte lead. */
  function Second3Lo(b0: int): int { if b0 == 0xE0 then 0xA0 else 0x80 }
  function Second3Hi(b0: int): int { if b0 == 0xED then 0x9F else 0xBF }

  /** Table 3-7: the allowed range of the second byte after a four-byte lead. */
  function Second4Lo(b0: int): int { if b0 == 0xF0 then 0x90 else 0x80 }
  function Second4Hi(b0: int): int { if b0 == 0xF4 then 0x8F else 0xBF }

  /**
   * The scalar value encoded by the well-formed code-unit sequence at the
   * start of `bs`, with the length of that sequence; None when `bs` does not
   * start with one.
   */
  function DecodeFirst(bs: seq<Byte>): (r: Option<(char, nat)>)
    ensures r.Some? ==> 1 <= r.value.1 <= |bs|
  {
    if |bs| == 0 then None
    else
      var b0 := bs[0] as int;
      if b0 < 0x80 then Some((b0 as char, 1))
      else if 0xC2 <= b0 <= 0xDF then
        if |bs| >= 2 && InRange(bs[1], 0x80, 0xBF) then
          Some((((b0 - 0xC0) * 64 + Payload(bs[1])) as char, 2))
        else None
      else if 0xE0 <= b0 <= 0xEF then
        if |bs| >= 3 && InRange(bs[1], Second3Lo(b0), Second3Hi(b0)) && InRange(bs[2], 0x80, 0xBF) then
          Some(((((b0 - 0xE0) * 64 + Payload(bs[1])) * 64 + Payload(bs[2])) as char, 3))
        else None
      else if 0xF0 <= b0 <= 0xF4 then
        if |bs| >= 4 && InRange(bs[1], Second4Lo(b0), Second4Hi(b0))
           && InRange(bs[2], 0x80, 0xBF) && InRange(bs[3], 0x80, 0xBF) then
          Some((((((b0 - 0xF0) * 64 + Payload(bs[1])) * 64 + Payload(bs[2])) * 64 + Payload(bs[3])) as char, 4))
        else None
      else None
  }

  /** `String::from_utf8`: the decoded text, or None for ill-formed input. */
  function Decode(bs: seq<Byte>): (r: Option<string>)
    ensures r.Some? ==> Encode(r.value) == bs
    decreases |bs|
  {
    if bs == [] then Some([])
    else
      match DecodeFirst(bs)
      case None => None
      case Some((c, n)) =>
        match Decode(bs[n..])
        case None => None
        case Some(rest) =>
          DecodeFirstIsEncoding(bs);
          assert ([c] + rest)[1..] == rest;
          assert bs == bs[..n] + bs[n..];
          Some([c] + rest)
  }

  /** What DecodeFirst accepts is exactly the encoding of the scalar it returns. */
  lemma DecodeFirstIsEncoding(bs: seq<Byte>)
    requires DecodeFirst(bs).Some?
    ensures EncodeChar(DecodeFirst(bs).value.0) == bs[..DecodeFirst(bs).value.1]
  {
    var b0 := bs[0] as int;
    var c := DecodeFirst(bs).value.0;
    var n := c as int;
    if b0 < 0x80 {
    } else if b0 <= 0xDF {
      assert n == (b0 - 0xC0) * 64 + Payload(bs[1]);
      assert n / 64 == b0 - 0xC0 && n % 64 == Payload(bs[1]);
    } else if b0 <= 0xEF {
      var q := (b0 - 0xE0) * 64 + Payload(bs[1]);
      assert n == q * 64 + Payload(bs[2]);
      assert n / 64 == q && n % 64 == Payload(bs[2]);
      assert q / 64 == b0 - 0xE0 && q % 64 == Payload(bs[1]);
      assert 0x800 <= n < 0x1_0000;
    } else {
      var q2 := (b0 - 0xF0) * 64 + Payload(bs[1]);
      var q1 := q2 * 64 + Payload(bs[2]);
      assert n == q1 * 64 + Payload(bs[3]);
      assert n / 64 == q1 && n % 64 == Payload(bs[3]);
      assert q1 / 64 == q2 && q1 % 64 == Payload(bs[2]);
      assert q2 / 64 == b0 - 0xF0 && q2 % 64 == Payload(bs[1]);
      assert 0x1_0000 <= n;
    }
  }

  /** DecodeFirst reads back the first scalar of an encoding, whatever follows it. */
  lemma DecodeFirstEncodeChar(c: char, rest: seq<Byte>)
    ensures DecodeFirst(EncodeChar(c) + rest) == Some((c, |EncodeChar(c)|))
  {
    var n := c as int;
    if n < 0x80 {
    } else if n < 0x800 {
      DecodeFirstTwo(c, rest);
    } else if n < 0x1_0000 {
      DecodeFirstThree(c, rest);
    } else {
      DecodeFirstFour(c, rest);
    }
  }

  lemma DecodeFirstTwo(c: char, rest: seq<Byte>)
    requires 0x80 <= c as int < 0x800
    ensures DecodeFirst(EncodeChar(c) + rest) == Some((c, 2))
  {
    var n := c as int;
    var bs := EncodeChar(c) + rest;
    assert bs[0] == 0xC0 + n / 64 && bs[1] == 0x80 + n % 64;
    assert (bs[0] as int - 0xC0) * 64 + Payload(bs[1]) == n;
  }

  lemma DecodeFirstThree(c: char, rest: seq<Byte>)
    requires 0x800 <= c as int < 0x1_0000
    ensures DecodeFirst(EncodeChar(c) + rest) == Some((c, 3))
  {
    var n := c as int;
    var bs := EncodeChar(c) + rest;
    var q := n / 64;
    assert bs[0] == 0xE0 + q / 64 && bs[1] == 0x80 + q % 64 && bs[2] == 0x80 + n % 64;
    assert (bs[0] as int - 0xE0) * 64 + Payload(bs[1]) == q;
    assert q * 64 + Payload(bs[2]) == n;
  }

  lemma DecodeFirstFour(c: char, rest: seq<Byte>)
    requires 0x1_0000 <= c as int
    ensures DecodeFirst(EncodeChar(c) + rest) == Some((c, 4))
  {
    var n := c as int;
    var bs := EncodeChar(c) + rest;
    var q1 := n / 64;
    var q2 := q1 / 64;
    assert bs[0] == 0xF0 + q2 / 64 && bs[1] == 0x80 + q2 % 64;
    assert bs[2] == 0x80 + q1 % 64 && bs[3] == 0x80 + n % 64;
    assert (bs[0] as int - 0xF0) * 64 + Payload(bs[1]) == q2;
    assert q2 * 64 + Payload(bs[2]) == q1;
    assert q1 * 64 + Payload(bs[3]) == n;
  }

  /** Decoding undoes encoding: every string survives the round trip. */
  lemma {:induction false} DecodeEncode(s: string)
    ensures Decode(Encode(s)) == Some(s)
  {
    if s != [] {
      var head := EncodeChar(s[0]);
      var bs := Encode(s);
      assert bs == head + Encode(s[1..]);
      DecodeFirstEncodeChar(s[0], Encode(s[1..]));
      assert bs[|head|..] == Encode(s[1..]);
      DecodeEncode(s[1..]);
      assert [s[0]] + s[1..] == s;
    }
  }

  /** Overlong forms, surrogates and stray continuation bytes are refused. */
  lemma IllFormedExamples()
    ensures Decode([0xC0, 0x80]) == None
    ensures Decode([0xED, 0xA0, 0x80]) == None
    ensures Decode([0x80]) == None
    ensures Decode([0x7A, 0xFF]) == None
  {
    assert DecodeFirst([0x7A, 0xFF]) == Some(('z', 1));
    assert [0x7A, 0xFF][1..] == [0xFF];
  }
}
