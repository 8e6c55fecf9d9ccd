/**
 UTF-8, as a Rust `String` stores its text: what the hash chain hashes and what the CBOR
 preflight demands of every text chunk.
 */
module Utf8 {
  import opened Wrappers

  function EncodeChar(c: char): (bs: bytes)
    ensures 1 <= |bs| <= 4
  {
    var n := c as int;
    if n < 0x80 then [n]
    else if n < 0x800 then [0xC0 + n / 64, 0x80 + n % 64]
    else if n < 0x10000 then [0xE0 + n / 4096, 0x80 + n / 64 % 64, 0x80 + n % 64]
    else [0xF0 + n / 262144, 0x80 + n / 4096 % 64, 0x80 + n / 64 % 64, 0x80 + n % 64]
  }

  function Encode(s: string): bytes {
    if s == [] then [] else EncodeChar(s[0]) + Encode(s[1..])
  }

  predicate Continuation(b: byte) {
    0x80 <= b < 0xC0
  }

  /** The bytes the well-formed sequence at the front takes (table 3-7 of the Unicode Standard); 0 if there is none. */
  function SequenceLength(bs: bytes): nat {
    if bs == [] then 0
    else if bs[0] < 0x80 then 1
    else if |bs| < 2 || !Continuation(bs[1]) then 0
    else if 0xC2 <= bs[0] < 0xE0 then 2
    else if |bs| < 3 || !Continuation(bs[2]) then 0
    else if 0xE0 <= bs[0] < 0xF0 then
      if (bs[0] == 0xE0 && bs[1] < 0xA0) || (bs[0] == 0xED && bs[1] >= 0xA0) then 0 else 3
    else if |bs| < 4 || !Continuation(bs[3]) then 0
    else if 0xF0 <= bs[0] < 0xF5 then
      if (bs[0] == 0xF0 && bs[1] < 0x90) || (bs[0] == 0xF4 && bs[1] >= 0x90) then 0 else 4
    else 0
  }

  lemma SequenceFits(bs: bytes)
    ensures SequenceLength(bs) <= |bs|
  {
  }

  predicate Valid(bs: bytes)
    decreases |bs|
  {
    bs == [] || (SequenceFits(bs); SequenceLength(bs) != 0 && Valid(bs[SequenceLength(bs)..]))
  }

  lemma EncodeCharInjective(c: char, d: char, s: bytes, t: bytes)
    requires EncodeChar(c) + s == EncodeChar(d) + t
    ensures c == d && s == t
  {
    var left, right := EncodeChar(c) + s, EncodeChar(d) + t;
    assert left[0] == EncodeChar(c)[0] && right[0] == EncodeChar(d)[0];
    assert |EncodeChar(c)| == |EncodeChar(d)|;
    assert left[..|EncodeChar(c)|] == EncodeChar(c) && right[..|EncodeChar(c)|] == EncodeChar(d);
    CharDetermined(c, d);
    assert s == left[|EncodeChar(c)|..] && t == right[|EncodeChar(d)|..];
  }

  lemma CharDetermined(c: char, d: char)
    requires EncodeChar(c) == EncodeChar(d)
    ensures c == d
  {
    var m, n := c as int, d as int;
    assert m / 64 / 64 == m / 4096 && m / 4096 / 64 == m / 262144;
    assert n / 64 / 64 == n / 4096 && n / 4096 / 64 == n / 262144;
  }

  lemma {:induction false} EncodeInjective(a: string, b: string)
    requires Encode(a) == Encode(b)
    ensures a == b
    decreases |a|
  {
    if a != [] && b != [] {
      EncodeCharInjective(a[0], b[0], Encode(a[1..]), Encode(b[1..]));
      EncodeInjective(a[1..], b[1..]);
      assert a == [a[0]] + a[1..] && b == [b[0]] + b[1..];
    }
  }

  lemma SequenceOfChar(c: char, rest: bytes)
    ensures SequenceLength(EncodeChar(c) + rest) == |EncodeChar(c)|
  {
    var n, bs := c as int, EncodeChar(c) + rest;
    assert bs[0] == EncodeChar(c)[0];
  }

  lemma {:induction false} EncodingIsValid(s: string)
    ensures Valid(Encode(s))
    decreases |s|
  {
    if s != [] {
      var rest := Encode(s[1..]);
      SequenceOfChar(s[0], rest);
      EncodingIsValid(s[1..]);
      assert (EncodeChar(s[0]) + rest)[|EncodeChar(s[0])|..] == rest;
    }
  }

  function DecodeFirst(bs: bytes): int
    requires SequenceLength(bs) != 0
  {
    SequenceFits(bs);
    var b0: int := bs[0];
    match SequenceLength(bs)
    case 1 => b0
    case 2 => Extend(b0 - 0xC0, bs[1])
    case 3 => Extend(Extend(b0 - 0xE0, bs[1]), bs[2])
    case _ => Extend(Extend(Extend(b0 - 0xF0, bs[1]), bs[2]), bs[3])
  }

  /** Six more bits. */
  function Extend(high: int, b: int): (n: int)
    ensures 0x80 <= b < 0xC0 ==> n / 64 == high && n % 64 == b - 0x80
  {
    64 * high + (b - 0x80)
  }

  lemma DecodeFirstInverts(bs: bytes)
    requires SequenceLength(bs) != 0
    ensures 0 <= DecodeFirst(bs) < 0xD800 || 0xE000 <= DecodeFirst(bs) < 0x110000
    ensures EncodeChar(DecodeFirst(bs) as char) == bs[..SequenceLength(bs)]
  {
    SequenceFits(bs);
    var n := DecodeFirst(bs);
    assert n / 64 / 64 == n / 4096 && n / 4096 / 64 == n / 262144;
  }

  lemma {:induction false} ValidIsEncoding(bs: bytes) returns (s: string)
    requires Valid(bs)
    ensures Encode(s) == bs
    decreases |bs|
  {
    if bs == [] {
      s := [];
    } else {
      DecodeFirstInverts(bs);
      var n := SequenceLength(bs);
      var tail := ValidIsEncoding(bs[n..]);
      s := [DecodeFirst(bs) as char] + tail;
      assert s[1..] == tail && bs == bs[..n] + bs[n..];
    }
  }
}
