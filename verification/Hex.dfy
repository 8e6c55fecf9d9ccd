/** Lowercase hexadecimal, after crates/conveyance-crypto/src/lib.rs. */
module Hex {
  import opened Wrappers

  function Digit(d: int): char
    requires 0 <= d < 16
  {
    if d < 10 then ('0' as int + d) as char else ('a' as int + d - 10) as char
  }

  function FromLowerHexDigit(c: char): (d: Option<int>)
    ensures d.Some? ==> 0 <= d.value < 16
  {
    if '0' <= c <= '9' then Some(c as int - '0' as int)
    else if 'a' <= c <= 'f' then Some(c as int - 'a' as int + 10)
    else None
  }

  function Text(bs: bytes): (t: string)
    ensures |t| == 2 * |bs|
  {
    if bs == [] then [] else [Digit(bs[0] / 16), Digit(bs[0] % 16)] + Text(bs[1..])
  }

  lemma DigitInverts(d: int)
    requires 0 <= d < 16
    ensures FromLowerHexDigit(Digit(d)) == Some(d)
  {
  }

  const DIGITS := "0123456789abcdef"

  /** Two digits a byte, the high one first. */
  lemma {:induction false} TextDigits(bs: bytes, i: nat)
    requires i < |bs|
    ensures Text(bs)[2 * i] == DIGITS[bs[i] / 16] && Text(bs)[2 * i + 1] == DIGITS[bs[i] % 16]
    decreases |bs|
  {
    if i == 0 {
      DigitIs(bs[0] / 16);
      DigitIs(bs[0] % 16);
    } else {
      TextDigits(bs[1..], i - 1);
    }
  }

  lemma DigitIs(d: int)
    requires 0 <= d < 16
    ensures Digit(d) == DIGITS[d]
  {
  }

  lemma {:induction false} TextAppend(bs: bytes, b: byte)
    ensures Text(bs + [b]) == Text(bs) + [Digit(b / 16), Digit(b % 16)]
    decreases |bs|
  {
    if bs != [] {
      TextAppend(bs[1..], b);
      assert (bs + [b])[1..] == bs[1..] + [b];
    }
  }

  lemma {:induction false} TextInjective(a: bytes, b: bytes)
    requires Text(a) == Text(b)
    ensures a == b
    decreases |a|
  {
    if a != [] && b != [] {
      var s, t := Text(a), Text(b);
      DigitInverts(a[0] / 16); DigitInverts(a[0] % 16);
      DigitInverts(b[0] / 16); DigitInverts(b[0] % 16);
      assert s[0] == t[0] && s[1] == t[1];
      assert s[2..] == Text(a[1..]) && t[2..] == Text(b[1..]);
      TextInjective(a[1..], b[1..]);
      assert a == [a[0]] + a[1..] && b == [b[0]] + b[1..];
    }
  }

  method Encode(bs: bytes) returns (out: string)
    ensures out == Text(bs)
  {
    out := [];
    for i := 0 to |bs|
      invariant out == Text(bs[..i])
    {
      TextAppend(bs[..i], bs[i]);
      assert bs[..i + 1] == bs[..i] + [bs[i]];
      out := out + [Digit(bs[i] / 16)];
      out := out + [Digit(bs[i] % 16)];
    }
    assert bs[..|bs|] == bs;
  }

  ghost predicate IsHex(s: string) {
    exists bs: bytes :: Text(bs) == s
  }

  lemma {:induction false} DigitsOnly(bs: bytes)
    ensures forall j :: 0 <= j < |Text(bs)| ==> FromLowerHexDigit(Text(bs)[j]).Some?
    decreases |bs|
  {
    if bs != [] {
      DigitInverts(bs[0] / 16);
      DigitInverts(bs[0] % 16);
      DigitsOnly(bs[1..]);
    }
  }

  lemma NotHex(s: string, i: nat)
    requires |s| % 2 != 0 || (i < |s| && FromLowerHexDigit(s[i]).None?)
    ensures !IsHex(s)
  {
    if bs: bytes :| Text(bs) == s { DigitsOnly(bs); }
  }

  function Joined(hi: char, lo: char): (b: byte)
    requires FromLowerHexDigit(hi).Some? && FromLowerHexDigit(lo).Some?
    ensures Digit(b / 16) == hi && Digit(b % 16) == lo
  {
    16 * FromLowerHexDigit(hi).value + FromLowerHexDigit(lo).value
  }

  /** Succeeds on exactly the strings `Encode` produces, and undoes it. */
  method Decode(s: string) returns (r: Option<bytes>)
    ensures r.Some? <==> IsHex(s)
    ensures r.Some? ==> Text(r.value) == s
  {
    if |s| % 2 != 0 {
      NotHex(s, 0);
      return None;
    }
    var out: bytes := [];
    var i := 0;
    while i < |s|
      invariant 0 <= i <= |s| && i % 2 == 0 && Text(out) == s[..i]
    {
      if FromLowerHexDigit(s[i]).None? || FromLowerHexDigit(s[i + 1]).None? {
        NotHex(s, if FromLowerHexDigit(s[i]).None? then i else i + 1);
        return None;
      }
      var b := Joined(s[i], s[i + 1]);
      TextAppend(out, b);
      assert s[..i + 2] == s[..i] + [s[i], s[i + 1]];
      out := out + [b];
      i := i + 2;
    }
    assert s[..|s|] == s;
    return Some(out);
  }
}
