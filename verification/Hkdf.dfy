/**
 HMAC and HKDF over any 32-byte hash with a 64-byte block,
 crates/conveyance-crypto/src/hkdf.rs, against RFC 2104 and section 2 of RFC 5869.
 */
module Hkdf {
  import opened Wrappers

  const BLOCK := 64
  const HASH_LEN := 32

  // ---- RFC 2104 ------------------------------------------------------------------

  function Zeros(n: nat): bytes {
    seq(n, _ => 0)
  }

  function Xor(b: byte, mask: bv8): byte {
    ((b as bv8) ^ mask) as int
  }

  /** The key as one block: hashed if it is too long, then filled up with zeros. */
  function KeyBlock(h: Hash, key: bytes): (block: bytes)
    ensures |block| == BLOCK
  {
    var k := if |key| > BLOCK then h(key) else key;
    k + Zeros(BLOCK - |k|)
  }

  function Pad(block: bytes, mask: bv8): bytes {
    seq(|block|, i requires 0 <= i < |block| => Xor(block[i], mask))
  }

  function Hmac(h: Hash, key: bytes, message: bytes): Digest {
    h(Pad(KeyBlock(h, key), 0x5c) + h(Pad(KeyBlock(h, key), 0x36) + message))
  }

  /** The padded key, byte by byte, as section 2 of RFC 2104 forms it. */
  lemma PaddedKey(h: Hash, key: bytes, i: nat)
    requires |key| <= 64 && i < 64
    ensures |KeyBlock(h, key)| == 64 && KeyBlock(h, key)[i] == if i < |key| then key[i] else 0
    ensures Pad(KeyBlock(h, key), 0x36)[i] == ((KeyBlock(h, key)[i] as bv8) ^ 0x36) as int
    ensures Pad(KeyBlock(h, key), 0x5c)[i] == ((KeyBlock(h, key)[i] as bv8) ^ 0x5c) as int
  {
  }

  /** A key longer than a block counts as its hash. */
  lemma LongKey(h: Hash, key: bytes, message: bytes)
    requires |key| > 64
    ensures Hmac(h, key, message) == Hmac(h, h(key), message)
  {
  }

  /** A hash state is the bytes it has taken in. */
  datatype Hmac32 = Hmac32(ipadState: bytes, opadState: bytes)

  predicate Keyed(mac: Hmac32, h: Hash, key: bytes) {
    mac == Hmac32(Pad(KeyBlock(h, key), 0x36), Pad(KeyBlock(h, key), 0x5c))
  }

  method XorInPlace(a: array<byte>, mask: bv8)
    modifies a
    ensures a[..] == Pad(old(a[..]), mask)
  {
    for i := 0 to a.Length
      invariant forall j :: 0 <= j < i ==> a[j] == Xor(old(a[j]), mask)
      invariant forall j :: i <= j < a.Length ==> a[j] == old(a[j])
    {
      a[i] := Xor(a[i], mask);
    }
  }

  method NewHmac(h: Hash, key: bytes) returns (mac: Hmac32)
    ensures Keyed(mac, h, key)
  {
    var k := if |key| > BLOCK then h(key) else key;
    var block := k + Zeros(BLOCK - |k|);
    var ipad := new byte[BLOCK](i requires 0 <= i < BLOCK => block[i]);
    var opad := new byte[BLOCK](i requires 0 <= i < BLOCK => block[i]);
    assert ipad[..] == block && opad[..] == block;
    XorInPlace(ipad, 0x36);
    XorInPlace(opad, 0x5c);
    mac := Hmac32(ipad[..], opad[..]);
  }

  method Sign(h: Hash, mac: Hmac32, parts: seq<bytes>, ghost key: bytes) returns (tag: Digest)
    requires Keyed(mac, h, key)
    ensures tag == Hmac(h, key, Flatten(parts))
  {
    var inner := mac.ipadState;
    for i := 0 to |parts|
      invariant inner == mac.ipadState + Flatten(parts[..i])
    {
      FlattenAppend(parts[..i], parts[i]);
      assert parts[..i] + [parts[i]] == parts[..i + 1];
      Associate(mac.ipadState, Flatten(parts[..i]), parts[i]);
      inner := inner + parts[i];
    }
    assert parts[..|parts|] == parts;
    tag := h(mac.opadState + h(inner));
  }

  /** Zeros at the end of a key that fits a block make no difference. */
  lemma ZeroPaddedKey(h: Hash, key: bytes, n: nat, message: bytes)
    requires |key| + n <= BLOCK
    ensures Hmac(h, key + Zeros(n), message) == Hmac(h, key, message)
  {
    assert KeyBlock(h, key + Zeros(n)) == KeyBlock(h, key);
  }

  // ---- RFC 5869 ------------------------------------------------------------------

  method Extract(h: Hash, salt: bytes, ikm: bytes) returns (prk: Digest)
    ensures prk == Hmac(h, salt, ikm)
    ensures salt == Zeros(HASH_LEN) ==> prk == Hmac(h, [], ikm)
  {
    var mac := NewHmac(h, salt);
    prk := Sign(h, mac, [ikm], salt);
    assert Flatten([ikm]) == ikm;
    if salt == Zeros(HASH_LEN) {
      ZeroPaddedKey(h, [], HASH_LEN, ikm);
      assert [] + Zeros(HASH_LEN) == salt;
    }
  }

  /** T(n) of section 2.3. */
  function T(h: Hash, prk: bytes, info: bytes, n: nat): (t: bytes)
    requires n <= 255
    ensures |t| == if n == 0 then 0 else HASH_LEN
  {
    if n == 0 then [] else Hmac(h, prk, T(h, prk, info, n - 1) + info + [n])
  }

  /** Each block is made over the one before it, the info and its number; the first over the info and 1. */
  lemma BlockOf(h: Hash, prk: bytes, info: bytes, n: nat)
    requires 1 <= n <= 255
    ensures T(h, prk, info, n) == Hmac(h, prk, (if n == 1 then [] else T(h, prk, info, n - 1)) + info + [n])
  {
  }

  /** T(1) up to T(n), one behind the other. */
  function Stream(h: Hash, prk: bytes, info: bytes, n: nat): (s: bytes)
    requires n <= 255
    ensures |s| == n * HASH_LEN
  {
    if n == 0 then [] else Stream(h, prk, info, n - 1) + T(h, prk, info, n)
  }

  /** The blocks an output of a length takes. */
  function Blocks(length: nat): (n: nat)
    ensures length <= n * HASH_LEN < length + HASH_LEN
  {
    (length + HASH_LEN - 1) / HASH_LEN
  }

  /** The output keying material: the first octets of the stream. */
  function Okm(h: Hash, prk: bytes, info: bytes, length: nat): bytes
    requires length <= 255 * HASH_LEN
  {
    Stream(h, prk, info, Blocks(length))[..length]
  }

  lemma {:induction false} StreamGrows(h: Hash, prk: bytes, info: bytes, m: nat, n: nat)
    requires m <= n <= 255
    ensures Stream(h, prk, info, m) <= Stream(h, prk, info, n)
    decreases n
  {
    if m < n { StreamGrows(h, prk, info, m, n - 1); }
  }

  lemma StreamStep(h: Hash, prk: bytes, info: bytes, k: nat, size: nat)
    requires k < 255 && size <= HASH_LEN
    ensures var done := k * HASH_LEN;
      Stream(h, prk, info, k + 1)[..done + size] == Stream(h, prk, info, k)[..done] + T(h, prk, info, k + 1)[..size]
  {
  }

  /** A shorter output is the beginning of a longer one. */
  lemma OkmPrefix(h: Hash, prk: bytes, info: bytes, short: nat, long: nat)
    requires short <= long <= 255 * HASH_LEN
    ensures Okm(h, prk, info, short) <= Okm(h, prk, info, long)
  {
    StreamGrows(h, prk, info, Blocks(short), Blocks(long));
  }

  method NextBlock(h: Hash, mac: Hmac32, prev: bytes, info: bytes, counter: byte, ghost prk: bytes)
    returns (t: Digest)
    requires Keyed(mac, h, prk) && counter > 0
    requires counter > 1 ==> prev == T(h, prk, info, counter - 1)
    ensures t == T(h, prk, info, counter)
  {
    var first := if counter > 1 then prev else [];
    t := Sign(h, mac, [first, info, [counter]], prk);
    FlattenAppend([first, info], [counter]);
    FlattenAppend([first], info);
    assert [first, info] + [[counter]] == [first, info, [counter]] && [first] + [info] == [first, info];
    assert Flatten([first]) == first;
  }

  /** After k blocks: the filled part, the last block, the u8 counter and whether it has overflowed. */
  predicate Progress(h: Hash, prk: bytes, info: bytes, length: nat, k: nat, filled: bytes, prev: bytes, counter: int,
                     overflowed: bool)
  {
    && k <= 255 && length <= 255 * HASH_LEN && |filled| <= length
    && (|filled| < length ==> |filled| == k * HASH_LEN)
    && |filled| <= k * HASH_LEN && (k > 0 ==> (k - 1) * HASH_LEN < length)
    && counter == (k + 1) % 256 && overflowed == (k == 255)
    && (k > 0 ==> prev == T(h, prk, info, k))
    && filled == Stream(h, prk, info, k)[..|filled|]
  }

  lemma Advance(h: Hash, prk: bytes, info: bytes, length: nat, k: nat, filled: bytes, prev: bytes, counter: int,
                overflowed: bool, t: bytes, size: nat)
    requires Progress(h, prk, info, length, k, filled, prev, counter, overflowed) && |filled| < length
    requires size == if length - |filled| < HASH_LEN then length - |filled| else HASH_LEN
    requires k < 255 && t == T(h, prk, info, k + 1)
    ensures Progress(h, prk, info, length, k + 1, filled + t[..size], t, (counter + 1) % 256, counter == 255)
  {
    StreamStep(h, prk, info, k, size);
  }

  lemma Finished(h: Hash, prk: bytes, info: bytes, length: nat, k: nat, filled: bytes, prev: bytes, counter: int,
                 overflowed: bool)
    requires Progress(h, prk, info, length, k, filled, prev, counter, overflowed) && |filled| == length
    ensures filled == Okm(h, prk, info, length) && (overflowed <==> length > 254 * HASH_LEN)
  {
    assert Blocks(length) == k;
  }

  method FillNext(h: Hash, mac: Hmac32, ghost prk: bytes, info: bytes, okm: array<byte>, done: nat, prev: bytes,
                  counter: int, ghost k: nat, ghost overflowed: bool)
    returns (t: Digest, size: nat)
    requires Keyed(mac, h, prk) && done < okm.Length
    requires Progress(h, prk, info, okm.Length, k, okm[..done], prev, counter, overflowed)
    modifies okm
    ensures 0 < size && done + size <= okm.Length
    ensures Progress(h, prk, info, okm.Length, k + 1, okm[..done + size], t, (counter + 1) % 256, counter == 255)
  {
    size := if okm.Length - done < HASH_LEN then okm.Length - done else HASH_LEN;
    t := NextBlock(h, mac, prev, info, counter, prk);
    ghost var filled := okm[..done];
    CopyInto(okm, done, t[..size]);
    assert okm[..done + size] == filled + t[..size];
    Advance(h, prk, info, okm.Length, k, filled, prev, counter, overflowed, t, size);
  }

  /**
   Fills the buffer with the output keying material. The counter is a u8 that is incremented
   behind the last block too: it overflows exactly when the 255th block was needed.
   */
  method Expand(h: Hash, prk: Digest, info: bytes, okm: array<byte>) returns (overflowed: bool)
    requires okm.Length <= 255 * HASH_LEN
    modifies okm
    ensures okm[..] == Okm(h, prk, info, okm.Length)
    ensures overflowed <==> okm.Length > 254 * HASH_LEN
  {
    var mac := NewHmac(h, prk);
    var prev: bytes := Zeros(HASH_LEN);
    var done: nat, counter := 0, 1;
    overflowed := false;
    ghost var k: nat := 0;
    while done < okm.Length
      invariant done <= okm.Length
      invariant Progress(h, prk, info, okm.Length, k, okm[..done], prev, counter, overflowed)
    {
      var t, size := FillNext(h, mac, prk, info, okm, done, prev, counter, k, overflowed);
      prev, k := t, k + 1;
      done := done + size;
      overflowed := counter == 255;
      counter := (counter + 1) % 256;
    }
    Finished(h, prk, info, okm.Length, k, okm[..done], prev, counter, overflowed);
    assert okm[..done] == okm[..];
  }

  method CopyInto(a: array<byte>, at: nat, data: bytes)
    requires at + |data| <= a.Length
    modifies a
    ensures a[..at] == old(a[..at]) && a[at..at + |data|] == data && a[at + |data|..] == old(a[at + |data|..])
  {
    for i := 0 to |data|
      invariant a[at..at + i] == data[..i]
      invariant forall j :: 0 <= j < a.Length && !(at <= j < at + i) ==> a[j] == old(a[j])
    {
      a[at + i] := data[i];
    }
  }
}
