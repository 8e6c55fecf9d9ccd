/**
 Length-prefixed, sequenced frames, after crates/conveyance-wire/src/framing.rs: their
 layout and the splitter. The reassembly machine is in `Framer`.
 */
module Framing {
  import opened Wrappers

  const FLAG_START: byte := 1
  const FLAG_END: byte := 2
  const FLAG_ACK: byte := 4
  const HEADER_LEN := 6
  const DEFAULT_REASSEMBLY_CAP := 131072
  const ATT_PDU_OVERHEAD := 3
  const MIN_ATT_MTU := 23

  datatype FrameError =
    | FrameTruncated
    | FrameLengthMismatch(declared: nat, actual: nat)
    | NonZeroReserved
    | IllegalFlags(bits: byte)
    | StrayMiddleFrame
    | NestedMessage
    | SequenceGap(expected: U16, got: U16)
    | MessageTooLarge(size: nat, cap: nat)
    | InvalidSplitSize

  function Next(sn: U16): U16 {
    (sn + 1) % 0x1_0000
  }

  function Be16(n: U16): bytes {
    [n / 256, n % 256]
  }

  function FromBe16(hi: byte, lo: byte): (n: U16)
    ensures Be16(n) == [hi, lo]
  {
    256 * hi as int + lo as int
  }

  // ---- frames --------------------------------------------------------------------

  function EncodeFrame(sn: U16, flags: byte, payload: bytes): (frame: bytes)
    requires |payload| <= 0xFFFF
  {
    Be16(|payload|) + Be16(sn) + [flags, 0] + payload
  }

  function EncodeAck(acked: U16): bytes {
    EncodeFrame(acked, FLAG_ACK, [])
  }

  function Declared(frame: bytes): U16
    requires |frame| >= HEADER_LEN
  {
    FromBe16(frame[0], frame[1])
  }

  function SeqOf(frame: bytes): U16
    requires |frame| >= HEADER_LEN
  {
    FromBe16(frame[2], frame[3])
  }

  /** A whole frame: a header and as many payload bytes as it declares. */
  predicate Whole(frame: bytes) {
    |frame| >= HEADER_LEN && |frame| == HEADER_LEN + Declared(frame)
  }

  lemma FrameFields(sn: U16, flags: byte, payload: bytes)
    requires |payload| <= 0xFFFF
    ensures var f := EncodeFrame(sn, flags, payload);
      && Whole(f) && SeqOf(f) == sn && f[4] == flags && f[5] == 0 && f[HEADER_LEN..] == payload
  {
    var f := EncodeFrame(sn, flags, payload);
    assert f[0] == |payload| / 256 && f[1] == |payload| % 256 && f[2] == sn / 256 && f[3] == sn % 256;
  }

  /** Six header bytes: length and number, high byte first, flags, and a zero; then the payload. */
  lemma FrameLayout(sn: U16, flags: byte, payload: bytes)
    requires |payload| <= 0xFFFF
    ensures var f := EncodeFrame(sn, flags, payload);
      && |f| == 6 + |payload| && f[0] as int * 256 + f[1] as int == |payload| && f[2] as int * 256 + f[3] as int == sn
      && f[4] == flags && f[5] == 0 && f[6..] == payload
  {
    FrameFields(sn, flags, payload);
  }

  /** A frame sized by this fits one GATT operation at the given MTU; below 23 the MTU counts as 23. */
  function MaxFramePayload(attMtu: U16): (n: nat)
    ensures n >= 14
    ensures attMtu >= MIN_ATT_MTU ==> HEADER_LEN + n == attMtu - ATT_PDU_OVERHEAD
    ensures attMtu < MIN_ATT_MTU ==> n == 14
  {
    (if attMtu < MIN_ATT_MTU then MIN_ATT_MTU else attMtu) - ATT_PDU_OVERHEAD - HEADER_LEN
  }

  // ---- splitting -----------------------------------------------------------------

  /** The frames of a message, or of what is left of one. */
  function Frames(message: bytes, maxPayload: nat, sn: U16, first: bool): (fs: seq<bytes>)
    requires 0 < maxPayload && (maxPayload <= 0xFFFF || |message| <= 0xFFFF)
    ensures |fs| == FrameCount(|message|, maxPayload)
    decreases |message|
  {
    if |message| <= maxPayload then
      [EncodeFrame(sn, if first then FLAG_START + FLAG_END else FLAG_END, message)]
    else
      [EncodeFrame(sn, if first then FLAG_START else 0, message[..maxPayload])]
      + Frames(message[maxPayload..], maxPayload, Next(sn), false)
  }

  function FrameCount(length: nat, maxPayload: nat): (n: nat)
    requires 0 < maxPayload
    ensures n >= 1
  {
    if length <= maxPayload then 1 else 1 + FrameCount(length - maxPayload, maxPayload)
  }

  /** The number of frames, computed by rounding up and never below one. */
  method CountFrames(length: nat, maxPayload: nat) returns (n: nat)
    requires 0 < maxPayload
    ensures n == FrameCount(length, maxPayload)
  {
    CountAgrees(length, maxPayload);
    var ceiling := (length + maxPayload - 1) / maxPayload;
    n := if ceiling < 1 then 1 else ceiling;
  }

  lemma {:induction false} CountAgrees(length: nat, maxPayload: nat)
    requires 0 < maxPayload
    ensures length > 0 ==> (length + maxPayload - 1) / maxPayload == FrameCount(length, maxPayload)
    ensures length == 0 ==> (length + maxPayload - 1) / maxPayload == 0
  {
    if length == 0 {
      DivUnique(maxPayload - 1, maxPayload, 0);
    } else if length <= maxPayload {
      DivUnique(length + maxPayload - 1, maxPayload, 1);
    } else {
      CountAgrees(length - maxPayload, maxPayload);
      DivUnique(length + maxPayload - 1, maxPayload, 1 + (length - 1) / maxPayload);
    }
  }

  lemma DivUnique(n: nat, d: nat, q: nat)
    requires 0 < d && q * d <= n < q * d + d
    ensures n / d == q
  {
    var r := n / d;
    assert r * d <= n < r * d + d;
    if r < q { MulStep(r, q, d); }
    if q < r { MulStep(q, r, d); }
  }

  lemma {:induction false} MulStep(a: nat, b: nat, d: nat)
    requires a < b
    ensures a * d + d <= b * d
    decreases b
  {
    assert b * d == (b - 1) * d + d;
    if a < b - 1 { MulStep(a, b - 1, d); }
  }

  method SplitMessage(message: bytes, maxPayload: nat, startSeq: U16) returns (r: Result<(seq<bytes>, U16), FrameError>)
    requires maxPayload <= 0xFFFF || |message| <= 0xFFFF
    ensures maxPayload == 0 ==> r == Err(InvalidSplitSize)
    ensures maxPayload > 0 ==>
      var frames := Frames(message, maxPayload, startSeq, true);
      r == Ok((frames, Wrap(startSeq, |frames|)))
  {
    if maxPayload == 0 { return Err(InvalidSplitSize); }
    var count := CountFrames(|message|, maxPayload);
    var frames: seq<bytes> := [];
    var offset: nat := 0;
    SplitStart(message, maxPayload, startSeq);
    for i := 0 to count
      invariant Splitting(message, maxPayload, startSeq, count, i, offset, frames)
    {
      var end := if offset + maxPayload < |message| then offset + maxPayload else |message|;
      var payload := message[offset..end];
      var flags := if i == 0 && count == 1 then FLAG_START + FLAG_END
                   else if i == 0 then FLAG_START
                   else if i == count - 1 then FLAG_END
                   else 0;
      SplitStep(message, maxPayload, startSeq, count, i, offset, frames, end, flags);
      frames := frames + [EncodeFrame(Wrap(startSeq, i), flags, payload)];
      offset := end;
    }
    SplitDone(message, maxPayload, startSeq, count, offset, frames);
    return Ok((frames, Wrap(startSeq, count)));
  }

  /** i frames are made, up to offset; what is left makes the others. */
  ghost predicate Splitting(message: bytes, maxPayload: nat, startSeq: U16, count: nat, i: nat, offset: nat,
                            frames: seq<bytes>)
  {
    && 0 < maxPayload && (maxPayload <= 0xFFFF || |message| <= 0xFFFF)
    && |frames| == i <= count && offset <= |message|
    && (i < count ==> count - i == FrameCount(|message| - offset, maxPayload))
    && frames + (if i == count then [] else Frames(message[offset..], maxPayload, Wrap(startSeq, i), i == 0))
       == Frames(message, maxPayload, startSeq, true)
  }

  lemma SplitStart(message: bytes, maxPayload: nat, startSeq: U16)
    requires 0 < maxPayload && (maxPayload <= 0xFFFF || |message| <= 0xFFFF)
    ensures Splitting(message, maxPayload, startSeq, FrameCount(|message|, maxPayload), 0, 0, [])
  {
    assert message[0..] == message;
  }

  lemma SplitDone(message: bytes, maxPayload: nat, startSeq: U16, count: nat, offset: nat, frames: seq<bytes>)
    requires Splitting(message, maxPayload, startSeq, count, count, offset, frames)
    ensures frames == Frames(message, maxPayload, startSeq, true) && |frames| == count
  {
    assert frames + [] == frames;
  }

  lemma SplitStep(message: bytes, maxPayload: nat, startSeq: U16, count: nat, i: nat, offset: nat, frames: seq<bytes>,
                  end: nat, flags: byte)
    requires Splitting(message, maxPayload, startSeq, count, i, offset, frames) && i < count
    requires end == if offset + maxPayload < |message| then offset + maxPayload else |message|
    requires flags == if i == 0 && count == 1 then FLAG_START + FLAG_END else if i == 0 then FLAG_START
                      else if i == count - 1 then FLAG_END else 0
    ensures |message[offset..end]| <= 0xFFFF
    ensures Splitting(message, maxPayload, startSeq, count, i + 1, end,
                      frames + [EncodeFrame(Wrap(startSeq, i), flags, message[offset..end])])
  {
    WrapNext(startSeq, i);
    if |message| - offset <= maxPayload {
      LastUnfold(frames, message, offset, maxPayload, Wrap(startSeq, i), i == 0);
    } else {
      MoreUnfold(frames, message, offset, maxPayload, Wrap(startSeq, i), i == 0);
    }
  }

  /** The wrapping u16 addition. */
  function Wrap(sn: U16, i: nat): U16 {
    (sn + i) % 0x1_0000
  }

  lemma WrapNext(sn: U16, i: nat)
    ensures Wrap(sn, i + 1) == Next(Wrap(sn, i))
  {
  }

  lemma LastUnfold(done: seq<bytes>, message: bytes, offset: nat, maxPayload: nat, sn: U16, first: bool)
    requires offset <= |message| && 0 < maxPayload && (maxPayload <= 0xFFFF || |message| <= 0xFFFF)
    requires |message| - offset <= maxPayload
    ensures done + Frames(message[offset..], maxPayload, sn, first)
         == done + [EncodeFrame(sn, if first then FLAG_START + FLAG_END else FLAG_END, message[offset..|message|])] + []
  {
    assert message[offset..] == message[offset..|message|];
  }

  lemma MoreUnfold(done: seq<bytes>, message: bytes, offset: nat, maxPayload: nat, sn: U16, first: bool)
    requires offset <= |message| && 0 < maxPayload && (maxPayload <= 0xFFFF || |message| <= 0xFFFF)
    requires |message| - offset > maxPayload
    ensures done + Frames(message[offset..], maxPayload, sn, first)
         == done + [EncodeFrame(sn, if first then FLAG_START else 0, message[offset..offset + maxPayload])]
            + Frames(message[offset + maxPayload..], maxPayload, Next(sn), false)
  {
    var left := message[offset..];
    assert left[..maxPayload] == message[offset..offset + maxPayload];
    assert left[maxPayload..] == message[offset + maxPayload..];
  }
}
