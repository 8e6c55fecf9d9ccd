/**
 The reassembly machine of crates/conveyance-wire/src/framing.rs.

 `Ingest` is what one frame does to the machine's state and answers; the class does it in
 place. Everything the source does is kept, including what it leaves behind on an error.
 */
module Framer {
  import opened Wrappers
  import opened Framing

  datatype State = State(cap: nat, assembling: bool, nextSeq: Option<U16>, buffer: bytes)

  type Answer = Result<Option<bytes>, FrameError>

  function Fresh(cap: nat): State {
    State(cap, false, None, [])
  }

  predicate LegalFlags(flags: byte) {
    flags == FLAG_START + FLAG_END || flags == FLAG_START || flags == FLAG_END || flags == 0 || flags == FLAG_ACK
  }

  predicate Starts(flags: byte) {
    flags == FLAG_START || flags == FLAG_START + FLAG_END
  }

  /** What is wrong with a frame whatever the machine's state, if anything is. */
  function Malformed(frame: bytes): Option<FrameError> {
    if |frame| < HEADER_LEN then Some(FrameTruncated)
    else if frame[5] != 0 then Some(NonZeroReserved)
    else if !LegalFlags(frame[4]) then Some(IllegalFlags(frame[4]))
    else if !Whole(frame) then Some(FrameLengthMismatch(Declared(frame), |frame| - HEADER_LEN))
    else if frame[4] == FLAG_ACK && |frame| != HEADER_LEN then Some(IllegalFlags(frame[4]))
    else None
  }

  /** The machine with payload added to its buffer, and the cap checked. */
  function Extend(s: State, buffer: bytes): (State, Answer) {
    var s' := s.(buffer := buffer, assembling := true);
    (s', if |buffer| > s.cap then Err(MessageTooLarge(|buffer|, s.cap)) else Ok(None))
  }

  /** A data frame whose sequence number was expected. */
  function Accept(s: State, flags: byte, sn: U16, payload: bytes): (State, Answer) {
    if flags == FLAG_START + FLAG_END then (s, Ok(Some(payload)))
    else if flags == FLAG_START then Extend(s, payload)
    else if flags == 0 then Extend(s, s.buffer + payload)
    else if !s.assembling then (s, Err(SequenceGap((sn - 1) % 0x1_0000, sn)))
    else
      var (s', r) := Extend(s, s.buffer + payload);
      if r.Err? then (s', r) else (s.(assembling := false, buffer := []), Ok(Some(s'.buffer)))
  }

  function Ingest(s: State, frame: bytes): (State, Answer) {
    if Malformed(frame).Some? then (s, Err(Malformed(frame).value))
    else
      var flags, sn := frame[4], SeqOf(frame);
      if flags == FLAG_ACK then (s, Ok(None))
      else if Starts(flags) && s.assembling then (s, Err(NestedMessage))
      else if flags == 0 && !s.assembling then (s, Err(StrayMiddleFrame))
      else if s.nextSeq.Some? && sn != s.nextSeq.value then (s, Err(SequenceGap(s.nextSeq.value, sn)))
      else Accept(s.(nextSeq := Some(Next(sn))), flags, sn, frame[HEADER_LEN..])
  }

  class FrameReassembler {
    const cap: nat
    var assembling: bool
    var nextSeq: Option<U16>
    var buffer: bytes

    ghost function View(): State
      reads this
    {
      State(cap, assembling, nextSeq, buffer)
    }

    constructor (cap: nat)
      ensures View() == Fresh(cap)
    {
      this.cap := cap;
      assembling, nextSeq, buffer := false, None, [];
    }

    method IngestFrame(frame: bytes) returns (r: Answer)
      modifies this
      ensures (View(), r) == Ingest(old(View()), frame)
    {
      if |frame| < HEADER_LEN { return Err(FrameTruncated); }
      var declared, sn, flags, reserved := Declared(frame), SeqOf(frame), frame[4], frame[5];
      var payload := frame[HEADER_LEN..];
      if reserved != 0 { return Err(NonZeroReserved); }
      if !LegalFlags(flags) { return Err(IllegalFlags(flags)); }
      if |payload| != declared { return Err(FrameLengthMismatch(declared, |payload|)); }
      if flags == FLAG_ACK {
        return if payload != [] then Err(IllegalFlags(flags)) else Ok(None);
      }
      if Starts(flags) && assembling { return Err(NestedMessage); }
      if flags == 0 && !assembling { return Err(StrayMiddleFrame); }
      if nextSeq.Some? && sn != nextSeq.value { return Err(SequenceGap(nextSeq.value, sn)); }
      nextSeq := Some(Next(if nextSeq.Some? then nextSeq.value else sn));
      r := Deliver(flags, sn, payload);
    }

    /** The last part of `ingest`: what each kind of data frame does. */
    method Deliver(flags: byte, sn: U16, payload: bytes) returns (r: Answer)
      requires flags == FLAG_START + FLAG_END || flags == FLAG_START || flags == FLAG_END || flags == 0
      requires flags == 0 ==> assembling
      modifies this`assembling, this`buffer
      ensures (View(), r) == Accept(old(View()), flags, sn, payload)
    {
      if flags == FLAG_START + FLAG_END { return Ok(Some(payload)); }
      if flags == FLAG_START {
        buffer := payload;
        assembling := true;
      } else if flags == 0 {
        buffer := buffer + payload;
      } else {
        if !assembling { return Err(SequenceGap((sn - 1) % 0x1_0000, sn)); }
        buffer := buffer + payload;
      }
      if |buffer| > cap { return Err(MessageTooLarge(|buffer|, cap)); }
      if flags != FLAG_END { return Ok(None); }
      assembling := false;
      r := Ok(Some(buffer));
      buffer := [];
    }
  }

  // ---- any frames at all, going on after errors ------------------------------------

  /** The machine after the first n frames, whatever it answered to them. */
  function After(cap: nat, frames: seq<bytes>, n: nat): State
    requires n <= |frames|
  {
    if n == 0 then Fresh(cap) else Ingest(After(cap, frames, n - 1), frames[n - 1]).0
  }

  function AnswerTo(cap: nat, frames: seq<bytes>, n: nat): Answer
    requires n < |frames|
  {
    Ingest(After(cap, frames, n), frames[n]).1
  }

  function Payloads(frames: seq<bytes>, at: seq<nat>): seq<bytes>
    requires forall k :: 0 <= k < |at| ==> at[k] < |frames| && |frames[at[k]]| >= HEADER_LEN
  {
    seq(|at|, k requires 0 <= k < |at| => frames[at[k]][HEADER_LEN..])
  }

  /** The frames at these positions are one START and then middles, numbered consecutively. */
  predicate Train(frames: seq<bytes>, at: seq<nat>) {
    && at != []
    && (forall k :: 0 <= k < |at| ==> at[k] < |frames| && Whole(frames[at[k]]))
    && (forall k :: 0 < k < |at| ==> at[k - 1] < at[k])
    && (forall k :: 0 < k < |at| ==> SeqOf(frames[at[k]]) == Next(SeqOf(frames[at[k - 1]])))
    && frames[at[0]][4] == FLAG_START
    && (forall k :: 0 < k < |at| ==> frames[at[k]][4] == 0)
  }

  /** What the machine holds is the payloads of such a train, or nothing. */
  predicate HoldsTrain(s: State, frames: seq<bytes>, at: seq<nat>) {
    && Train(frames, at)
    && s.buffer == Flatten(Payloads(frames, at))
    && s.nextSeq == Some(Next(SeqOf(frames[at[|at| - 1]])))
  }

  lemma StepCases(s: State, frame: bytes)
    requires !s.assembling ==> s.buffer == []
    ensures var (s', r) := Ingest(s, frame);
      && s'.cap == s.cap && (!s'.assembling ==> s'.buffer == [])
      && (s'.assembling ==>
          || (s' == s)
          || (&& Whole(frame) && frame[4] == FLAG_START
              && s' == State(s.cap, true, Some(Next(SeqOf(frame))), frame[HEADER_LEN..]))
          || (&& s.assembling && Whole(frame) && (frame[4] == 0 || frame[4] == FLAG_END)
              && (s.nextSeq.None? || s.nextSeq.value == SeqOf(frame))
              && s' == State(s.cap, true, Some(Next(SeqOf(frame))), s.buffer + frame[HEADER_LEN..])
              && (frame[4] == FLAG_END ==> |s'.buffer| > s.cap)))
  {
  }

  lemma ExtendTrain(frames: seq<bytes>, at: seq<nat>, n: nat)
    requires n < |frames| && Train(frames, at) && at[|at| - 1] < n
    requires Whole(frames[n]) && frames[n][4] == 0 && SeqOf(frames[n]) == Next(SeqOf(frames[at[|at| - 1]]))
    ensures Train(frames, at + [n])
  {
    var more := at + [n];
    assert forall k :: 0 <= k < |at| ==> more[k] == at[k];
  }

  lemma ExtendPayloads(frames: seq<bytes>, at: seq<nat>, n: nat)
    requires n < |frames| && |frames[n]| >= HEADER_LEN
    requires forall k :: 0 <= k < |at| ==> at[k] < |frames| && |frames[at[k]]| >= HEADER_LEN
    ensures Flatten(Payloads(frames, at + [n])) == Flatten(Payloads(frames, at)) + frames[n][HEADER_LEN..]
  {
    FlattenAppend(Payloads(frames, at), frames[n][HEADER_LEN..]);
    assert Payloads(frames, at + [n]) == Payloads(frames, at) + [frames[n][HEADER_LEN..]];
  }

  lemma StartTrain(s: State, frames: seq<bytes>, n: nat)
    requires n < |frames| && Whole(frames[n]) && frames[n][4] == FLAG_START
    requires s.buffer == frames[n][HEADER_LEN..] && s.nextSeq == Some(Next(SeqOf(frames[n])))
    ensures HoldsTrain(s, frames, [n])
  {
    assert Payloads(frames, [n]) == [frames[n][HEADER_LEN..]];
    assert Flatten([frames[n][HEADER_LEN..]]) == frames[n][HEADER_LEN..] + Flatten([]);
  }

  /** An idle machine holds nothing, after any frames and any errors. */
  lemma {:induction false} IdleMeansEmpty(cap: nat, frames: seq<bytes>, n: nat)
    requires n <= |frames|
    ensures !After(cap, frames, n).assembling ==> After(cap, frames, n).buffer == []
    ensures After(cap, frames, n).cap == cap
  {
    if n > 0 {
      IdleMeansEmpty(cap, frames, n - 1);
      StepCases(After(cap, frames, n - 1), frames[n - 1]);
    }
  }

  /** Whatever the machine holds within its cap is the payloads of a train of frames it was fed. */
  lemma {:induction false} TrainBehind(cap: nat, frames: seq<bytes>, n: nat) returns (at: seq<nat>)
    requires n <= |frames| && After(cap, frames, n).assembling && |After(cap, frames, n).buffer| <= cap
    ensures HoldsTrain(After(cap, frames, n), frames, at) && at[|at| - 1] < n
  {
    var s, frame := After(cap, frames, n - 1), frames[n - 1];
    IdleMeansEmpty(cap, frames, n - 1);
    StepCases(s, frame);
    if After(cap, frames, n) == s {
      at := TrainBehind(cap, frames, n - 1);
    } else if frame[4] == FLAG_START {
      at := [n - 1];
      StartTrain(After(cap, frames, n), frames, n - 1);
    } else {
      var before := TrainBehind(cap, frames, n - 1);
      at := before + [n - 1];
      ExtendTrain(frames, before, n - 1);
      ExtendPayloads(frames, before, n - 1);
    }
  }

  /** The frames at these positions carry one message: a START, middles, an END, numbered consecutively. */
  predicate Carries(frames: seq<bytes>, at: seq<nat>, last: nat, message: bytes) {
    && Train(frames, at) && at[|at| - 1] < last < |frames|
    && Whole(frames[last]) && frames[last][4] == FLAG_END
    && SeqOf(frames[last]) == Next(SeqOf(frames[at[|at| - 1]]))
    && message == Flatten(Payloads(frames, at)) + frames[last][HEADER_LEN..]
  }

  /**
   Whatever frames come, in whatever order and after whatever errors, a message that comes
   out is one START|END frame's payload of at most 65535 bytes, or the payloads of a START,
   middles and an END in order with consecutive numbers and at most cap bytes.
   */
  lemma MessagesAreCarried(cap: nat, frames: seq<bytes>, n: nat) returns (at: seq<nat>)
    requires n < |frames| && AnswerTo(cap, frames, n).Ok? && AnswerTo(cap, frames, n).value.Some?
    ensures var m := AnswerTo(cap, frames, n).value.value;
      if frames[n][4] == FLAG_START + FLAG_END then
        Whole(frames[n]) && m == frames[n][HEADER_LEN..] && |m| <= 0xFFFF
      else
        Carries(frames, at, n, m) && |m| <= cap
  {
    var s := After(cap, frames, n);
    IdleMeansEmpty(cap, frames, n);
    at := [];
    if frames[n][4] != FLAG_START + FLAG_END {
      at := TrainBehind(cap, frames, n);
    }
  }

  lemma OverCapStep(s: State, frame: bytes)
    requires s.assembling && |s.buffer| > s.cap
    ensures var (s', r) := Ingest(s, frame);
      && s'.assembling && s'.cap == s.cap && |s'.buffer| > s.cap
      && (r.Ok? ==> r.value.None? && frame[4] == FLAG_ACK)
  {
  }

  /** Once over its cap the machine never delivers again, whatever frames come: all but ACKs are refused. */
  lemma {:induction false} OverCapIsTerminal(cap: nat, frames: seq<bytes>, m: nat, n: nat)
    requires m <= n < |frames| && After(cap, frames, m).assembling && |After(cap, frames, m).buffer| > cap
    ensures After(cap, frames, n).assembling && |After(cap, frames, n).buffer| > cap
    ensures AnswerTo(cap, frames, n).Ok? ==> AnswerTo(cap, frames, n) == Ok(None) && frames[n][4] == FLAG_ACK
  {
    if m < n {
      OverCapIsTerminal(cap, frames, m, n - 1);
      IdleMeansEmpty(cap, frames, n - 1);
      OverCapStep(After(cap, frames, n - 1), frames[n - 1]);
    }
    IdleMeansEmpty(cap, frames, n);
    OverCapStep(After(cap, frames, n), frames[n]);
  }

  // ---- exactly which frames are accepted -------------------------------------------

  /** Six header bytes, nothing reserved, a known kind, as many payload bytes as declared, none behind an ACK. */
  predicate WellFormed(frame: bytes) {
    && |frame| >= 6 && frame[5] == 0
    && (frame[4] == 3 || frame[4] == 1 || frame[4] == 2 || frame[4] == 0 || frame[4] == 4)
    && |frame| == 6 + 256 * frame[0] as int + frame[1] as int
    && (frame[4] == 4 ==> |frame| == 6)
  }

  /** The sequence number in a header. */
  function NumberOf(frame: bytes): int
    requires |frame| >= 6
  {
    256 * frame[2] as int + frame[3] as int
  }

  /** A data frame that comes in its turn: no START inside a message, no middle outside one, the number expected. */
  predicate InTurn(s: State, frame: bytes) {
    && WellFormed(frame) && frame[4] != 4
    && (frame[4] == 1 || frame[4] == 3 ==> !s.assembling) && (frame[4] == 0 ==> s.assembling)
    && (s.nextSeq.None? || s.nextSeq.value == NumberOf(frame))
  }

  /** What the message is then long, of which only a START and END frame may pass the cap. */
  function Length(s: State, frame: bytes): int {
    |frame| - 6 + if frame != [] && |frame| >= 6 && (frame[4] == 0 || frame[4] == 2) then |s.buffer| else 0
  }

  /** A frame is accepted if and only if it is an ACK, or a data frame in its turn within the cap, with its START. */
  lemma AcceptedIff(s: State, frame: bytes)
    ensures Ingest(s, frame).1.Ok? <==>
      || (WellFormed(frame) && frame[4] == 4)
      || (InTurn(s, frame) && (frame[4] == 3 || ((frame[4] == 2 ==> s.assembling) && Length(s, frame) <= s.cap)))
  {
  }

  /** A message comes out if and only if the accepted frame carries END. */
  lemma DeliversIff(s: State, frame: bytes)
    requires Ingest(s, frame).1.Ok?
    ensures Ingest(s, frame).1.value.Some? <==> frame[4] == 2 || frame[4] == 3
  {
  }

  /** The frame used up a sequence number. */
  predicate Counts(cap: nat, frames: seq<bytes>, k: nat)
    requires k < |frames|
  {
    After(cap, frames, k + 1).nextSeq != After(cap, frames, k).nextSeq
  }

  /** Frames in their turn use up their number, accepted or not; nothing else does. */
  lemma CountsIff(cap: nat, frames: seq<bytes>, k: nat)
    requires k < |frames|
    ensures Counts(cap, frames, k) <==> InTurn(After(cap, frames, k), frames[k])
    ensures Counts(cap, frames, k) ==>
      After(cap, frames, k + 1).nextSeq == Some((NumberOf(frames[k]) + 1) % 0x1_0000)
  {
    NumberUsed(After(cap, frames, k), frames[k]);
  }

  lemma NumberUsed(s: State, frame: bytes)
    ensures Ingest(s, frame).0.nextSeq != s.nextSeq <==> InTurn(s, frame)
    ensures InTurn(s, frame) ==> Ingest(s, frame).0.nextSeq == Some((NumberOf(frame) + 1) % 0x1_0000)
  {
  }

  lemma {:induction false} NumberStands(cap: nat, frames: seq<bytes>, m: nat, n: nat)
    requires m <= n <= |frames| && forall k :: m <= k < n ==> !Counts(cap, frames, k)
    ensures After(cap, frames, n).nextSeq == After(cap, frames, m).nextSeq
    decreases n
  {
    if m < n {
      NumberStands(cap, frames, m, n - 1);
      assert !Counts(cap, frames, n - 1);
    }
  }

  /**
   Whatever frames come, across messages and errors, data frames that use up numbers carry
   consecutive ones. So a frame lost anywhere in between is noticed at the next.
   */
  lemma NumbersAreConsecutive(cap: nat, frames: seq<bytes>, i: nat, j: nat)
    requires i < j < |frames| && Counts(cap, frames, i) && Counts(cap, frames, j)
    requires forall k :: i < k < j ==> !Counts(cap, frames, k)
    ensures WellFormed(frames[i]) && WellFormed(frames[j])
    ensures NumberOf(frames[j]) == (NumberOf(frames[i]) + 1) % 0x1_0000
  {
    CountsIff(cap, frames, i);
    CountsIff(cap, frames, j);
    NumberStands(cap, frames, i + 1, j);
  }

  /** Every accepted data frame uses up its number. */
  lemma AcceptedCounts(cap: nat, frames: seq<bytes>, k: nat)
    requires k < |frames| && AnswerTo(cap, frames, k).Ok? && frames[k][4] != 4
    ensures Counts(cap, frames, k)
  {
    AcceptedIff(After(cap, frames, k), frames[k]);
    CountsIff(cap, frames, k);
  }

  /** Why a well-formed frame is refused. */
  lemma FrameRefusedBecause(s: State, frame: bytes)
    requires WellFormed(frame)
    ensures var r := Ingest(s, frame).1;
      && (r == Err(NestedMessage) <==> (frame[4] == 1 || frame[4] == 3) && s.assembling)
      && (r == Err(StrayMiddleFrame) <==> frame[4] == 0 && !s.assembling)
      && (r.Err? && r.error.MessageTooLarge? ==>
           InTurn(s, frame) && r.error == MessageTooLarge(Length(s, frame), s.cap))
      && (r.Err? && r.error.SequenceGap? <==>
           frame[4] != 4 && r != Err(NestedMessage) && r != Err(StrayMiddleFrame)
           && (!InTurn(s, frame) || (frame[4] == 2 && !s.assembling)))
  {
  }

  /** Why a malformed one is. */
  lemma MalformedBecause(s: State, frame: bytes)
    requires !WellFormed(frame)
    ensures var (s', r) := Ingest(s, frame);
      && s' == s && r.Err?
      && (r.error == FrameTruncated <==> |frame| < 6)
      && (r.error == NonZeroReserved <==> |frame| >= 6 && frame[5] != 0)
      && (r.error.FrameLengthMismatch? ==>
           && |frame| >= 6
           && r.error == FrameLengthMismatch(256 * frame[0] as int + frame[1] as int, |frame| - 6))
  {
  }
}
